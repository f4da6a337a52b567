/** The supervision loop run for each worker (the two `loop` bodies of
    `main`): spawn the worker with both output streams bound to its log,
    wait for it to exit, restart at once after a success and after the fixed
    cooldown after a failure, and stop for good when the spawn itself fails.
    The loop never ends on its own; here it runs for as many spawn attempts
    as there are outcomes given. */
module WorkerSupervisor {
  import opened LauncherTypes

  /** The events of one iteration: the spawn attempt, then what the loop
      prints and whether it sleeps. */
  function Iteration(w: Worker, exe: Path, log: Path, o: RunOutcome): seq<Event> {
    [Spawn(w, exe, log, log)] +
    match o
    case Success => [Finished(w, true)]
    case Failure => [Finished(w, false), Sleep(TIMEOUT_MS)]
    case SpawnError => [ReportSpawnError(w)]
  }

  /** The events of the loop when the spawn attempts have the given
      outcomes, in order; nothing after the first spawn error. */
  function SupervisionTrace(w: Worker, exe: Path, log: Path, runs: seq<RunOutcome>): seq<Event>
    decreases |runs|
  {
    if runs == [] then []
    else if runs[0] == SpawnError then Iteration(w, exe, log, SpawnError)
    else Iteration(w, exe, log, runs[0]) + SupervisionTrace(w, exe, log, runs[1..])
  }

  /** How many of the given outcomes the loop consumes: all of them, or up
      to and including the first spawn error. */
  function Consumed(runs: seq<RunOutcome>): (c: nat)
    ensures c <= |runs|
    ensures SpawnError !in runs ==> c == |runs|
    ensures SpawnError in runs ==> 0 < c && runs[c - 1] == SpawnError && SpawnError !in runs[..c - 1]
    decreases |runs|
  {
    if runs == [] then 0
    else if runs[0] == SpawnError then 1
    else
      assert runs == [runs[0]] + runs[1..];
      var c := Consumed(runs[1..]);
      assert runs[..c + 1] == [runs[0]] + runs[1..][..c];
      1 + c
  }

  /** The body of the loop, once: spawn the child with both streams on the
      log and wait for it; after a success report it and go round at once,
      after a failure report it and sleep for the cooldown, after a spawn
      error report it and return (`stop`). `Iteration` is the same events
      as a value, for the specification of the whole loop. */
  method RunOnce(w: Worker, exe: Path, log: Path, outcome: RunOutcome)
    returns (events: seq<Event>, stop: bool)
    ensures |events| >= 2 && events[0] == Spawn(w, exe, log, log) && Count(events, IsSpawn) == 1
    ensures Count(events, IsSuccessNotice) == (if outcome == Success then 1 else 0)
    ensures Count(events, IsFailureNotice) == (if outcome == Failure then 1 else 0)
    ensures Count(events, IsSleep) == (if outcome == Failure then 1 else 0)
    ensures stop <==> outcome == SpawnError
    ensures events == Iteration(w, exe, log, outcome)
  {
    events := [Spawn(w, exe, log, log)];
    stop := false;
    match outcome {
      case Success =>
        events := events + [Finished(w, true)];
      case Failure =>
        events := events + [Finished(w, false)];
        events := events + [Sleep(TIMEOUT_MS)];
      case SpawnError =>
        events := events + [ReportSpawnError(w)];
        stop := true;
    }
    IterationCounts(w, exe, log, outcome);
  }

  /** `loop { ... }`, one spawn attempt per outcome: `trace` is what the
      loop has done, `stopped` tells whether it returned. */
  method Supervise(w: Worker, exe: Path, log: Path, runs: seq<RunOutcome>)
    returns (trace: seq<Event>, stopped: bool)
    ensures trace == SupervisionTrace(w, exe, log, runs)
    ensures stopped <==> SpawnError in runs
  {
    trace := [];
    var i := 0;
    while i < |runs|
      invariant i <= |runs|
      invariant SpawnError !in runs[..i]
      invariant trace + SupervisionTrace(w, exe, log, runs[i..]) == SupervisionTrace(w, exe, log, runs)
    {
      var events, stop := RunOnce(w, exe, log, runs[i]);
      AdvanceLoop(w, exe, log, runs, i, trace);
      trace := trace + events;
      if stop {
        assert runs[i] in runs;
        return trace, true;
      }
      assert runs[..i + 1] == runs[..i] + [runs[i]];
      i := i + 1;
    }
    assert runs[..i] == runs;
    stopped := false;
  }

  lemma UnfoldAt(w: Worker, exe: Path, log: Path, runs: seq<RunOutcome>, i: nat)
    requires i < |runs|
    ensures runs[i] == SpawnError ==> SupervisionTrace(w, exe, log, runs[i..]) == Iteration(w, exe, log, SpawnError)
    ensures runs[i] != SpawnError ==>
      SupervisionTrace(w, exe, log, runs[i..]) == Iteration(w, exe, log, runs[i]) + SupervisionTrace(w, exe, log, runs[i + 1..])
  {
  }

  /** The invariant of `Supervise` is kept by one more iteration. */
  lemma AdvanceLoop(w: Worker, exe: Path, log: Path, runs: seq<RunOutcome>, i: nat, trace: seq<Event>)
    requires i < |runs|
    requires trace + SupervisionTrace(w, exe, log, runs[i..]) == SupervisionTrace(w, exe, log, runs)
    ensures runs[i] == SpawnError ==> trace + Iteration(w, exe, log, runs[i]) == SupervisionTrace(w, exe, log, runs)
    ensures runs[i] != SpawnError ==>
      (trace + Iteration(w, exe, log, runs[i])) + SupervisionTrace(w, exe, log, runs[i + 1..]) == SupervisionTrace(w, exe, log, runs)
  {
    UnfoldAt(w, exe, log, runs, i);
  }

  // ---------------------------------------------------------------------
  // The loop as a state machine: which event may follow which.

  /** Event `b` may directly follow event `a` in worker `w`'s loop. */
  predicate Step(w: Worker, exe: Path, log: Path, a: Event, b: Event) {
    match a
    case Spawn(_, _, _, _) => b == Finished(w, true) || b == Finished(w, false) || b == ReportSpawnError(w)
    case Finished(_, success) => if success then b == Spawn(w, exe, log, log) else b == Sleep(TIMEOUT_MS)
    case Sleep(_) => b == Spawn(w, exe, log, log)
    case _ => false
  }

  /** The loop may stop being observed after `e`: a finished run whose
      restart was not given, a cooldown, or a spawn error. */
  predicate MayEnd(w: Worker, e: Event) {
    e == Finished(w, true) || e == Sleep(TIMEOUT_MS) || e == ReportSpawnError(w)
  }

  /** `t` is a run of the state machine: it starts with a spawn of the
      worker's executable, every event follows its predecessor by `Step`,
      and it does not stop in the middle of an iteration. */
  ghost predicate Succession(w: Worker, exe: Path, log: Path, t: seq<Event>) {
    && (|t| > 0 ==> t[0] == Spawn(w, exe, log, log) && MayEnd(w, t[|t| - 1]))
    && (forall k :: 0 <= k < |t| - 1 ==> Step(w, exe, log, t[k], t[k + 1]))
  }

  lemma {:induction false} SuccessionHolds(w: Worker, exe: Path, log: Path, runs: seq<RunOutcome>)
    ensures Succession(w, exe, log, SupervisionTrace(w, exe, log, runs))
    decreases |runs|
  {
    if runs != [] {
      var t := SupervisionTrace(w, exe, log, runs);
      var it := Iteration(w, exe, log, runs[0]);
      if runs[0] == SpawnError {
        assert t == [Spawn(w, exe, log, log), ReportSpawnError(w)];
      } else {
        var rest := SupervisionTrace(w, exe, log, runs[1..]);
        SuccessionHolds(w, exe, log, runs[1..]);
        assert t == it + rest;
        assert MayEnd(w, it[|it| - 1]);
        forall k | 0 <= k < |t| - 1
          ensures Step(w, exe, log, t[k], t[k + 1])
        {
          if k + 1 < |it| {
            assert t[k] == it[k] && t[k + 1] == it[k + 1];
          } else if k + 1 == |it| {
            assert t[k] == it[|it| - 1] && t[k + 1] == rest[0];
          } else {
            assert t[k] == rest[k - |it|] && t[k + 1] == rest[k - |it| + 1];
          }
        }
        if rest != [] {
          assert t[|t| - 1] == rest[|rest| - 1];
        }
      }
    }
  }

  /** A sleep happens only right after a failed run, and always lasts
      exactly `TIMEOUT_MS`: no backoff growth. */
  lemma {:induction false} SleepOnlyAfterFailure(w: Worker, exe: Path, log: Path, runs: seq<RunOutcome>)
    ensures var t := SupervisionTrace(w, exe, log, runs);
      forall k :: 0 <= k < |t| && t[k].Sleep? ==> 0 < k && t[k - 1] == Finished(w, false) && t[k].ms == TIMEOUT_MS
  {
    var t := SupervisionTrace(w, exe, log, runs);
    SuccessionHolds(w, exe, log, runs);
    forall k | 0 <= k < |t| && t[k].Sleep?
      ensures 0 < k && t[k - 1] == Finished(w, false) && t[k].ms == TIMEOUT_MS
    {
      assert k != 0;
      assert Step(w, exe, log, t[k - 1], t[k]);
      assert k - 1 != 0;
      assert Step(w, exe, log, t[k - 2], t[k - 1]);
    }
  }

  /** After a failed run the loop sleeps for the cooldown before anything
      else happens. */
  lemma {:induction false} FailureThenCooldown(w: Worker, exe: Path, log: Path, runs: seq<RunOutcome>)
    ensures var t := SupervisionTrace(w, exe, log, runs);
      forall k :: 0 <= k < |t| && t[k] == Finished(w, false) ==> k + 1 < |t| && t[k + 1] == Sleep(TIMEOUT_MS)
  {
    var t := SupervisionTrace(w, exe, log, runs);
    SuccessionHolds(w, exe, log, runs);
    forall k | 0 <= k < |t| && t[k] == Finished(w, false)
      ensures k + 1 < |t| && t[k + 1] == Sleep(TIMEOUT_MS)
    {
      assert !MayEnd(w, t[k]);
      assert Step(w, exe, log, t[k], t[k + 1]);
    }
  }

  /** After a successful run the next event, if the loop is observed any
      further, is the next spawn: there is no delay. */
  lemma {:induction false} SuccessRestartsAtOnce(w: Worker, exe: Path, log: Path, runs: seq<RunOutcome>)
    ensures var t := SupervisionTrace(w, exe, log, runs);
      forall k :: 0 <= k < |t| - 1 && t[k] == Finished(w, true) ==> t[k + 1] == Spawn(w, exe, log, log)
  {
    var t := SupervisionTrace(w, exe, log, runs);
    SuccessionHolds(w, exe, log, runs);
    forall k | 0 <= k < |t| - 1 && t[k] == Finished(w, true)
      ensures t[k + 1] == Spawn(w, exe, log, log)
    {
      assert Step(w, exe, log, t[k], t[k + 1]);
    }
  }

  /** A spawn error is the last thing the loop does: no spawn attempt, and
      no other event, follows it. */
  lemma {:induction false} NothingAfterSpawnError(w: Worker, exe: Path, log: Path, runs: seq<RunOutcome>)
    ensures var t := SupervisionTrace(w, exe, log, runs);
      forall k :: 0 <= k < |t| && t[k].ReportSpawnError? ==> k == |t| - 1
  {
    var t := SupervisionTrace(w, exe, log, runs);
    SuccessionHolds(w, exe, log, runs);
    forall k | 0 <= k < |t| && t[k].ReportSpawnError?
      ensures k == |t| - 1
    {
      assert k < |t| - 1 ==> Step(w, exe, log, t[k], t[k + 1]);
    }
  }

  /** Every spawn starts the worker's own executable with both streams on
      the log opened at start-up. That the loop never opens a log holds by
      construction: its body has no open call, only the shared handle. */
  lemma {:induction false} LogOnlyShared(w: Worker, exe: Path, log: Path, runs: seq<RunOutcome>)
    ensures var t := SupervisionTrace(w, exe, log, runs);
      forall k :: 0 <= k < |t| ==> !t[k].OpenLog? && (t[k].Spawn? ==> t[k] == Spawn(w, exe, log, log))
  {
    var t := SupervisionTrace(w, exe, log, runs);
    SuccessionHolds(w, exe, log, runs);
    forall k | 0 <= k < |t|
      ensures !t[k].OpenLog? && (t[k].Spawn? ==> t[k] == Spawn(w, exe, log, log))
    {
      if k > 0 {
        assert Step(w, exe, log, t[k - 1], t[k]);
      }
    }
  }

  // ---------------------------------------------------------------------
  // Counting: spawn attempts and live children.

  /** The number of events of `t` that satisfy `p`. */
  function Count(t: seq<Event>, p: Event -> bool): (n: nat)
    ensures n <= |t|
    decreases |t|
  {
    if t == [] then 0 else (if p(t[0]) then 1 else 0) + Count(t[1..], p)
  }

  lemma {:induction false} CountAppend(a: seq<Event>, b: seq<Event>, p: Event -> bool)
    ensures Count(a + b, p) == Count(a, p) + Count(b, p)
    decreases |a|
  {
    if a == [] {
      assert a + b == b;
    } else {
      assert (a + b)[1..] == a[1..] + b;
      CountAppend(a[1..], b, p);
    }
  }

  predicate IsSpawn(e: Event) { e.Spawn? }

  /** The events that end a spawn attempt: the child's exit, or the
      refusal to start it. */
  predicate EndsAttempt(e: Event) { e.Finished? || e.ReportSpawnError? }

  /** Children started and not yet waited for, after the events `t`. */
  function Live(t: seq<Event>): int {
    Count(t, IsSpawn) - Count(t, EndsAttempt)
  }

  predicate IsSleep(e: Event) { e.Sleep? }

  predicate IsSuccessNotice(e: Event) { e.Finished? && e.success }

  predicate IsFailureNotice(e: Event) { e.Finished? && !e.success }

  /** What one iteration does for each outcome: exactly one spawn; the
      success notice only for a success; the failure notice and one cooldown
      only for a failure. */
  lemma IterationCounts(w: Worker, exe: Path, log: Path, o: RunOutcome)
    ensures var it := Iteration(w, exe, log, o);
      && Count(it, IsSpawn) == 1
      && Count(it, IsSuccessNotice) == (if o == Success then 1 else 0)
      && Count(it, IsFailureNotice) == (if o == Failure then 1 else 0)
      && Count(it, IsSleep) == (if o == Failure then 1 else 0)
  {
    var it := Iteration(w, exe, log, o);
    var last := it[1..][1..];
    if o == Failure {
      assert it == [Spawn(w, exe, log, log), Finished(w, false), Sleep(TIMEOUT_MS)];
      assert last == [Sleep(TIMEOUT_MS)] && last[1..] == [];
      assert Count(last, IsSleep) == 1 && Count(last, IsSpawn) == 0;
      assert Count(last, IsSuccessNotice) == 0 && Count(last, IsFailureNotice) == 0;
    } else {
      assert |it| == 2 && it[0] == Spawn(w, exe, log, log);
      assert last == [];
    }
  }

  /** The number of spawn attempts equals the number of outcomes consumed. */
  lemma {:induction false} SpawnsEqualConsumed(w: Worker, exe: Path, log: Path, runs: seq<RunOutcome>)
    ensures Count(SupervisionTrace(w, exe, log, runs), IsSpawn) == Consumed(runs)
    decreases |runs|
  {
    if runs != [] {
      var it := Iteration(w, exe, log, runs[0]);
      IterationCounts(w, exe, log, runs[0]);
      if runs[0] != SpawnError {
        SpawnsEqualConsumed(w, exe, log, runs[1..]);
        CountAppend(it, SupervisionTrace(w, exe, log, runs[1..]), IsSpawn);
      }
    }
  }

  /** The outcomes decide what the loop does: over all the outcomes it
      consumes, there is one success notice per successful exit, one
      failure notice per failed exit, and one cooldown per failed exit,
      and no others. */
  lemma {:induction false} OutcomesDecideNotices(w: Worker, exe: Path, log: Path, runs: seq<RunOutcome>)
    ensures var t := SupervisionTrace(w, exe, log, runs);
      var done := multiset(runs[..Consumed(runs)]);
      && Count(t, IsSuccessNotice) == done[Success]
      && Count(t, IsFailureNotice) == done[Failure]
      && Count(t, IsSleep) == done[Failure]
    decreases |runs|
  {
    if runs == [] {
      assert runs[..Consumed(runs)] == [];
    } else {
      var it := Iteration(w, exe, log, runs[0]);
      IterationCounts(w, exe, log, runs[0]);
      if runs[0] == SpawnError {
        assert runs[..Consumed(runs)] == [SpawnError];
      } else {
        var rest := SupervisionTrace(w, exe, log, runs[1..]);
        OutcomesDecideNotices(w, exe, log, runs[1..]);
        CountAppend(it, rest, IsSuccessNotice);
        CountAppend(it, rest, IsFailureNotice);
        CountAppend(it, rest, IsSleep);
        ConsumedAfterFirst(runs);
      }
    }
  }

  /** The outcomes are used in order: the loop's events are those of the
      attempts before the `k`-th (exactly `k` spawns), then the `k`-th
      attempt's own iteration as its outcome decides, then the rest. */
  lemma {:induction false} AttemptsInOrder(w: Worker, exe: Path, log: Path, runs: seq<RunOutcome>, k: nat)
    requires k < Consumed(runs)
    ensures Count(SupervisionTrace(w, exe, log, runs[..k]), IsSpawn) == k
    ensures runs[k] == SpawnError ==>
      SupervisionTrace(w, exe, log, runs) == SupervisionTrace(w, exe, log, runs[..k]) + Iteration(w, exe, log, SpawnError)
    ensures runs[k] != SpawnError ==>
      SupervisionTrace(w, exe, log, runs) ==
      SupervisionTrace(w, exe, log, runs[..k]) + Iteration(w, exe, log, runs[k]) + SupervisionTrace(w, exe, log, runs[k + 1..])
  {
    SpawnsBefore(w, exe, log, runs, k);
    SplitAtAttempt(w, exe, log, runs, k);
    UnfoldAt(w, exe, log, runs, k);
    var before, after := SupervisionTrace(w, exe, log, runs[..k]), SupervisionTrace(w, exe, log, runs[k..]);
    var it := Iteration(w, exe, log, runs[k]);
    assert SupervisionTrace(w, exe, log, runs) == before + after;
    if runs[k] != SpawnError {
      var rest := SupervisionTrace(w, exe, log, runs[k + 1..]);
      assert after == it + rest;
      assert before + after == before + it + rest;
    } else {
      assert after == it;
    }
  }

  /** Before the `k`-th consumed outcome the loop has made exactly `k`
      spawn attempts. */
  lemma {:induction false} SpawnsBefore(w: Worker, exe: Path, log: Path, runs: seq<RunOutcome>, k: nat)
    requires k < Consumed(runs)
    ensures Count(SupervisionTrace(w, exe, log, runs[..k]), IsSpawn) == k
  {
    NoErrorBeforeConsumed(runs, k);
    SpawnsEqualConsumed(w, exe, log, runs[..k]);
  }

  /** The loop's events split at any consumed outcome. */
  lemma {:induction false} SplitAtAttempt(w: Worker, exe: Path, log: Path, runs: seq<RunOutcome>, k: nat)
    requires k < Consumed(runs)
    ensures SupervisionTrace(w, exe, log, runs) ==
      SupervisionTrace(w, exe, log, runs[..k]) + SupervisionTrace(w, exe, log, runs[k..])
  {
    NoErrorBeforeConsumed(runs, k);
    assert runs == runs[..k] + runs[k..];
    TraceAppend(w, exe, log, runs[..k], runs[k..]);
  }

  /** The outcomes before the last consumed one hold no spawn error. */
  lemma NoErrorBeforeConsumed(runs: seq<RunOutcome>, k: nat)
    requires k < Consumed(runs)
    ensures SpawnError !in runs[..k]
  {
    if SpawnError in runs {
      assert runs[..k] == runs[..Consumed(runs) - 1][..k];
    }
  }

  /** Outcomes without a spawn error can be split anywhere: the loop simply
      goes on. */
  lemma {:induction false} TraceAppend(w: Worker, exe: Path, log: Path, a: seq<RunOutcome>, b: seq<RunOutcome>)
    requires SpawnError !in a
    ensures SupervisionTrace(w, exe, log, a + b) == SupervisionTrace(w, exe, log, a) + SupervisionTrace(w, exe, log, b)
    decreases |a|
  {
    if a == [] {
      assert a + b == b;
    } else {
      assert a[0] in a;
      assert (a + b)[0] == a[0] && (a + b)[1..] == a[1..] + b;
      TraceAppend(w, exe, log, a[1..], b);
      assert SupervisionTrace(w, exe, log, a + b) ==
        Iteration(w, exe, log, a[0]) + SupervisionTrace(w, exe, log, a[1..] + b);
    }
  }

  /** Past an outcome other than a spawn error, the consumed outcomes are
      that one and those consumed of the rest. */
  lemma ConsumedAfterFirst(runs: seq<RunOutcome>)
    requires runs != [] && runs[0] != SpawnError
    ensures multiset(runs[..Consumed(runs)]) == multiset{runs[0]} + multiset(runs[1..][..Consumed(runs[1..])])
  {
    var c := Consumed(runs[1..]);
    assert Consumed(runs) == 1 + c;
    assert runs[..1 + c] == [runs[0]] + runs[1..][..c];
  }

  lemma {:induction false} LiveAfterPrefix(w: Worker, exe: Path, log: Path, t: seq<Event>, n: nat)
    requires Succession(w, exe, log, t)
    requires n <= |t|
    ensures Live(t[..n]) == if n > 0 && t[n - 1].Spawn? then 1 else 0
    decreases n
  {
    if n > 0 {
      LiveAfterPrefix(w, exe, log, t, n - 1);
      assert t[..n] == t[..n - 1] + [t[n - 1]];
      CountAppend(t[..n - 1], [t[n - 1]], IsSpawn);
      CountAppend(t[..n - 1], [t[n - 1]], EndsAttempt);
      if n > 1 {
        assert Step(w, exe, log, t[n - 2], t[n - 1]);
      }
    }
  }

  /** At most one child per worker at any time: at every point of the loop
      at most one spawned child has not been waited for, and a spawn is
      attempted only when none is. */
  lemma {:induction false} OneChildAtATime(w: Worker, exe: Path, log: Path, runs: seq<RunOutcome>)
    ensures var t := SupervisionTrace(w, exe, log, runs);
      && (forall n :: 0 <= n <= |t| ==> 0 <= Live(t[..n]) <= 1)
      && (forall k :: 0 <= k < |t| && t[k].Spawn? ==> Live(t[..k]) == 0)
  {
    var t := SupervisionTrace(w, exe, log, runs);
    SuccessionHolds(w, exe, log, runs);
    forall n | 0 <= n <= |t|
      ensures 0 <= Live(t[..n]) <= 1
    {
      LiveAfterPrefix(w, exe, log, t, n);
    }
    forall k | 0 <= k < |t| && t[k].Spawn?
      ensures Live(t[..k]) == 0
    {
      LiveAfterPrefix(w, exe, log, t, k);
      if k > 0 {
        assert Step(w, exe, log, t[k - 1], t[k]);
      }
    }
  }

  /** A worker that fails once and then succeeds: one spawn, the failure
      notice and the cooldown, a second spawn, the success notice, and at
      once a third spawn. */
  lemma FailureThenSuccessScenario(w: Worker, exe: Path, log: Path)
    ensures SupervisionTrace(w, exe, log, [Failure, Success, SpawnError]) ==
      [Spawn(w, exe, log, log), Finished(w, false), Sleep(TIMEOUT_MS),
       Spawn(w, exe, log, log), Finished(w, true),
       Spawn(w, exe, log, log), ReportSpawnError(w)]
  {
  }
}
