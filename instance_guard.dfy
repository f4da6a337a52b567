/** Duplicate-instance detection (`is_already_running`): a scan over a
    snapshot of the process table, in the table's iteration order, for an
    entry other than the caller whose name contains "roseline". */
module InstanceGuard {
  import opened LauncherTypes

  /** The name fragment every launcher and worker process carries. */
  const ROSELINE: string := "roseline"

  /** `sub` occurs in `s` starting at offset `i`. */
  predicate OccursAt(s: string, sub: string, i: nat) {
    i + |sub| <= |s| && s[i..i + |sub|] == sub
  }

  lemma OccursShift(s: string, sub: string)
    requires s != []
    ensures forall i: nat :: OccursAt(s[1..], sub, i) <==> OccursAt(s, sub, i + 1)
  {
  }

  /** Substring search, as `str::contains`. */
  function Contains(s: string, sub: string): (b: bool)
    ensures b <==> exists i: nat :: OccursAt(s, sub, i)
    decreases |s|
  {
    if |sub| <= |s| && s[..|sub|] == sub then
      assert OccursAt(s, sub, 0);
      true
    else if s == [] then
      assert forall i: nat :: !OccursAt(s, sub, i);
      false
    else
      OccursShift(s, sub);
      assert !OccursAt(s, sub, 0);
      assert forall i: nat :: OccursAt(s, sub, i) ==> i > 0 && OccursAt(s[1..], sub, i - 1);
      Contains(s[1..], sub)
  }

  /** The test applied to each entry: a name containing "roseline" and a pid
      that is not the caller's own. */
  predicate IsDuplicate(selfPid: Pid, e: ProcessEntry) {
    Contains(e.name, ROSELINE) && selfPid != e.pid
  }

  ghost predicate HasDuplicate(selfPid: Pid, procs: seq<ProcessEntry>) {
    exists i :: 0 <= i < |procs| && IsDuplicate(selfPid, procs[i])
  }

  /** `k` is the first entry of the snapshot that passes the test. */
  ghost predicate FirstDuplicateAt(selfPid: Pid, procs: seq<ProcessEntry>, k: nat) {
    k < |procs| && IsDuplicate(selfPid, procs[k]) &&
    forall j :: 0 <= j < k ==> !IsDuplicate(selfPid, procs[j])
  }

  ghost function FirstDuplicate(selfPid: Pid, procs: seq<ProcessEntry>): (k: nat)
    requires HasDuplicate(selfPid, procs)
    ensures FirstDuplicateAt(selfPid, procs, k)
    decreases |procs|
  {
    if IsDuplicate(selfPid, procs[0]) then 0
    else
      var j :| 0 <= j < |procs| && IsDuplicate(selfPid, procs[j]);
      assert procs[1..][j - 1] == procs[j];
      1 + FirstDuplicate(selfPid, procs[1..])
  }

  /** The notice printed for the first duplicate of the snapshot. */
  ghost function DuplicateNotice(selfPid: Pid, procs: seq<ProcessEntry>): Event
    requires HasDuplicate(selfPid, procs)
  {
    var e := procs[FirstDuplicate(selfPid, procs)];
    NoticeDuplicate(e.name, e.pid)
  }

  /** `is_already_running`, with the process table given as `procs` and the
      caller's pid as `selfPid`; `notices` are the lines it prints. */
  method IsAlreadyRunning(selfPid: Pid, procs: seq<ProcessEntry>) returns (running: bool, notices: seq<Event>)
    ensures running <==> HasDuplicate(selfPid, procs)
    ensures running ==> notices == [DuplicateNotice(selfPid, procs)]
    ensures !running ==> notices == []
  {
    for i := 0 to |procs|
      invariant forall j :: 0 <= j < i ==> !IsDuplicate(selfPid, procs[j])
    {
      var name := procs[i].name;
      if Contains(name, ROSELINE) && selfPid != procs[i].pid {
        assert FirstDuplicateAt(selfPid, procs, i);
        FirstDuplicateUnique(selfPid, procs, i, FirstDuplicate(selfPid, procs));
        return true, [NoticeDuplicate(name, procs[i].pid)];
      }
    }
    return false, [];
  }

  lemma FirstDuplicateUnique(selfPid: Pid, procs: seq<ProcessEntry>, k1: nat, k2: nat)
    requires FirstDuplicateAt(selfPid, procs, k1) && FirstDuplicateAt(selfPid, procs, k2)
    ensures k1 == k2
  {
  }

  /** Any name with "roseline" in it matches, wherever the fragment stands:
      "roseline", "roseline-web", "my-roseline-helper". */
  lemma {:induction false} FragmentAnywhereMatches(pre: string, post: string)
    ensures Contains(pre + ROSELINE + post, ROSELINE)
  {
    var s := pre + ROSELINE + post;
    assert s[|pre|..|pre| + |ROSELINE|] == ROSELINE;
    assert OccursAt(s, ROSELINE, |pre|);
  }

  /** Another process named "roseline-web" counts as a running instance. */
  lemma WebWorkerCounts(selfPid: Pid, pid: Pid)
    requires pid != selfPid
    ensures IsDuplicate(selfPid, ProcessEntry(pid, "roseline-web"))
  {
  }

  /** The caller's own entry never counts, wherever it stands in the snapshot
      and whatever its name. */
  lemma {:induction false} OwnEntryIgnored(selfPid: Pid, before: seq<ProcessEntry>, name: string, after: seq<ProcessEntry>)
    ensures HasDuplicate(selfPid, before + [ProcessEntry(selfPid, name)] + after)
        <==> HasDuplicate(selfPid, before + after)
  {
    var withOwn := before + [ProcessEntry(selfPid, name)] + after;
    var without := before + after;
    if HasDuplicate(selfPid, withOwn) {
      var i :| 0 <= i < |withOwn| && IsDuplicate(selfPid, withOwn[i]);
      if i < |before| {
        assert without[i] == withOwn[i];
      } else {
        assert i > |before|;
        assert without[i - 1] == withOwn[i];
      }
    }
    if HasDuplicate(selfPid, without) {
      var i :| 0 <= i < |without| && IsDuplicate(selfPid, without[i]);
      if i < |before| {
        assert withOwn[i] == without[i];
      } else {
        assert withOwn[i + 1] == without[i];
      }
    }
  }

  /** A snapshot in which every entry is the caller's own has no duplicate. */
  lemma OnlySelfMeansNoDuplicate(selfPid: Pid, procs: seq<ProcessEntry>)
    requires forall i :: 0 <= i < |procs| ==> procs[i].pid == selfPid
    ensures !HasDuplicate(selfPid, procs)
  {
  }
}
