# Roseline launcher — a verified model

The Roseline bundle ships a small launcher (`launcher/src/main.rs`). It keeps
two sibling executables running, `roseline` and `roseline-web`. At start-up
it does four things in order:

1. It refuses to start when another process whose name contains "roseline"
   is already running.
2. It finds the two executables and their logs next to its own binary.
3. It checks that both executables exist.
4. It opens both logs with create + write + truncate.

It then supervises each worker in a loop. The loop spawns the worker with
stdout and stderr bound to the worker's log, and waits for it to exit. After
a successful exit it restarts the worker at once. After a failed exit it
sleeps `TIMEOUT_MS` = 10000 ms, then restarts. It stops when a spawn itself
fails. The `roseline` loop runs on a background thread. The `roseline-web`
loop runs on the main thread, so the launcher exits when that loop stops.

The model replaces the operating system by plain inputs:

- **Process table.** A snapshot `seq<ProcessEntry>` in iteration order,
  plus the caller's pid.
- **`env::current_exe()`.** An `Option<Path>`. A path is its sequence of
  components below the root.
- **Platform.** A `Platform` value for `cfg!(windows)`.
- **Existing files.** A `FileTable` map. `exists()` means the path is in
  the map. A successful log open sets the log's contents to empty.
- **Log opens.** One boolean per log, saying whether the OS grants the open.
- **Spawns.** One `RunOutcome` per spawn attempt: `Success`, `Failure` or
  `SpawnError`.

What the launcher prints, asks of the file system, spawns or sleeps is
recorded as a trace of `Event`s.

Modules, one per component of `main.rs`:

- `LauncherTypes`: the shared datatypes and the constant `TIMEOUT_MS`.
- `InstanceGuard`: `is_already_running`.
- `PathResolver`: `get_dirs`. Rust's `PathBuf` is owned and cloned by value,
  so `GetDirs` uses local path variables that it reassigns through
  `Pop`/`Push`.
- `LogSink`: the success/failure decision of `open_log` and its effect on
  the file table.
- `WorkerSupervisor`: one supervision loop. One generic model covers both
  loops of `main`, which differ only in the worker and its paths.
- `Launcher`: `main`. `Start` is the start-up chain. `Launch` is start-up
  followed by both loops.

Behaviour reproduced as the code is written:

- **Exit status on a missing executable is 0.** `main` reports the missing
  executable and then `return`s, which exits with status 0
  (launcher/src/main.rs:72-77). Exiting with a non-zero status there might
  seem more natural; the model follows the code.
- **The `roseline-web` diagnostic names the wrong path.** When
  `roseline-web` is missing, the message prints the `roseline` executable's
  path (launcher/src/main.rs:76). `Launcher.ProbeAndOpen` states exactly that.
- **A failed `current_exe()` panics.** The `unwrap` in
  launcher/src/main.rs:29 panics on the main thread, which Rust turns into
  exit status 101 after the runtime prints its panic message to stderr.
  This is the `NoCurrentExe` outcome, whose start-up trace is the one
  `Panicked` event.

## Model

| member | source | states |
|---|---|---|
| InstanceGuard.Contains | launcher/src/main.rs:19 | `name.contains("roseline")`: true iff the fragment occurs at some offset of the name |
| InstanceGuard.FirstDuplicate | launcher/src/main.rs:17-22 | the index the scan stops at is a matching entry, and no entry before it matches |
| InstanceGuard.IsAlreadyRunning | launcher/src/main.rs:12-26 | true iff some entry has a name containing "roseline" and a pid other than the caller's; then exactly one notice, naming the first such entry's name and pid; otherwise false and no notice, after every entry was examined |
| InstanceGuard.FragmentAnywhereMatches | launcher/src/main.rs:19 | any name with "roseline" anywhere in it matches the substring test |
| InstanceGuard.WebWorkerCounts | launcher/src/main.rs:19 | a process named "roseline-web" with another pid counts as a running instance |
| InstanceGuard.OwnEntryIgnored | launcher/src/main.rs:13-19 | inserting the caller's own entry anywhere in the snapshot, under any name, never changes the verdict |
| InstanceGuard.OnlySelfMeansNoDuplicate | launcher/src/main.rs:19 | a snapshot holding only the caller's own entries has no duplicate |
| PathResolver.GetDirs | launcher/src/main.rs:28-48 | each of the four paths is the executable's path with its last component popped, plus exactly one component: `roseline.log`, `roseline-web.log`, and `roseline`/`roseline-web` with `.exe` on Windows only |
| PathResolver.Expected | launcher/src/main.rs:28-48 | a value that meets the same description as `GetDirs`'s results |
| PathResolver.ResolvedUnique | launcher/src/main.rs:28-48 | path resolution is deterministic: the executable's path and the platform fix all four paths |
| PathResolver.SameDirectory | launcher/src/main.rs:29-38 | all four paths share one parent, and that parent plus the executable's file name is the executable's path |
| PathResolver.PlatformOnlyChangesExecutables | launcher/src/main.rs:34-45 | the log paths are the same on every platform; the Windows executable names are the POSIX names `roseline`/`roseline-web` followed by `.exe` |
| PathResolver.PathsDistinct | launcher/src/main.rs:34-45 | the four paths are pairwise distinct on every platform |
| LogSink.OpenLogFile | launcher/src/main.rs:50-58 | create + write + truncate: on success the log exists and is empty, and no other file changes; on failure nothing changes |
| WorkerSupervisor.Consumed | launcher/src/main.rs:97-100 | a loop consumes every outcome, or the outcomes up to and including the first spawn error |
| WorkerSupervisor.RunOnce | launcher/src/main.rs:85-101 | one loop iteration starts with exactly one spawn that binds both streams to the worker's log; a success notice appears iff the child exited successfully, and a failure notice plus one cooldown iff it failed; the loop returns iff the spawn itself failed |
| WorkerSupervisor.IterationCounts | launcher/src/main.rs:87-100 | for each outcome, one iteration holds one spawn, a success notice only after a success, and a failure notice and a sleep only after a failure |
| WorkerSupervisor.Supervise | launcher/src/main.rs:84-102 | the loop's events are the iterations of the given outcomes in order, ending at the first spawn error; the loop returns iff a spawn error occurs |
| WorkerSupervisor.SuccessionHolds | launcher/src/main.rs:84-102 | the trace is a run of the state machine spawn → {success, failure, spawn error}, success → spawn, failure → sleep → spawn, spawn error → nothing; it starts with a spawn and never stops mid-iteration |
| WorkerSupervisor.SleepOnlyAfterFailure | launcher/src/main.rs:91-94 | every sleep comes right after a failure notice and lasts exactly 10000 ms, with no backoff growth |
| WorkerSupervisor.FailureThenCooldown | launcher/src/main.rs:91-94 | every failure notice is followed at once by a 10000 ms sleep |
| WorkerSupervisor.SuccessRestartsAtOnce | launcher/src/main.rs:88-90 | after a success notice the next event, if any, is the next spawn; there is no sleep in between |
| WorkerSupervisor.NothingAfterSpawnError | launcher/src/main.rs:97-100 | a spawn error is the last event of the loop: no further spawn attempt |
| WorkerSupervisor.LogOnlyShared | launcher/src/main.rs:85-87 | every spawn starts the worker's executable with stdout and stderr both on the log opened at start-up; that the loop opens no log holds by construction |
| WorkerSupervisor.SpawnsEqualConsumed | launcher/src/main.rs:87 | the number of spawn attempts equals the number of outcomes consumed |
| WorkerSupervisor.OutcomesDecideNotices | launcher/src/main.rs:88-100 | over the whole loop, the success notices are as many as the consumed successful exits, and the failure notices and the cooldowns each as many as the consumed failed exits |
| WorkerSupervisor.AttemptsInOrder | launcher/src/main.rs:84-102 | the outcomes are used in order: after the events of the first `k` attempts (exactly `k` spawns) come the events the `k`-th outcome decides, and nothing more after a spawn error |
| WorkerSupervisor.TraceAppend | launcher/src/main.rs:84-102 | without a spawn error the loop goes round again: the events of two runs of outcomes are those of the first followed by those of the second |
| WorkerSupervisor.OneChildAtATime | launcher/src/main.rs:87-89 | at every point at most one spawned child has not been waited for, and a spawn is attempted only when none is |
| WorkerSupervisor.FailureThenSuccessScenario | launcher/src/main.rs:105-117 | a failure then a success gives one cooldown-delayed restart, then a restart with no delay |
| Launcher.Start | launcher/src/main.rs:60-81 | start-up meets `StartSpec` case by case: a duplicate returns quietly before paths, checks or opens; when `current_exe()` fails it panics: the runtime's panic message is the only event, and the status is 101; otherwise the rest follows `ProbeAndOpen` on the resolved paths; supervision starts iff every check passes |
| Launcher.ProbeAndOpen | launcher/src/main.rs:68-81 | the paths are printed; `roseline` is checked before `roseline-web`, and a missing one returns before any log is opened, with the `roseline` path in both diagnostics; the logs are opened once each, `roseline` first, and a refusal exits 1 after any earlier log was truncated; otherwise both logs are truncated and supervision starts on the four paths |
| Launcher.Launch | launcher/src/main.rs:60-124 | start-up behaves as `Start` does, case by case; nothing is spawned unless every start-up check passes; each loop runs its own executable and log with its own outcomes; the process stays running until the `roseline-web` loop meets a spawn error and then exits with status 0, while a spawn error of the `roseline` loop ends that loop only; start-up failures exit with their status |
| Launcher.StartSpecUnique | launcher/src/main.rs:60-81 | start-up is deterministic: the host's answers fix the outcome, the events and the file table |
| Launcher.ExitStatusByCause | launcher/src/main.rs:29-81 | status 0 for a duplicate or a missing executable, 101 when the executable's path is unavailable, 1 when a log cannot be opened; when the loops start, they run the executables and logs beside the launcher |

## Left out

- Process enumeration through `sysinfo`: its result is the input snapshot. A
  failure to enumerate is not modelled separately: it is an empty snapshot.
- The snapshot's order: it stands for the iteration order of the process
  map, which the operating system and hashing decide.
- The file system, `exists()` and `OpenOptions::open`: they are the
  `FileTable` and one boolean per log. The I/O error text of the log
  diagnostic is not modelled.
- `try_clone` of the log handles and its `expect` panic: a clone is assumed
  to succeed, so a spawn always gets two handles on the same log.
- `Command::status`: the child's run is one `RunOutcome` per attempt, and
  its output is not modelled.
- Sleeping: it is recorded as a `Sleep(10000)` event, not as elapsed time.
- The infinite `loop`s: each loop runs for as many spawn attempts as there
  are outcomes given. A trace that ends without a spawn error is a prefix of
  the real, unending run.
- `thread::spawn` and concurrency: the two loops share no state, so each is
  modelled on its own. How their events interleave is not modelled. The
  background loop being torn down when `main` returns is not modelled. A
  failure to create the thread is not modelled.
- Message text: console lines are events that carry the values they print,
  not formatted strings.
- The database layer (`db/src/lib.rs`) and the web templates
  (`web/src/templates.rs`) are not part of this model: their behaviour lives
  in the ORM, SQL and the template engine.
