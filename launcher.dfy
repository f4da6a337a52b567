/** `main`: the start-up chain (duplicate check, path resolution,
    executable checks, log opens) and then the two supervision loops, the
    `roseline` one on a background thread and the `roseline-web` one on the
    main thread. Everything the operating system answers is an input. */
module Launcher {
  import opened LauncherTypes
  import opened InstanceGuard
  import opened PathResolver
  import opened LogSink
  import opened WorkerSupervisor

  /** What the host answers during start-up: the process-table snapshot and
      the caller's pid, `env::current_exe()` (`None` when it fails), the
      build platform, the files that exist, and whether each log may be
      opened. */
  datatype Host = Host(
    selfPid: Pid,
    processes: seq<ProcessEntry>,
    currentExe: Option<Path>,
    platform: Platform,
    files: FileTable,
    roselineLogOpens: bool,
    webLogOpens: bool)

  /** An executable and the log its output goes to. */
  datatype WorkerSpec = WorkerSpec(exe: Path, log: Path)

  /** How start-up ends. */
  datatype StartOutcome =
    | Duplicate                 // another instance runs: quiet return
    | NoCurrentExe              // `current_exe().unwrap()` panics on the main thread
    | ExeMissing(worker: Worker) // diagnostic, then return
    | LogUnopenable(path: Path) // diagnostic, then `exit(1)`
    | Supervising(roseline: WorkerSpec, web: WorkerSpec)

  /** The launcher process: still running, or ended with an exit status. */
  datatype Status = Running | Exited(code: int)

  /** Exit status of a start-up that does not reach the loops: a return
      from `main` is 0, `exit(1)` is 1, a panic on the main thread is 101. */
  function StartupExitCode(o: StartOutcome): int {
    match o
    case Duplicate => 0
    case NoCurrentExe => 101
    case ExeMissing(_) => 0
    case LogUnopenable(_) => 1
    case Supervising(_, _) => 0
  }

  /** Every start-up check passes. */
  ghost predicate Ready(host: Host) {
    && !HasDuplicate(host.selfPid, host.processes)
    && host.currentExe.Some?
    && var d := Expected(host.currentExe.value, host.platform);
    && d.roselineExe in host.files && d.webExe in host.files
    && host.roselineLogOpens && host.webLogOpens
  }

  /** What start-up does on `host`: `outcome` is how it ends, `trace` what
      it prints and asks of the file system, in order, and `files` the file
      table after the log opens. */
  ghost predicate StartSpec(host: Host, outcome: StartOutcome, trace: seq<Event>, files: FileTable) {
    && (outcome.Supervising? <==> Ready(host))
    // A duplicate ends start-up before paths are resolved, executables
    // checked or logs opened.
    && (outcome == Duplicate <==> HasDuplicate(host.selfPid, host.processes))
    && (HasDuplicate(host.selfPid, host.processes) ==>
          trace == [DuplicateNotice(host.selfPid, host.processes)] && files == host.files)
    && (!HasDuplicate(host.selfPid, host.processes) && host.currentExe.None? ==>
          outcome == NoCurrentExe && trace == [Panicked] && files == host.files)
    && (!HasDuplicate(host.selfPid, host.processes) && host.currentExe.Some? ==>
          StartFromDirs(host, Expected(host.currentExe.value, host.platform), outcome, trace, files))
  }

  /** Start-up once the paths `d` are resolved: the paths are printed, the
      executables are checked, and the logs are opened. */
  ghost predicate StartFromDirs(host: Host, d: Dirs, outcome: StartOutcome, trace: seq<Event>, files: FileTable) {
    var probed := [ShowPaths(d.roselineExe, d.roselineLog), ShowPaths(d.webExe, d.webLog), ProbeExe(d.roselineExe)];
    var opening := probed + [ProbeExe(d.webExe), OpenLog(d.roselineLog)];
    // `roseline` is checked first; a missing executable ends start-up
    // before any log is opened. The diagnostic for a missing
    // `roseline-web` names the `roseline` path, as the source prints it.
    && (d.roselineExe !in host.files ==>
          outcome == ExeMissing(Roseline) && files == host.files &&
          trace == probed + [ReportMissingExe(Roseline, d.roselineExe)])
    && (d.roselineExe in host.files && d.webExe !in host.files ==>
          outcome == ExeMissing(RoselineWeb) && files == host.files &&
          trace == probed + [ProbeExe(d.webExe), ReportMissingExe(RoselineWeb, d.roselineExe)])
    // The logs are opened once each, `roseline` first; a refusal exits
    // with status 1, after the `roseline` log was already truncated when
    // it is the `roseline-web` log that fails.
    && (d.roselineExe in host.files && d.webExe in host.files ==>
          && (!host.roselineLogOpens ==>
                outcome == LogUnopenable(d.roselineLog) && files == host.files &&
                trace == opening + [ReportLogError(d.roselineLog), Exit(1)])
          && (host.roselineLogOpens && !host.webLogOpens ==>
                outcome == LogUnopenable(d.webLog) && files == host.files[d.roselineLog := []] &&
                trace == opening + [OpenLog(d.webLog), ReportLogError(d.webLog), Exit(1)])
          && (host.roselineLogOpens && host.webLogOpens ==>
                outcome == Supervising(WorkerSpec(d.roselineExe, d.roselineLog), WorkerSpec(d.webExe, d.webLog)) &&
                files == host.files[d.roselineLog := []][d.webLog := []] &&
                trace == opening + [OpenLog(d.webLog)]))
  }

  /** `main` up to the start of the loops. */
  method Start(host: Host) returns (outcome: StartOutcome, trace: seq<Event>, files: FileTable)
    ensures StartSpec(host, outcome, trace, files)
  {
    var running, notices := IsAlreadyRunning(host.selfPid, host.processes);
    if running {
      return Duplicate, notices, host.files;
    }

    if host.currentExe.None? {
      return NoCurrentExe, [Panicked], host.files;
    }
    var roselineLog, roselineExe, webLog, webExe := GetDirs(host.currentExe.value, host.platform);
    var d := Dirs(roselineLog, roselineExe, webLog, webExe);
    ResolvedUnique(host.currentExe.value, host.platform, d, Expected(host.currentExe.value, host.platform));
    outcome, trace, files := ProbeAndOpen(host, d);
  }

  /** The rest of start-up once the paths `d` are known: print them, check
      both executables, and open both logs. */
  method ProbeAndOpen(host: Host, d: Dirs) returns (outcome: StartOutcome, trace: seq<Event>, files: FileTable)
    ensures StartFromDirs(host, d, outcome, trace, files)
  {
    files := host.files;
    trace := [ShowPaths(d.roselineExe, d.roselineLog)];
    trace := trace + [ShowPaths(d.webExe, d.webLog)];

    trace := trace + [ProbeExe(d.roselineExe)];
    if d.roselineExe !in files {
      trace := trace + [ReportMissingExe(Roseline, d.roselineExe)];
      return ExeMissing(Roseline), trace, files;
    }
    trace := trace + [ProbeExe(d.webExe)];
    if d.webExe !in files {
      trace := trace + [ReportMissingExe(RoselineWeb, d.roselineExe)];
      return ExeMissing(RoselineWeb), trace, files;
    }

    trace := trace + [OpenLog(d.roselineLog)];
    var open := OpenLogFile(files, d.roselineLog, host.roselineLogOpens);
    if open.OpenFailed? {
      trace := trace + [ReportLogError(d.roselineLog), Exit(1)];
      return LogUnopenable(d.roselineLog), trace, files;
    }
    files := open.files;
    assert files == host.files[d.roselineLog := []];

    trace := trace + [OpenLog(d.webLog)];
    open := OpenLogFile(files, d.webLog, host.webLogOpens);
    if open.OpenFailed? {
      trace := trace + [ReportLogError(d.webLog), Exit(1)];
      return LogUnopenable(d.webLog), trace, files;
    }
    files := open.files;
    assert files == host.files[d.roselineLog := []][d.webLog := []];

    outcome := Supervising(WorkerSpec(d.roselineExe, d.roselineLog), WorkerSpec(d.webExe, d.webLog));
  }

  /** The whole of `main`. The background loop's events `roselineTrace`
      and the main loop's `webTrace` are kept apart: the two loops share
      nothing, and how their events interleave is not modelled. The
      process keeps running while the `roseline-web` loop does, and returns
      (status 0) exactly when that loop meets a spawn error; a spawn error
      of the background loop ends that loop only (`roselineEnded`), and the
      process goes on. `StartSpec` says whether the loops start at all. */
  method Launch(host: Host, roselineRuns: seq<RunOutcome>, webRuns: seq<RunOutcome>)
    returns (outcome: StartOutcome, startup: seq<Event>, files: FileTable,
             roselineTrace: seq<Event>, roselineEnded: bool, webTrace: seq<Event>, status: Status)
    ensures StartSpec(host, outcome, startup, files)
    ensures !outcome.Supervising? ==>
      roselineTrace == [] && webTrace == [] && status == Exited(StartupExitCode(outcome))
    ensures roselineEnded <==> outcome.Supervising? && SpawnError in roselineRuns
    ensures outcome.Supervising? ==>
      && roselineTrace == SupervisionTrace(Roseline, outcome.roseline.exe, outcome.roseline.log, roselineRuns)
      && webTrace == SupervisionTrace(RoselineWeb, outcome.web.exe, outcome.web.log, webRuns)
      && (status == Exited(0) <==> SpawnError in webRuns)
      && (status == Running <==> SpawnError !in webRuns)
  {
    outcome, startup, files := Start(host);
    roselineTrace, roselineEnded, webTrace := [], false, [];
    if !outcome.Supervising? {
      return outcome, startup, files, roselineTrace, roselineEnded, webTrace, Exited(StartupExitCode(outcome));
    }
    var webStopped;
    roselineTrace, roselineEnded := WorkerSupervisor.Supervise(Roseline, outcome.roseline.exe, outcome.roseline.log, roselineRuns);
    webTrace, webStopped := WorkerSupervisor.Supervise(RoselineWeb, outcome.web.exe, outcome.web.log, webRuns);
    status := if webStopped then Exited(0) else Running;
  }

  /** Start-up is deterministic: the host's answers fix the outcome, the
      events and the file table. */
  lemma StartSpecUnique(host: Host, o1: StartOutcome, t1: seq<Event>, f1: FileTable,
                        o2: StartOutcome, t2: seq<Event>, f2: FileTable)
    requires StartSpec(host, o1, t1, f1) && StartSpec(host, o2, t2, f2)
    ensures o1 == o2 && t1 == t2 && f1 == f2
  {
  }

  /** The exit status of a launch that never reaches the loops, by cause:
      0 for a duplicate or a missing executable, 101 when the executable's
      own path is unavailable, 1 when a log cannot be opened. When the loops
      start, they run the executables and logs beside the launcher. */
  lemma ExitStatusByCause(host: Host, outcome: StartOutcome, trace: seq<Event>, files: FileTable)
    requires StartSpec(host, outcome, trace, files)
    ensures HasDuplicate(host.selfPid, host.processes) ==> StartupExitCode(outcome) == 0
    ensures !HasDuplicate(host.selfPid, host.processes) && host.currentExe.None? ==> StartupExitCode(outcome) == 101
    ensures !HasDuplicate(host.selfPid, host.processes) && host.currentExe.Some? ==>
      var d := Expected(host.currentExe.value, host.platform);
      && (d.roselineExe !in host.files || d.webExe !in host.files ==>
            outcome.ExeMissing? && StartupExitCode(outcome) == 0)
      && (d.roselineExe in host.files && d.webExe in host.files &&
          !(host.roselineLogOpens && host.webLogOpens) ==>
            outcome.LogUnopenable? && StartupExitCode(outcome) == 1)
      && (Ready(host) ==>
            outcome.roseline == WorkerSpec(d.roselineExe, d.roselineLog) &&
            outcome.web == WorkerSpec(d.webExe, d.webLog))
  {
  }
}
