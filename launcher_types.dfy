/** Values shared by every part of the launcher model: process-table
    entries, paths, the host's platform, the two workers, the outcome of one
    spawn attempt and the observable events (console lines, file-system
    calls, spawns and sleeps) that the launcher produces. */
module LauncherTypes {

  datatype Option<T> = None | Some(value: T)

  /** A process id as reported by the process table. */
  type Pid = nat

  /** One entry of a process-table snapshot: its id and its reported name. */
  datatype ProcessEntry = ProcessEntry(pid: Pid, name: string)

  /** An absolute path, as its components below the file-system root;
      `[]` is the root itself. */
  type Path = seq<string>

  /** The contents of the files that exist on the host, by path. */
  type FileTable = map<Path, seq<bv8>>

  /** The platform the launcher was built for (`cfg!(windows)`). */
  datatype Platform = Windows | Posix

  /** The two supervised executables. */
  datatype Worker = Roseline | RoselineWeb

  /** What one iteration of a supervision loop observes: the child ran and
      exited with a success status, it ran and exited with a failure status,
      or the operating system refused to start it. */
  datatype RunOutcome = Success | Failure | SpawnError

  /** Cooldown after a failed run, in milliseconds (`TIMEOUT_MS`). */
  const TIMEOUT_MS: nat := 10000

  /** What the launcher does that can be observed from outside. */
  datatype Event =
    | NoticeDuplicate(name: string, pid: Pid)   // "Found Roseline's process ..."
    | ShowPaths(exe: Path, log: Path)           // the two start-up banner lines
    | ProbeExe(path: Path)                      // `exists()` on an executable
    | ReportMissingExe(worker: Worker, shown: Path)
    | OpenLog(path: Path)                       // open with create + write + truncate
    | ReportLogError(path: Path)
    | Exit(code: int)                           // `exit(code)`
    | Panicked                                  // the runtime's panic message on stderr
    | Spawn(worker: Worker, exe: Path, stdout: Path, stderr: Path)
    | Finished(worker: Worker, success: bool)   // "... successfully finished" / "... finished with errors"
    | Sleep(ms: nat)
    | ReportSpawnError(worker: Worker)          // "Couldn't run ..."
}
