/** Path resolution (`get_dirs`): the two log files and the two worker
    executables are expected beside the launcher's own executable. */
module PathResolver {
  import opened LauncherTypes

  const ROSELINE_LOG: string := "roseline.log"
  const ROSELINE_WEB_LOG: string := "roseline-web.log"

  /** `PathBuf::pop`: drop the last component; the root has no parent and is
      left as it is. */
  function Pop(p: Path): Path {
    if |p| == 0 then p else p[..|p| - 1]
  }

  /** `PathBuf::push` of a one-component relative path. */
  function Push(p: Path, component: string): Path {
    p + [component]
  }

  /** The executable file name of a worker: `.exe` is appended on Windows
      only. */
  function ExeFileName(base: string, platform: Platform): string {
    if platform == Windows then base + ".exe" else base
  }

  /** The four paths `get_dirs` returns, in its order. */
  datatype Dirs = Dirs(roselineLog: Path, roselineExe: Path, webLog: Path, webExe: Path)

  /** `p` is the directory `dir` plus exactly one new component, `name`. */
  ghost predicate InDir(p: Path, dir: Path, name: string) {
    |p| == |dir| + 1 && p[..|dir|] == dir && p[|dir|] == name
  }

  /** What `get_dirs` promises: every path is the executable's path with its
      last component removed plus one fixed name; the log names are the
      same on every platform, the executable names carry the platform's
      suffix. */
  ghost predicate Resolved(currentExe: Path, platform: Platform, d: Dirs) {
    var dir := Pop(currentExe);
    && InDir(d.roselineLog, dir, ROSELINE_LOG)
    && InDir(d.webLog, dir, ROSELINE_WEB_LOG)
    && InDir(d.roselineExe, dir, ExeFileName("roseline", platform))
    && InDir(d.webExe, dir, ExeFileName("roseline-web", platform))
  }

  /** `get_dirs`, with `env::current_exe()` given as `currentExe`. Each
      `PathBuf` is owned and cloned by value, so locals stand for them. */
  method GetDirs(currentExe: Path, platform: Platform)
    returns (roselineLog: Path, roselineExe: Path, webLog: Path, webExe: Path)
    ensures Resolved(currentExe, platform, Dirs(roselineLog, roselineExe, webLog, webExe))
  {
    var currentDir := currentExe;
    currentDir := Pop(currentDir);

    roselineLog := currentDir;
    webLog := currentDir;
    roselineLog := Push(roselineLog, "roseline.log");
    webLog := Push(webLog, "roseline-web.log");

    roselineExe := currentDir;
    webExe := roselineExe;
    if platform == Windows {
      roselineExe := Push(roselineExe, "roseline.exe");
      webExe := Push(webExe, "roseline-web.exe");
    } else {
      roselineExe := Push(roselineExe, "roseline");
      webExe := Push(webExe, "roseline-web");
    }
  }

  /** The paths `get_dirs` returns, as a value. */
  function Expected(currentExe: Path, platform: Platform): (d: Dirs)
    ensures Resolved(currentExe, platform, d)
  {
    var dir := Pop(currentExe);
    Dirs(dir + [ROSELINE_LOG], dir + [ExeFileName("roseline", platform)],
         dir + [ROSELINE_WEB_LOG], dir + [ExeFileName("roseline-web", platform)])
  }

  lemma InDirUnique(p: Path, q: Path, dir: Path, name: string)
    requires InDir(p, dir, name) && InDir(q, dir, name)
    ensures p == q
  {
  }

  /** `get_dirs` is deterministic: the executable's path and the platform
      fix all four paths. */
  lemma ResolvedUnique(currentExe: Path, platform: Platform, d1: Dirs, d2: Dirs)
    requires Resolved(currentExe, platform, d1) && Resolved(currentExe, platform, d2)
    ensures d1 == d2
  {
    var dir := Pop(currentExe);
    InDirUnique(d1.roselineLog, d2.roselineLog, dir, ROSELINE_LOG);
    InDirUnique(d1.webLog, d2.webLog, dir, ROSELINE_WEB_LOG);
    InDirUnique(d1.roselineExe, d2.roselineExe, dir, ExeFileName("roseline", platform));
    InDirUnique(d1.webExe, d2.webExe, dir, ExeFileName("roseline-web", platform));
  }

  lemma InDirParent(p: Path, dir: Path, name: string)
    requires InDir(p, dir, name)
    ensures Pop(p) == dir
  {
  }

  /** All four paths lie in one directory: the executable's own, or the root
      when the executable's path has no parent. */
  lemma SameDirectory(currentExe: Path, platform: Platform, d: Dirs)
    requires Resolved(currentExe, platform, d)
    ensures Pop(d.roselineLog) == Pop(d.roselineExe) == Pop(d.webLog) == Pop(d.webExe)
    ensures |currentExe| > 0 ==> Pop(d.roselineLog) + [currentExe[|currentExe| - 1]] == currentExe
  {
    var dir := Pop(currentExe);
    InDirParent(d.roselineLog, dir, ROSELINE_LOG);
    InDirParent(d.roselineExe, dir, ExeFileName("roseline", platform));
    InDirParent(d.webLog, dir, ROSELINE_WEB_LOG);
    InDirParent(d.webExe, dir, ExeFileName("roseline-web", platform));
    if |currentExe| > 0 {
      assert currentExe == currentExe[..|currentExe| - 1] + [currentExe[|currentExe| - 1]];
    }
  }

  /** The log paths do not depend on the platform; on Windows each
      executable's name is its POSIX name followed by ".exe". */
  lemma PlatformOnlyChangesExecutables(currentExe: Path, win: Dirs, posix: Dirs)
    requires Resolved(currentExe, Windows, win) && Resolved(currentExe, Posix, posix)
    ensures win.roselineLog == posix.roselineLog && win.webLog == posix.webLog
    ensures Pop(win.roselineExe) == Pop(posix.roselineExe) && Pop(win.webExe) == Pop(posix.webExe)
    ensures win.roselineExe[|win.roselineExe| - 1] == posix.roselineExe[|posix.roselineExe| - 1] + ".exe"
    ensures win.webExe[|win.webExe| - 1] == posix.webExe[|posix.webExe| - 1] + ".exe"
    ensures posix.roselineExe[|posix.roselineExe| - 1] == "roseline"
    ensures posix.webExe[|posix.webExe| - 1] == "roseline-web"
  {
  }

  /** The four paths are pairwise distinct, on every platform: no log file
      is an executable and the two workers never share a file. */
  lemma PathsDistinct(currentExe: Path, platform: Platform, d: Dirs)
    requires Resolved(currentExe, platform, d)
    ensures d.roselineLog != d.webLog && d.roselineLog != d.roselineExe && d.roselineLog != d.webExe
    ensures d.webLog != d.roselineExe && d.webLog != d.webExe && d.roselineExe != d.webExe
  {
    var n := |Pop(currentExe)|;
    assert d.roselineLog[n] == ROSELINE_LOG && d.webLog[n] == ROSELINE_WEB_LOG;
    assert d.roselineExe[n] == ExeFileName("roseline", platform);
    assert d.webExe[n] == ExeFileName("roseline-web", platform);
    assert ROSELINE_LOG[8] == '.' && ROSELINE_WEB_LOG[8] == '-';
    assert |ROSELINE_LOG| == 12 && |ROSELINE_WEB_LOG| == 16;
    assert |ExeFileName("roseline", platform)| in {8, 12};
    assert |ExeFileName("roseline-web", platform)| in {12, 16};
    assert ExeFileName("roseline", platform)[..8] == "roseline";
    assert ExeFileName("roseline-web", platform)[8] == '-';
    if platform == Windows {
      assert ExeFileName("roseline", platform)[9] == 'e';
      assert ROSELINE_LOG[9] == 'l';
      assert ExeFileName("roseline-web", platform)[12] == '.';
      assert ROSELINE_WEB_LOG[13] == 'l';
    }
  }
}
