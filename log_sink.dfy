/** Opening a worker's log (`open_log`): create + write + truncate. Whether
    the operating system grants the open is an input; on a refusal the
    launcher reports the path and exits with status 1. */
module LogSink {
  import opened LauncherTypes

  datatype LogOpen = Opened(files: FileTable) | OpenFailed

  /** The file-system effect of opening `path` for a log: on success the
      file exists afterwards and is empty (created when absent, truncated
      when present) and no other file changes; on failure nothing changes. */
  function OpenLogFile(files: FileTable, path: Path, granted: bool): (r: LogOpen)
    ensures r.Opened? <==> granted
    ensures r.Opened? ==> r.files.Keys == files.Keys + {path} && r.files[path] == []
    ensures r.Opened? ==> forall q :: q in files && q != path ==> r.files[q] == files[q]
  {
    if granted then Opened(files[path := []]) else OpenFailed
  }
}
