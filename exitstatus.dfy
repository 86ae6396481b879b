/** Classification of the outcome of waiting for the child process (`Command.wait` and
    `Command.WaitForExitCode` in main.go). */
module ExitStatus {

  datatype Option<+T> = None | Some(value: T)

  /** The error `Cmd.Wait` gave back: nil; an `*exec.ExitError`, whose system-specific
      state either is a `syscall.WaitStatus` (carrying its exit status) or is not; or any
      other error. */
  datatype WaitError = NoError | ExitErr(status: Option<int>) | OtherErr

  /** What `wait` returns: a process that ran and exited with a non-zero status is not an
      error for the watcher; every other error is passed on unchanged. */
  function WaitReturn(e: WaitError): (r: WaitError)
    ensures r == NoError <==> !e.OtherErr?
    ensures r != NoError ==> r == e
  {
    if e.ExitErr? then NoError else e
  }

  /** The exit code reported for a stored wait error: the exit status when there is one to
      extract, and 0 in every other case (no error, no wait status, a failed wait). */
  function ExitCode(e: WaitError): (code: int)
    ensures e.ExitErr? && e.status.Some? ==> code == e.status.value
    ensures code != 0 ==> e == ExitErr(Some(code))
  {
    match e
    case ExitErr(Some(s)) => s
    case _ => 0
  }
}
