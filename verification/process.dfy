/**
 * What a child process run can come back with. Spawning the process, the
 * clock behind a timeout and the operating system's errors are outside the
 * model; an operation that runs a process receives its outcome as a value.
 */
module Process {

  /** A run that finished: its exit code and its captured standard output (as text). */
  datatype ProcessResult = ProcessResult(returncode: int, stdout: string)

  /** A run with a timeout, inside a handler for every exception. */
  datatype RunOutcome =
    | Finished(result: ProcessResult)
    | TimedOut
    | Raised(message: string)
}
