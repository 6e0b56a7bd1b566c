/** What the Go and PHP backends share: they hand a command to Bun's shell,
    which throws a `ShellError` when the command exits with a failure, and
    turn that error into one of their own. */
module ShellFront {
  import opened Results
  import opened JsText
  import opened EngineTypes

  /** The text a shell prints when the program it was asked to start does
      not exist. */
  const COMMAND_NOT_FOUND: string := "command not found:"

  /** The message of the error thrown for a failed command: the backend's
      install hint when the program was missing, otherwise the raw stderr. */
  function ShellFailure(stderr: string, installHint: string): string {
    if Contains(stderr, COMMAND_NOT_FOUND) then installHint else stderr
  }

  /** A command run through the shell: its output on success, the backend's
      error message otherwise. */
  function ShellResult(run: Execution, installHint: string, output: string -> string): (r: Result<string, string>)
    ensures r.IsOk() <==> run.Success()
    ensures r.IsOk() ==> r.value == output(run.stdout)
    ensures r.IsErr() && Contains(run.stderr, COMMAND_NOT_FOUND) ==> r.error == installHint
    ensures r.IsErr() && !Contains(run.stderr, COMMAND_NOT_FOUND) ==> r.error == run.stderr
  {
    if run.Success() then Ok(output(run.stdout)) else Err(ShellFailure(run.stderr, installHint))
  }
}
