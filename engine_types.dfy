/** What the snippet engines exchange with the outside world and hand back to
    their callers: captured process runs, decoded JSON values, the staged error
    record and the `unwrap` behaviour of a result. */
module EngineTypes {
  import opened Results

  /** What one `Bun.spawnSync` (or shell) run reports: its exit status and its
      two output streams, already decoded to text. `success` is exit status 0. */
  datatype Execution = Execution(exitCode: int, stdout: string, stderr: string) {
    predicate Success() { exitCode == 0 }
  }

  /** A value `JSON.parse` can produce: a JavaScript string, or any other JSON
      value, which the engines never look into and which is identified here by
      its canonical text. Raw, unparsed output is also a JavaScript string. */
  datatype Json = JString(s: string) | JValue(text: string)

  /** The tools looked up on `PATH` before anything is built. */
  datatype Tool = Rustc | Cargo | CppCompiler

  datatype Stage = Check | Compile | Run

  /** The error object of a failed result, one variant per stage. */
  datatype EngineError =
    | ToolMissing(tool: Tool)
    | CompileFailed(code: int, stderr: string)
    | RunFailed(code: int, stdout: string, stderr: string, payload: Option<Json>)
  {
    function Stage(): Stage {
      match this
      case ToolMissing(_) => Check
      case CompileFailed(_, _) => Compile
      case RunFailed(_, _, _, _) => Run
    }
  }

  /** The `message` of a check-stage error, naming the missing tool. */
  function MissingToolMessage(tool: Tool): string {
    match tool
    case Rustc => "rustc not found in PATH. Please install Rust (rustup)"
    case Cargo => "cargo not found in PATH"
    case CppCompiler => "C++ compiler (g++/clang++) not found"
  }

  /** The message `unwrap()` raises for a missing tool. */
  function MissingToolRaised(tool: Tool): string {
    match tool
    case Rustc => "rustc not found in PATH."
    case Cargo => "cargo not found in PATH"
    case CppCompiler => "C++ compiler not found"
  }

  type Outcome = Result<Json, EngineError>

  /** What `unwrap()` throws: an error object with a message, or the decoded
      error value itself. */
  datatype Raised = ErrorWithMessage(message: string) | RawValue(value: Json)

  /** How a call to `unwrap()` ends. */
  datatype Completion = Returned(value: Json) | Threw(raised: Raised)

  /** The thrown payload of a failed result: the decoded error value when the
      run produced one, otherwise raw stderr, and raw stdout only when stderr
      is empty. */
  function Thrown(e: EngineError): (x: Raised)
    ensures e.RunFailed? && e.payload.Some? ==> x == RawValue(e.payload.value)
    ensures e.RunFailed? && e.payload.None? && e.stderr != [] ==> x == ErrorWithMessage(e.stderr)
    ensures e.RunFailed? && e.payload.None? && e.stderr == [] ==> x == ErrorWithMessage(e.stdout)
    ensures e.CompileFailed? ==> x == ErrorWithMessage(e.stderr)
    ensures e.ToolMissing? ==> x == ErrorWithMessage(MissingToolRaised(e.tool))
  {
    match e
    case ToolMissing(tool) => ErrorWithMessage(MissingToolRaised(tool))
    case CompileFailed(_, stderr) => ErrorWithMessage(stderr)
    case RunFailed(_, stdout, stderr, payload) =>
      if payload.Some? then RawValue(payload.value)
      else ErrorWithMessage(if stderr != [] then stderr else stdout)
  }

  /** `unwrap()`: returns the value of a success and throws on every failure. */
  function Unwrap(r: Outcome): (c: Completion)
    ensures c.Returned? <==> r.IsOk()
    ensures r.IsOk() ==> c.value == r.value
    ensures r.IsErr() ==> c == Threw(Thrown(r.error))
  {
    match r
    case Ok(v) => Returned(v)
    case Err(e) => Threw(Thrown(e))
  }
}
