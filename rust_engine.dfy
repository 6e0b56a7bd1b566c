/** The `rust` tagged template: tool checks, the choice between a plain
    `rustc` build and a Cargo project, the build cache, one run of the
    binary and the resolution of its output. */
module RustEngine {
  import opened Results
  import opened EngineTypes
  import opened Templates
  import opened EntryPoint
  import opened WireProtocol
  import opened RustSnippet
  import opened CargoManifest
  import opened BuildCache

  /** Which of the two tools `Bun.which` finds on `PATH`. */
  datatype Toolchain = Toolchain(rustc: bool, cargo: bool)

  /** What a build is given: the source for `rustc`, or the manifest and
      `src/main.rs` of a Cargo project. */
  datatype BuildInput = RustcBuild(source: string) | CargoBuild(manifest: string, source: string)

  /** A build: the cache key it is stored under and what it compiles. */
  datatype Plan = Plan(key: CacheKey, input: BuildInput)

  /** The file a Cargo build compiles: the user's code as it is when it
      declares `fn main(`, otherwise wrapped, with `serde_json` in scope. */
  function CargoSource(userCode: string): (source: string)
    ensures HasSignature(userCode, "fn") ==> source == userCode
    ensures !HasSignature(userCode, "fn") ==> source == Scaffold(userCode, true)
    ensures HasSignature(source, "fn")
  {
    if HasSignature(userCode, "fn") then userCode
    else ScaffoldHasMain(userCode, true); PrepareRustSource(userCode, true)
  }

  /** The Cargo build of a snippet whose directive lists `depsStr`. */
  function CargoPlan(userCode: string, depsStr: string): Plan {
    var source := CargoSource(userCode);
    Plan(CacheKey(CargoMode, Some(depsStr), source),
         CargoBuild(Manifest(WithSerde(SplitTopLevel(depsStr))), source))
  }

  /** The `rustc` build of a snippet without a directive. */
  function RustcPlan(userCode: string): Plan {
    var source := PrepareRustSource(userCode, false);
    Plan(CacheKey(RustcMode, None, source), RustcBuild(source))
  }

  /** The build of a snippet: the key names exactly the source that is
      compiled, and its mode says which tool compiles it. */
  function PlanFor(userCode: string): (plan: Plan)
    ensures plan.key.source == plan.input.source
    ensures plan.key.mode == CargoMode <==> plan.input.CargoBuild?
    ensures plan.key.mode != CppMode
  {
    match CargoDeps(userCode)
    case Some(depsStr) => CargoPlan(userCode, depsStr)
    case None => RustcPlan(userCode)
  }

  /** The key names the build: two snippets whose keys agree compile the
      same input, which is what makes reusing a cached binary sound. */
  lemma KeyDeterminesBuild(code1: string, code2: string)
    requires PlanFor(code1).key == PlanFor(code2).key
    ensures PlanFor(code1).input == PlanFor(code2).input
  {
  }

  /** A directive selects Cargo, its absence `rustc`; a Cargo build's
      manifest always declares `serde` and `serde_json`. */
  lemma PlanMode(userCode: string)
    ensures PlanFor(userCode).key.mode == CargoMode <==> CargoDeps(userCode).Some?
    ensures PlanFor(userCode).input.CargoBuild? <==> CargoDeps(userCode).Some?
    ensures PlanFor(userCode).key.deps == CargoDeps(userCode)
    ensures CargoDeps(userCode).Some? ==>
              DeclaresCrate(WithSerde(SplitTopLevel(CargoDeps(userCode).value)), "serde")
              && DeclaresCrate(WithSerde(SplitTopLevel(CargoDeps(userCode).value)), "serde_json")
  {
    if CargoDeps(userCode).Some? {
      ManifestDeclaresSerde(CargoDeps(userCode).value);
    }
  }

  /** The result of a call, with the cache as it is afterwards. */
  datatype CallResult = CallResult(outcome: Outcome, built: set<CacheKey>)

  /** One call of `rust` on the code `userCode`, given the tools found, the
      binaries already built, what a build reports, what running the binary
      of a key prints and `JSON.parse`. */
  function RustCall(userCode: string, tools: Toolchain, built: set<CacheKey>,
                    build: BuildInput -> Execution, runner: CacheKey -> Execution,
                    parse: Parser): (r: CallResult)
    ensures !tools.rustc ==> r == CallResult(Err(ToolMissing(Rustc)), built)
    ensures r.built == built || r.built == built + {PlanFor(userCode).key}
    ensures r.outcome.IsErr() && !r.outcome.error.RunFailed? ==> r.built == built
  {
    if !tools.rustc then CallResult(Err(ToolMissing(Rustc)), built)
    else if CargoDeps(userCode).Some? && !tools.cargo then CallResult(Err(ToolMissing(Cargo)), built)
    else
      var plan := PlanFor(userCode);
      if plan.key in built then CallResult(ResolveRun(runner(plan.key), parse), built)
      else
        var compile := build(plan.input);
        if !compile.Success() then CallResult(Err(CompileFailed(compile.exitCode, compile.stderr)), built)
        else CallResult(ResolveRun(runner(plan.key), parse), built + {plan.key})
  }

  /** `rust`, step by step as the source runs it. */
  method Rust(fragments: seq<string>, exprs: seq<string>, tools: Toolchain, cache: ArtifactCache,
              build: BuildInput -> Execution, runner: CacheKey -> Execution, parse: Parser)
    returns (r: Outcome)
    modifies cache
    ensures r == RustCall(Interleaved(fragments, exprs), tools, old(cache.built), build, runner, parse).outcome
    ensures cache.built == RustCall(Interleaved(fragments, exprs), tools, old(cache.built), build, runner, parse).built
  {
    if !tools.rustc {
      return Err(ToolMissing(Rustc));
    }
    var userCode := InterleaveTemplate(fragments, exprs);
    var cargoDepsLine := CargoDeps(userCode);
    var key: CacheKey;
    if cargoDepsLine.Some? {
      if !tools.cargo {
        return Err(ToolMissing(Cargo));
      }
      var depsStr := cargoDepsLine.value;
      var hasMain := HasSignature(userCode, "fn");
      var sourceCode := if hasMain then userCode else PrepareRustSource(userCode, true);
      key := CacheKey(CargoMode, Some(depsStr), sourceCode);
      if key !in cache.built {
        var deps := SplitTopLevelCommaSeparated(depsStr);
        deps := InjectSerde(deps);
        var toml := Manifest(deps);
        var compile := build(CargoBuild(toml, sourceCode));
        if !compile.Success() {
          return Err(CompileFailed(compile.exitCode, compile.stderr));
        }
        cache.Record(key);
      }
    } else {
      var sourceCode := PrepareRustSource(userCode, false);
      key := CacheKey(RustcMode, None, sourceCode);
      if key !in cache.built {
        var compile := build(RustcBuild(sourceCode));
        if !compile.Success() {
          return Err(CompileFailed(compile.exitCode, compile.stderr));
        }
        cache.Record(key);
      }
    }
    r := ResolveRun(runner(key), parse);
  }

  /** Without `rustc` nothing else is looked at: the call fails at the check
      stage, even in Cargo mode, and the cache is untouched. */
  lemma RustcCheckedFirst(userCode: string, tools: Toolchain, built: set<CacheKey>,
                          build: BuildInput -> Execution, runner: CacheKey -> Execution, parse: Parser)
    requires !tools.rustc
    ensures RustCall(userCode, tools, built, build, runner, parse) == CallResult(Err(ToolMissing(Rustc)), built)
    ensures Unwrap(RustCall(userCode, tools, built, build, runner, parse).outcome)
            == Threw(ErrorWithMessage("rustc not found in PATH."))
  {
  }

  /** Cargo is required exactly when the code carries a directive. */
  lemma CargoNeededOnlyForDirective(userCode: string, built: set<CacheKey>,
                                    build: BuildInput -> Execution, runner: CacheKey -> Execution, parse: Parser)
    ensures RustCall(userCode, Toolchain(true, false), built, build, runner, parse).outcome == Err(ToolMissing(Cargo))
            <==> CargoDeps(userCode).Some?
  {
    var r := RustCall(userCode, Toolchain(true, false), built, build, runner, parse);
    if CargoDeps(userCode).None? {
      var plan := PlanFor(userCode);
      if plan.key !in built && !build(plan.input).Success() {
        assert r.outcome.error.CompileFailed?;
      } else {
        ResolveNeverMissing(runner(plan.key), parse);
      }
    }
  }

  /** Running a binary never reports a missing tool. */
  lemma ResolveNeverMissing(run: Execution, parse: Parser)
    ensures ResolveRun(run, parse).IsErr() ==> ResolveRun(run, parse).error.RunFailed?
  {
  }

  /** The cache changes only by the key of a build that succeeded; a failed
      build leaves it as it was and reports the compiler's stderr. */
  lemma CacheGrowsOnlyBySuccess(userCode: string, tools: Toolchain, built: set<CacheKey>,
                                build: BuildInput -> Execution, runner: CacheKey -> Execution, parse: Parser)
    ensures var r := RustCall(userCode, tools, built, build, runner, parse);
            r.built == built
            || (r.built == built + {PlanFor(userCode).key} && PlanFor(userCode).key !in built
                && build(PlanFor(userCode).input).Success())
    ensures var r := RustCall(userCode, tools, built, build, runner, parse);
            r.outcome.IsErr() && r.outcome.error.CompileFailed? ==>
              r.built == built && r.outcome.error.stderr == build(PlanFor(userCode).input).stderr
  {
  }

  /** With the tools found and no binary for the key, a failing build is a
      compile-stage error carrying the compiler's exit code and stderr, and
      nothing is cached. */
  lemma RustCompileFails(userCode: string, tools: Toolchain, built: set<CacheKey>,
                         build: BuildInput -> Execution, runner: CacheKey -> Execution, parse: Parser)
    requires tools.rustc && (CargoDeps(userCode).Some? ==> tools.cargo)
    requires PlanFor(userCode).key !in built && !build(PlanFor(userCode).input).Success()
    ensures var c := build(PlanFor(userCode).input);
            RustCall(userCode, tools, built, build, runner, parse) == CallResult(Err(CompileFailed(c.exitCode, c.stderr)), built)
  {
  }

  /** With the tools found and a binary cached or built, the call resolves
      the run of the key's binary, and the key is cached afterwards. */
  lemma RustRuns(userCode: string, tools: Toolchain, built: set<CacheKey>,
                 build: BuildInput -> Execution, runner: CacheKey -> Execution, parse: Parser)
    requires tools.rustc && (CargoDeps(userCode).Some? ==> tools.cargo)
    requires PlanFor(userCode).key in built || build(PlanFor(userCode).input).Success()
    ensures RustCall(userCode, tools, built, build, runner, parse)
            == CallResult(ResolveRun(runner(PlanFor(userCode).key), parse), built + {PlanFor(userCode).key})
  {
  }

  /** On a cache hit the build is never consulted. */
  lemma CacheHitSkipsBuild(userCode: string, tools: Toolchain, built: set<CacheKey>,
                           build1: BuildInput -> Execution, build2: BuildInput -> Execution,
                           runner: CacheKey -> Execution, parse: Parser)
    requires PlanFor(userCode).key in built
    ensures RustCall(userCode, tools, built, build1, runner, parse)
            == RustCall(userCode, tools, built, build2, runner, parse)
  {
  }

  /** Calling again with the same code, after a call that found its tools
      and did not fail to compile, compiles nothing and gives the same
      result, whatever a build would now report. */
  lemma SecondCallReusesBuild(userCode: string, tools: Toolchain, built: set<CacheKey>,
                              build1: BuildInput -> Execution, build2: BuildInput -> Execution,
                              runner: CacheKey -> Execution, parse: Parser)
    requires tools.rustc && (CargoDeps(userCode).Some? ==> tools.cargo)
    requires PlanFor(userCode).key in built || build1(PlanFor(userCode).input).Success()
    ensures var first := RustCall(userCode, tools, built, build1, runner, parse);
            PlanFor(userCode).key in first.built
            && RustCall(userCode, tools, first.built, build2, runner, parse) == first
  {
  }
}
