/** The `runCpp` tagged template: array values rendered as brace lists,
    the entry-point wrapper, compiler discovery, the build cache and the
    plain-text result of one run. */
module CppEngine {
  import opened Results
  import opened JsText
  import opened EngineTypes
  import opened Templates
  import opened EntryPoint
  import opened BuildCache

  // ---------------------------------------------------------------------
  // Interpolated values

  /** A value interpolated into a C++ snippet: a scalar, already rendered by
      `String(v)`, or an array of such renderings. */
  datatype CppArg = Scalar(text: string) | Array(items: seq<string>)

  /** An array becomes a brace-enclosed initializer list. */
  function Render(a: CppArg): (r: string)
    ensures a.Scalar? ==> r == a.text
    ensures a.Array? ==> StartsWith(r, "{ ") && EndsWith(r, " }")
    ensures a.Array? ==> r == "{ " + Join(a.items, ", ") + " }"
  {
    match a
    case Scalar(text) => text
    case Array(items) => "{ " + Join(items, ", ") + " }"
  }

  function Rendered(args: seq<CppArg>): (r: seq<string>)
    ensures |r| == |args|
    ensures forall i :: 0 <= i < |args| ==> r[i] == Render(args[i])
  {
    seq(|args|, i requires 0 <= i < |args| => Render(args[i]))
  }

  /** The C++ `interleaveTemplate`. */
  method InterleaveCpp(fragments: seq<string>, args: seq<CppArg>) returns (out: string)
    ensures out == Interleaved(fragments, Rendered(args))
  {
    out := [];
    for i := 0 to |fragments|
      invariant out == InterleavedPrefix(fragments, Rendered(args), i)
    {
      out := out + fragments[i];
      if i < |args| {
        out := out + (if args[i].Array? then "{ " + Join(args[i].items, ", ") + " }" else args[i].text);
      }
    }
  }

  /** A rendered array is one initializer list holding every element, in
      braces. */
  lemma ArrayRendersAsList(items: seq<string>, i: nat)
    requires i < |items|
    ensures StartsWith(Render(Array(items)), "{ ") && EndsWith(Render(Array(items)), " }")
    ensures Contains(Render(Array(items)), items[i])
  {
    JoinHoldsPart(items, i, ", ");
    ContainsInside("{ ", Join(items, ", "), " }", items[i]);
  }

  /** The list grows element by element: no elements give `{  }`, one
      element `{ x }`, and each further element comes last, after `, `. */
  lemma ArrayListInOrder(items: seq<string>, x: string)
    ensures Render(Array([])) == "{  }"
    ensures Render(Array([x])) == "{ " + x + " }"
    ensures items != [] ==>
              Render(Array(items + [x])) == Render(Array(items))[..|Render(Array(items))| - 2] + ", " + x + " }"
  {
    if items != [] {
      JoinSnoc(items, x, ", ");
      var r := Render(Array(items));
      assert r[..|r| - 2] == "{ " + Join(items, ", ");
    }
  }

  /** With scalar values only, C++ and Rust build the same code. */
  lemma ScalarsAsInRust(fragments: seq<string>, texts: seq<string>)
    ensures Interleaved(fragments, Rendered(seq(|texts|, i requires 0 <= i < |texts| => Scalar(texts[i]))))
            == Interleaved(fragments, texts)
  {
    assert Rendered(seq(|texts|, i requires 0 <= i < |texts| => Scalar(texts[i]))) == texts;
  }

  // ---------------------------------------------------------------------
  // `prepareCppSource`

  const CPP_MAIN_LINE: string := "int main() {"

  const CPP_HEAD: seq<string> :=
    ["#include <iostream>", "using namespace std;", CPP_MAIN_LINE, "  try {", "    auto __res = [&]() {"]

  const CPP_TAIL: seq<string> :=
    ["    }();", "    return 0;", "  } catch (const exception& e) {", CPP_REPORT_LINE,
     "    return 1;", "  }", "}\n"]

  /** The handler writes the exception's message to stderr. */
  const CPP_REPORT_LINE: string := "    cerr << e.what() << \"\\n\";"

  /** The program built around code that has no `int main(`. */
  function CppScaffold(userCode: string): string {
    Join(CPP_HEAD + [userCode] + CPP_TAIL, "\n")
  }

  /** `prepareCppSource`. */
  function PrepareCppSource(userCode: string): (r: string)
    ensures HasSignature(userCode, "int") ==> r == userCode
    ensures !HasSignature(userCode, "int") ==> r == CppScaffold(userCode)
  {
    if HasSignature(userCode, "int") then userCode else CppScaffold(userCode)
  }

  /** The user's code sits verbatim, on lines of its own, inside a lambda
      that the `try` block calls. */
  lemma CppScaffoldWrapsCode(userCode: string)
    ensures CppScaffold(userCode) == Join(CPP_HEAD, "\n") + "\n" + userCode + "\n" + Join(CPP_TAIL, "\n")
  {
    JoinThree(CPP_HEAD, [userCode], CPP_TAIL, "\n");
  }

  /** The scaffold reports an escaping exception on stderr (and then returns
      1 instead of 0). */
  lemma CppScaffoldReports(userCode: string)
    ensures Contains(CppScaffold(userCode), CPP_REPORT_LINE)
  {
    CppScaffoldWrapsCode(userCode);
    assert CPP_TAIL[3] == CPP_REPORT_LINE;
    JoinHoldsPart(CPP_TAIL, 3, "\n");
    ContainsInside(Join(CPP_HEAD, "\n") + "\n" + userCode + "\n", Join(CPP_TAIL, "\n"), [], CPP_REPORT_LINE);
    assert Join(CPP_HEAD, "\n") + "\n" + userCode + "\n" + Join(CPP_TAIL, "\n") + [] == CppScaffold(userCode);
  }

  /** Whatever the user wrote, the prepared source has an entry point. */
  lemma PreparedHasMain(userCode: string)
    ensures HasSignature(PrepareCppSource(userCode), "int")
  {
    if !HasSignature(userCode, "int") {
      var rest := CPP_HEAD[3..] + [userCode] + CPP_TAIL;
      assert CPP_HEAD + [userCode] + CPP_TAIL == CPP_HEAD[..2] + [CPP_MAIN_LINE] + rest;
      JoinThree(CPP_HEAD[..2], [CPP_MAIN_LINE], rest, "\n");
      CppMainLineSignature(CppScaffold(userCode), Join(CPP_HEAD[..2], "\n") + "\n", "\n" + Join(rest, "\n"));
    }
  }

  lemma CppMainLineSignature(r: string, pre: string, post: string)
    requires |pre| > 0 && pre[|pre| - 1] == '\n'
    requires r == pre + Join([CPP_MAIN_LINE], "\n") + post
    ensures HasSignature(r, "int")
  {
    assert CPP_MAIN_LINE == "int" + " main(" + ") {";
    assert r == pre + "int" + " main(" + (") {" + post);
    SignatureInText(pre, "int", ") {" + post);
  }

  // ---------------------------------------------------------------------
  // `runCpp`

  /** Which compilers `Bun.which` finds. */
  datatype Compilers = Compilers(gxx: bool, clangxx: bool)

  /** `Bun.which('g++') || Bun.which('clang++')`. */
  function SelectCompiler(found: Compilers): (r: Option<string>)
    ensures r.None? <==> !found.gxx && !found.clangxx
    ensures found.gxx ==> r == Some("g++")
    ensures !found.gxx && found.clangxx ==> r == Some("clang++")
  {
    if found.gxx then Some("g++") else if found.clangxx then Some("clang++") else None
  }

  function CppKey(userCode: string): (key: CacheKey)
    ensures key.mode == CppMode && key.deps.None?
    ensures HasSignature(key.source, "int")
  {
    PreparedHasMain(userCode);
    CacheKey(CppMode, None, PrepareCppSource(userCode))
  }

  /** One run of a built binary, both streams trimmed: a failing exit is a
      run-stage error, anything else is stdout as a string. */
  function CppRunOutcome(run: Execution): (r: Outcome)
    ensures r.IsOk() <==> run.Success()
    ensures run.Success() ==> r.value == JString(Trim(run.stdout))
    ensures !run.Success() ==> r.error == RunFailed(run.exitCode, Trim(run.stdout), Trim(run.stderr), None)
  {
    if !run.Success() then Err(RunFailed(run.exitCode, Trim(run.stdout), Trim(run.stderr), None))
    else Ok(JString(Trim(run.stdout)))
  }

  /** A build is told the compiler and the source; a run is told the key
      of the binary. */
  datatype CppResult = CppResult(outcome: Outcome, built: set<CacheKey>)

  function CppCall(userCode: string, found: Compilers, built: set<CacheKey>,
                   build: (string, string) -> Execution, runner: CacheKey -> Execution): (r: CppResult)
    ensures SelectCompiler(found).None? ==> r == CppResult(Err(ToolMissing(CppCompiler)), built)
    ensures r.built == built || r.built == built + {CppKey(userCode)}
    ensures r.outcome.IsErr() && !r.outcome.error.RunFailed? ==> r.built == built
  {
    var compiler := SelectCompiler(found);
    if compiler.None? then CppResult(Err(ToolMissing(CppCompiler)), built)
    else
      var key := CppKey(userCode);
      if key in built then CppResult(CppRunOutcome(runner(key)), built)
      else
        var compile := build(compiler.value, key.source);
        if !compile.Success() then CppResult(Err(CompileFailed(compile.exitCode, compile.stderr)), built)
        else CppResult(CppRunOutcome(runner(key)), built + {key})
  }

  /** `runCpp`, step by step. */
  method RunCpp(fragments: seq<string>, args: seq<CppArg>, found: Compilers, cache: ArtifactCache,
                build: (string, string) -> Execution, runner: CacheKey -> Execution)
    returns (r: Outcome)
    modifies cache
    ensures r == CppCall(Interleaved(fragments, Rendered(args)), found, old(cache.built), build, runner).outcome
    ensures cache.built == CppCall(Interleaved(fragments, Rendered(args)), found, old(cache.built), build, runner).built
  {
    var gxxPath := SelectCompiler(found);
    if gxxPath.None? {
      return Err(ToolMissing(CppCompiler));
    }
    var userCode := InterleaveCpp(fragments, args);
    var sourceCode := PrepareCppSource(userCode);
    var key := CacheKey(CppMode, None, sourceCode);
    if key !in cache.built {
      var compile := build(gxxPath.value, sourceCode);
      if !compile.Success() {
        return Err(CompileFailed(compile.exitCode, compile.stderr));
      }
      cache.Record(key);
    }
    var run := runner(key);
    var stdout := Trim(run.stdout);
    var stderr := Trim(run.stderr);
    if !run.Success() {
      return Err(RunFailed(run.exitCode, stdout, stderr, None));
    }
    r := Ok(JString(stdout));
  }

  /** The compiler is not part of the key: a binary built by one compiler
      is reused when only the other is found, and the call then gives the
      same result. */
  lemma CompilerNotInKey(userCode: string, found1: Compilers, found2: Compilers, built: set<CacheKey>,
                         build: (string, string) -> Execution, runner: CacheKey -> Execution)
    requires SelectCompiler(found1).Some? && SelectCompiler(found2).Some?
    requires CppKey(userCode) in built
    ensures CppCall(userCode, found1, built, build, runner) == CppCall(userCode, found2, built, build, runner)
  {
  }

  /** With a compiler found and no binary for the key, a failing build is a
      compile-stage error carrying the compiler's exit code and stderr, and
      nothing is cached. */
  lemma CppCompileFails(userCode: string, found: Compilers, built: set<CacheKey>,
                        build: (string, string) -> Execution, runner: CacheKey -> Execution)
    requires SelectCompiler(found).Some? && CppKey(userCode) !in built
    requires !build(SelectCompiler(found).value, CppKey(userCode).source).Success()
    ensures var c := build(SelectCompiler(found).value, CppKey(userCode).source);
            CppCall(userCode, found, built, build, runner) == CppResult(Err(CompileFailed(c.exitCode, c.stderr)), built)
  {
  }

  /** With a compiler found and a binary cached or built, the call runs the
      binary of the key, and the key is cached afterwards. */
  lemma CppRuns(userCode: string, found: Compilers, built: set<CacheKey>,
                build: (string, string) -> Execution, runner: CacheKey -> Execution)
    requires SelectCompiler(found).Some?
    requires CppKey(userCode) in built || build(SelectCompiler(found).value, CppKey(userCode).source).Success()
    ensures CppCall(userCode, found, built, build, runner)
            == CppResult(CppRunOutcome(runner(CppKey(userCode))), built + {CppKey(userCode)})
  {
  }

  /** When `main_bin` exists the compiler is never invoked: the call does
      not depend on what a build would report, and the cache is unchanged. */
  lemma CppHitSkipsBuild(userCode: string, found: Compilers, built: set<CacheKey>,
                         build1: (string, string) -> Execution, build2: (string, string) -> Execution,
                         runner: CacheKey -> Execution)
    requires CppKey(userCode) in built
    ensures CppCall(userCode, found, built, build1, runner) == CppCall(userCode, found, built, build2, runner)
    ensures CppCall(userCode, found, built, build1, runner).built == built
  {
  }

  /** A successful call hands back trimmed stdout as text, never reparsed:
      `unwrap` and `unwrapOr` both return it. */
  lemma CppSuccessIsText(userCode: string, found: Compilers, built: set<CacheKey>,
                         build: (string, string) -> Execution, runner: CacheKey -> Execution, d: Json)
    requires CppCall(userCode, found, built, build, runner).outcome.IsOk()
    ensures CppKey(userCode) in CppCall(userCode, found, built, build, runner).built
    ensures CppCall(userCode, found, built, build, runner).outcome.value == JString(Trim(runner(CppKey(userCode)).stdout))
    ensures Unwrap(CppCall(userCode, found, built, build, runner).outcome)
            == Returned(JString(Trim(runner(CppKey(userCode)).stdout)))
    ensures CppCall(userCode, found, built, build, runner).outcome.UnwrapOr(d)
            == JString(Trim(runner(CppKey(userCode)).stdout))
  {
  }

  /** A failing run throws its trimmed stderr, or its stdout when stderr is
      blank; `unwrapOr` gives the default. */
  lemma CppRunFailureRaises(run: Execution, d: Json)
    requires !run.Success()
    ensures Unwrap(CppRunOutcome(run))
            == Threw(ErrorWithMessage(if Trim(run.stderr) != [] then Trim(run.stderr) else Trim(run.stdout)))
    ensures CppRunOutcome(run).UnwrapOr(d) == d
  {
  }

  /** Without any compiler the call fails at the check stage and the cache
      is untouched. */
  lemma CppNeedsCompiler(userCode: string, built: set<CacheKey>,
                         build: (string, string) -> Execution, runner: CacheKey -> Execution)
    ensures CppCall(userCode, Compilers(false, false), built, build, runner)
            == CppResult(Err(ToolMissing(CppCompiler)), built)
    ensures Unwrap(CppCall(userCode, Compilers(false, false), built, build, runner).outcome)
            == Threw(ErrorWithMessage("C++ compiler not found"))
  {
  }
}
