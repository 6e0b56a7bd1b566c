/** `runYaegi`: a Go snippet wrapped in `main` when it has none, run by the
    yaegi interpreter, and its output cleaned of the pointer values yaegi
    echoes. */
module GoRunner {
  import opened Results
  import opened JsText
  import opened EngineTypes
  import opened Templates
  import opened ShellFront

  const GO_MAIN: string := "func main()"
  const GO_PRELUDE: string := "package main\nimport \"time\"\n" + GO_MAIN + " {\n"
  const GO_EPILOGUE: string := "\n}\n"

  /** The program handed to yaegi. */
  function WrapGo(code: string): (wrapped: string)
    ensures Contains(code, GO_MAIN) ==> wrapped == code
    ensures !Contains(code, GO_MAIN) ==> wrapped == GO_PRELUDE + code + GO_EPILOGUE
  {
    if Contains(code, GO_MAIN) then code else GO_PRELUDE + code + GO_EPILOGUE
  }

  /** The prelude declares `func main()` itself. */
  lemma PreludeHasMain()
    ensures Contains(GO_PRELUDE, GO_MAIN)
  {
    var k := |"package main\nimport \"time\"\n"|;
    assert GO_PRELUDE[k..k + |GO_MAIN|] == GO_MAIN;
    ContainsAt(GO_PRELUDE, GO_MAIN, k);
  }

  /** Every program handed to yaegi declares `func main()`, and wrapping it
      again changes nothing. */
  lemma WrappedHasMain(code: string)
    ensures Contains(WrapGo(code), GO_MAIN)
    ensures WrapGo(WrapGo(code)) == WrapGo(code)
  {
    if !Contains(code, GO_MAIN) {
      PreludeHasMain();
      ContainsInside([], GO_PRELUDE, code + GO_EPILOGUE, GO_MAIN);
      assert [] + GO_PRELUDE + (code + GO_EPILOGUE) == WrapGo(code);
    }
  }

  /** `Bun.which('yaegi') ? 'yaegi' : '~/go/bin/yaegi'`. */
  function YaegiPath(found: bool): (path: string)
    ensures found ==> path == "yaegi"
    ensures !found ==> path == "~/go/bin/yaegi"
  {
    if found then "yaegi" else "~/go/bin/yaegi"
  }

  /** `\d` and `[A-Fa-f]`: an ASCII hexadecimal digit. */
  predicate IsHexDigit(c: char) {
    ('0' <= c <= '9') || ('a' <= c <= 'f') || ('A' <= c <= 'F')
  }

  /** `/^0x[\dA-Fa-f]+$/` on the trimmed line: a bare pointer value. */
  predicate IsPointerLine(line: string) {
    var t := Trim(line);
    |t| >= 3 && t[..2] == "0x" && forall i :: 2 <= i < |t| ==> IsHexDigit(t[i])
  }

  /** The lines the filter keeps, in their order. */
  function KeptLines(lines: seq<string>): (kept: seq<string>)
    ensures |kept| <= |lines|
  {
    if lines == [] then []
    else
      var last := lines[|lines| - 1];
      KeptLines(lines[..|lines| - 1]) + (if IsPointerLine(last) then [] else [last])
  }

  /** Exactly the pointer lines are dropped. */
  lemma {:induction false} KeptLinesAreNonPointer(lines: seq<string>)
    ensures forall l :: l in KeptLines(lines) ==> l in lines && !IsPointerLine(l)
    ensures forall l :: l in lines && !IsPointerLine(l) ==> l in KeptLines(lines)
  {
    if lines != [] {
      var init := lines[..|lines| - 1];
      KeptLinesAreNonPointer(init);
      assert lines == init + [lines[|lines| - 1]];
    }
  }

  /** The kept lines keep their relative order: each step of the filter only
      ever appends. */
  lemma {:induction false} KeptLinesInOrder(lines: seq<string>, n: nat)
    requires n <= |lines|
    ensures KeptLines(lines[..n]) <= KeptLines(lines)
    decreases |lines| - n
  {
    if n < |lines| {
      KeptLinesInOrder(lines, n + 1);
      assert lines[..n + 1][..n] == lines[..n];
    } else {
      assert lines[..n] == lines;
    }
  }

  /** The output `runYaegi` returns for what yaegi printed. */
  function CleanOutput(stdout: string): (out: string)
    ensures IsTrimmed(out)
  {
    Trim(Join(KeptLines(Split(stdout, '\n')), "\n"))
  }

  /** Output without pointer lines is only trimmed. */
  lemma {:induction false} NothingToDrop(lines: seq<string>)
    requires forall i :: 0 <= i < |lines| ==> !IsPointerLine(lines[i])
    ensures KeptLines(lines) == lines
  {
    if lines != [] {
      var init := lines[..|lines| - 1];
      var last := lines[|lines| - 1];
      assert !IsPointerLine(last);
      assert forall i :: 0 <= i < |init| ==> init[i] == lines[i];
      NothingToDrop(init);
      assert init + [last] == lines;
    }
  }

  lemma CleanOutputOfPlainText(stdout: string)
    requires forall i :: 0 <= i < |Split(stdout, '\n')| ==> !IsPointerLine(Split(stdout, '\n')[i])
    ensures CleanOutput(stdout) == Trim(stdout)
  {
    NothingToDrop(Split(stdout, '\n'));
    JoinSplit(stdout, '\n');
  }

  const YAEGI_MISSING: string :=
    "Yaegi is not installed. Please install it by running:\n  `go install github.com/traefik/yaegi/cmd/yaegi@latest`"

  /** The command line `runYaegi` hands to the shell. */
  function YaegiCommand(snippet: Snippet, yaegiFound: bool): (argv: seq<string>)
    ensures |argv| == 3 && argv[1] == "-e"
    ensures argv[0] == YaegiPath(yaegiFound) && argv[2] == WrapGo(SnippetCode(snippet))
  {
    [YaegiPath(yaegiFound), "-e", WrapGo(SnippetCode(snippet))]
  }

  /** `runYaegi`, given whether yaegi is on `PATH` and what the shell reports
      for a command line. */
  function RunYaegi(snippet: Snippet, yaegiFound: bool, shell: seq<string> -> Execution): (r: Result<string, string>)
    ensures r.IsOk() <==> shell(YaegiCommand(snippet, yaegiFound)).Success()
    ensures r.IsOk() ==> r.value == CleanOutput(shell(YaegiCommand(snippet, yaegiFound)).stdout)
  {
    ShellResult(shell(YaegiCommand(snippet, yaegiFound)), YAEGI_MISSING, CleanOutput)
  }

  /** What a successful run returns is trimmed; a missing interpreter is
      reported with the install command. */
  lemma YaegiOutcome(snippet: Snippet, yaegiFound: bool, shell: seq<string> -> Execution)
    ensures RunYaegi(snippet, yaegiFound, shell).IsOk() ==> IsTrimmed(RunYaegi(snippet, yaegiFound, shell).value)
    ensures var run := shell(YaegiCommand(snippet, yaegiFound));
            !run.Success() && Contains(run.stderr, COMMAND_NOT_FOUND) ==>
              RunYaegi(snippet, yaegiFound, shell) == Err(YAEGI_MISSING)
  {
  }
}
