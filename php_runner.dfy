/** `runPHP`: a PHP snippet checked for `php` on `PATH`, stripped of its
    open and close tags, run with `php -r`, its output trimmed. */
module PhpRunner {
  import opened Results
  import opened JsText
  import opened EngineTypes
  import opened Templates
  import opened ShellFront

  const OPEN_TAG: string := "<?php"
  const CLOSE_TAG: string := "?>"

  const PHP_MISSING: string := "PHP is not installed. Please install it"

  /** The code `php -r` is given. One leading `<?php` and one trailing `?>`
      of the trimmed code are removed, then it is trimmed again. */
  function PhpBody(code: string): (body: string)
    ensures IsTrimmed(body)
    ensures !StartsWith(Trim(code), OPEN_TAG) && !EndsWith(Trim(code), CLOSE_TAG) ==> body == Trim(code)
  {
    var t := Trim(code);
    var u := if StartsWith(t, OPEN_TAG) then t[|OPEN_TAG|..] else t;
    var v := if EndsWith(u, CLOSE_TAG) then u[..|u| - |CLOSE_TAG|] else u;
    TrimOfTrimmed(t);
    Trim(v)
  }

  /** The tag stripping as `runPHP` performs it on its local `code`. */
  method StripPhpTags(input: string) returns (code: string)
    ensures code == PhpBody(input)
  {
    code := Trim(input);
    if StartsWith(code, OPEN_TAG) {
      code := code[|OPEN_TAG|..];
    }
    if EndsWith(code, CLOSE_TAG) {
      code := code[..|code| - |CLOSE_TAG|];
    }
    code := Trim(code);
  }

  /** Code written between both tags loses exactly those tags. */
  lemma BothTagsStripped(code: string, body: string)
    requires Trim(code) == OPEN_TAG + body + CLOSE_TAG
    ensures PhpBody(code) == Trim(body)
  {
    var t := Trim(code);
    assert t[..|OPEN_TAG|] == OPEN_TAG;
    var u := t[|OPEN_TAG|..];
    assert u == body + CLOSE_TAG;
    assert u[|u| - |CLOSE_TAG|..] == CLOSE_TAG;
    assert u[..|u| - |CLOSE_TAG|] == body;
  }

  /** Code with only the open tag loses that tag. */
  lemma OpenTagStripped(code: string, body: string)
    requires Trim(code) == OPEN_TAG + body && !EndsWith(body, CLOSE_TAG)
    ensures PhpBody(code) == Trim(body)
  {
    var t := Trim(code);
    assert t[..|OPEN_TAG|] == OPEN_TAG;
    assert t[|OPEN_TAG|..] == body;
  }

  /** Code with only the close tag loses that tag. */
  lemma CloseTagStripped(code: string, body: string)
    requires Trim(code) == body + CLOSE_TAG && !StartsWith(Trim(code), OPEN_TAG)
    ensures PhpBody(code) == Trim(body)
  {
    var t := Trim(code);
    assert t[|t| - |CLOSE_TAG|..] == CLOSE_TAG;
    assert t[..|t| - |CLOSE_TAG|] == body;
  }

  /** Only one tag of each kind is removed: a doubled open tag keeps its
      second copy. */
  lemma OneOpenTagOnly(rest: string)
    requires IsTrimmed(rest) && rest != [] && rest[|rest| - 1] != '>'
    ensures PhpBody(OPEN_TAG + OPEN_TAG + rest) == OPEN_TAG + rest
  {
    var once := OPEN_TAG + rest;
    var twice := OPEN_TAG + once;
    assert OPEN_TAG + OPEN_TAG + rest == twice;
    assert twice[0] == '<' && twice[|twice| - 1] == rest[|rest| - 1];
    TrimOfTrimmed(twice);
    assert once[|once| - 1] == rest[|rest| - 1];
    assert !EndsWith(once, CLOSE_TAG) by {
      assert once[|once| - 1] != CLOSE_TAG[1];
    }
    OpenTagStripped(twice, once);
    assert once[0] == '<';
    TrimOfTrimmed(once);
  }

  /** `runPHP`, given whether `php` is on `PATH` and what the shell reports
      for a command line. */
  method RunPhp(snippet: Snippet, phpFound: bool, shell: seq<string> -> Execution)
    returns (r: Result<string, string>)
    ensures !phpFound ==> r == Err(PHP_MISSING)
    ensures phpFound ==> r == ShellResult(shell(["php", "-r", PhpBody(SnippetCode(snippet))]), PHP_MISSING, Trim)
  {
    var code := SnippetCode(snippet);
    if !phpFound {
      return Err(PHP_MISSING);
    }
    code := StripPhpTags(code);
    var run := shell(["php", "-r", code]);
    r := ShellResult(run, PHP_MISSING, Trim);
  }

  /** Whether `php` is missing from `PATH` or the shell cannot find it, the
      caller gets the same error, and a successful run's output is
      trimmed. */
  lemma PhpMissingEitherWay(snippet: Snippet, shell: seq<string> -> Execution)
    requires Contains(shell(["php", "-r", PhpBody(SnippetCode(snippet))]).stderr, COMMAND_NOT_FOUND)
    requires !shell(["php", "-r", PhpBody(SnippetCode(snippet))]).Success()
    ensures ShellResult(shell(["php", "-r", PhpBody(SnippetCode(snippet))]), PHP_MISSING, Trim) == Err(PHP_MISSING)
  {
  }

  lemma PhpOutputTrimmed(run: Execution)
    ensures ShellResult(run, PHP_MISSING, Trim).IsOk() ==> IsTrimmed(ShellResult(run, PHP_MISSING, Trim).value)
  {
  }
}
