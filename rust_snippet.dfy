/** The text-level half of the Rust backend: the `// cargo-deps:` directive
    that switches a snippet to a Cargo build, and `prepareRustSource`, which
    wraps a bare body in a `main` that reports its result through the wire
    protocol. */
module RustSnippet {
  import opened JsText
  import opened Results
  import opened EntryPoint
  import opened WireProtocol

  // ---------------------------------------------------------------------
  // The dependency directive `/\/\/\s*cargo-deps\s*:\s*(.*)/i`

  const DEPS_KEYWORD: string := "cargo-deps"

  /** `/i` outside Unicode mode folds ASCII letters only. */
  function AsciiLower(c: char): (d: char)
    ensures 'A' <= c <= 'Z' ==> d as int == c as int + 32
    ensures !('A' <= c <= 'Z') ==> d == c
  {
    if 'A' <= c <= 'Z' then (c as int + 32) as char else c
  }

  /** `cargo-deps`, in any mix of case, at `a`. */
  predicate KeywordAt(code: string, a: nat) {
    a + |DEPS_KEYWORD| <= |code|
    && forall i :: 0 <= i < |DEPS_KEYWORD| ==> AsciiLower(code[a + i]) == DEPS_KEYWORD[i]
  }

  /** Where the directive starting at `k` has its colon, or -1 when the
      pattern does not match at `k`: `//`, whitespace, the keyword,
      whitespace, `:`. */
  function DirectiveColon(code: string, k: nat): (b: int)
    ensures b == -1 || (k + 2 <= b < |code| && code[b] == ':')
    ensures b != -1 ==> code[k..k + 2] == "//" && KeywordAt(code, SpaceRunEnd(code, k + 2))
                        && b == SpaceRunEnd(code, SpaceRunEnd(code, k + 2) + |DEPS_KEYWORD|)
  {
    if k + 2 > |code| || code[k..k + 2] != "//" then -1
    else
      var a := SpaceRunEnd(code, k + 2);
      if !KeywordAt(code, a) then -1
      else
        var b := SpaceRunEnd(code, a + |DEPS_KEYWORD|);
        if b < |code| && code[b] == ':' then b else -1
  }

  predicate DirectiveAt(code: string, k: nat) {
    DirectiveColon(code, k) != -1
  }

  /** The first line terminator at or after `c`, or the end of the text. */
  function LineEnd(code: string, c: nat): (r: nat)
    requires c <= |code|
    ensures c <= r <= |code|
    ensures r < |code| ==> IsLineTerminator(code[r])
    ensures forall i :: c <= i < r ==> !IsLineTerminator(code[i])
    decreases |code| - c
  {
    if c == |code| || IsLineTerminator(code[c]) then c else LineEnd(code, c + 1)
  }

  /** The captured group after the colon at `b`: the greedy `\s*` skips all
      whitespace, line breaks included, and `(.*)` runs to the end of that
      line. */
  function CaptureAfter(code: string, b: nat): (r: string)
    requires b < |code|
    ensures forall i :: 0 <= i < |r| ==> !IsLineTerminator(r[i])
    ensures r == [] || !IsSpace(r[0])
  {
    var c := SpaceRunEnd(code, b + 1);
    code[c..LineEnd(code, c)]
  }

  /** `exec` from position `k` on: the leftmost match wins. */
  function CargoDepsFrom(code: string, k: nat): (r: Option<string>)
    requires k <= |code|
    ensures r.Some? ==> forall i :: 0 <= i < |r.value| ==> !IsLineTerminator(r.value[i])
    ensures r.Some? ==> r.value == [] || !IsSpace(r.value[0])
    decreases |code| - k
  {
    var b := DirectiveColon(code, k);
    if b != -1 then Some(CaptureAfter(code, b))
    else if k == |code| then None
    else CargoDepsFrom(code, k + 1)
  }

  /** The dependency list of a snippet, `None` when it has no directive. A
      snippet with a directive is built with Cargo, even when the list is
      empty. */
  function CargoDeps(code: string): (r: Option<string>)
    ensures r.Some? ==> forall i :: 0 <= i < |r.value| ==> !IsLineTerminator(r.value[i])
  {
    CargoDepsFrom(code, 0)
  }

  /** A match found from `k` on is a directive at or after `k`. */
  lemma {:induction false} CargoDepsFromWitness(code: string, k: nat) returns (j: nat)
    requires k <= |code| && CargoDepsFrom(code, k).Some?
    ensures k <= j <= |code| && DirectiveAt(code, j)
    decreases |code| - k
  {
    if DirectiveAt(code, k) {
      j := k;
    } else {
      j := CargoDepsFromWitness(code, k + 1);
    }
  }

  /** A directive at or after `k` is found by the search from `k`. */
  lemma {:induction false} CargoDepsFromReaches(code: string, k: nat, j: nat)
    requires k <= j <= |code|
    ensures DirectiveAt(code, j) ==> CargoDepsFrom(code, k).Some?
    decreases j - k
  {
    if k < j && !DirectiveAt(code, k) {
      CargoDepsFromReaches(code, k + 1, j);
    }
  }

  lemma CargoDepsFromFound(code: string, k: nat)
    requires k <= |code|
    ensures CargoDepsFrom(code, k).Some? <==> exists j: nat :: k <= j <= |code| && DirectiveAt(code, j)
  {
    if CargoDepsFrom(code, k).Some? {
      var j := CargoDepsFromWitness(code, k);
    } else {
      forall j: nat | k <= j <= |code| ensures !DirectiveAt(code, j) {
        CargoDepsFromReaches(code, k, j);
      }
    }
  }

  /** A snippet is in Cargo mode exactly when the directive occurs somewhere. */
  lemma CargoModeIffDirective(code: string)
    ensures CargoDeps(code).Some? <==> exists j: nat :: j <= |code| && DirectiveAt(code, j)
  {
    CargoDepsFromFound(code, 0);
  }

  lemma {:induction false} CargoDepsFromLeftmost(code: string, k: nat, j: nat)
    requires k <= j <= |code| && DirectiveAt(code, j)
    requires forall i: nat :: k <= i < j ==> !DirectiveAt(code, i)
    ensures CargoDepsFrom(code, k) == Some(CaptureAfter(code, DirectiveColon(code, j)))
    decreases j - k
  {
    if k < j {
      assert !DirectiveAt(code, k);
      CargoDepsFromLeftmost(code, k + 1, j);
    }
  }

  /** The list is the rest of the line of the first directive. */
  lemma CargoDepsLeftmost(code: string, j: nat)
    requires j <= |code| && DirectiveAt(code, j)
    requires forall i: nat :: i < j ==> !DirectiveAt(code, i)
    ensures CargoDeps(code) == Some(CaptureAfter(code, DirectiveColon(code, j)))
  {
    CargoDepsFromLeftmost(code, 0, j);
  }

  /** A snippet whose first line is `// cargo-deps: <list>` is built with
      that list. */
  lemma DirectiveOnFirstLine(code: string, deps: string, rest: string)
    requires code == "// cargo-deps: " + deps + "\n" + rest
    requires deps != [] && !IsSpace(deps[0])
    requires forall i :: 0 <= i < |deps| ==> !IsLineTerminator(deps[i])
    ensures CargoDeps(code) == Some(deps)
  {
    assert code[..2] == "//";
    assert code[2] == ' ' && code[3] == 'c';
    assert SpaceRunEnd(code, 3) == 3;
    assert SpaceRunEnd(code, 2) == 3;
    assert code[3..13] == DEPS_KEYWORD;
    assert KeywordAt(code, 3);
    assert code[13] == ':';
    assert SpaceRunEnd(code, 13) == 13;
    var c := |"// cargo-deps: "|;
    assert code[14] == ' ';
    DepsLineEnds(code, deps, rest, c);
    assert DirectiveColon(code, 0) == 13;
  }

  lemma DepsLineEnds(code: string, deps: string, rest: string, c: nat)
    requires c == 15 && code == "// cargo-deps: " + deps + "\n" + rest
    requires deps != [] && !IsSpace(deps[0])
    requires forall i :: 0 <= i < |deps| ==> !IsLineTerminator(deps[i])
    ensures SpaceRunEnd(code, 14) == c
    ensures LineEnd(code, c) == c + |deps| && code[c..c + |deps|] == deps
  {
    assert code[14] == ' ';
    assert c < |code|;
    assert code[c] == deps[0];
    assert SpaceRunEnd(code, c) == c;
    LineEndAt(code, c, c + |deps|);
  }

  lemma LineEndAt(code: string, c: nat, e: nat)
    requires c <= e < |code| && IsLineTerminator(code[e])
    requires forall i :: c <= i < e ==> !IsLineTerminator(code[i])
    ensures LineEnd(code, c) == e
    decreases e - c
  {
    if c < e {
      LineEndAt(code, c + 1, e);
    }
  }

  // ---------------------------------------------------------------------
  // `prepareRustSource`

  const HEADER: string := "#![allow(unused)]\n"
  const SERDE_USE: string := "use serde_json;"

  /** `println!("<marker>");` or `eprintln!(...)` as a scaffold line. */
  function PrintLine(macro: string, text: string): string {
    "      " + macro + "!(\"" + text + "\");"
  }

  /** How the scaffold prints the `Ok` value: as JSON through serde when the
      build has it, with `{:?}` otherwise. */
  function ValueLine(useSerde: bool): string {
    if useSerde then
      Join(["      match serde_json::to_string(&v) {",
            "        Ok(s) => println!(\"{}\", s),",
            "        Err(_) => println!(\"{:?}\", v),",
            "      }"], "\n")
    else "      println!(\"{:?}\", v);"
  }

  /** The `Ok` arm's body: start marker, value, end marker, exit status 0. */
  function OkArm(useSerde: bool): seq<string> {
    [PrintLine("println", START_OK), ValueLine(useSerde), PrintLine("println", END_MARKER),
     "      ExitCode::from(0)"]
  }

  /** The `Err` arm's body, on stderr: start marker, `{:?}` of the error, end
      marker, exit status 1. */
  const ERR_ARM: seq<string> :=
    [PrintLine("eprintln", START_ERR), "      eprintln!(\"{:?}\", e);", PrintLine("eprintln", END_MARKER),
     "      ExitCode::from(1)"]

  const MAIN_LINE: string := "fn main() -> ExitCode {"
  const CLOSURE_OPEN: string := "  let __res = (|| {"
  const CLOSURE_CLOSE: string := "  })();"

  /** The scaffold's lines before the user's code: the imports, `main`'s
      signature and the opening of the closure. */
  function HeadLines(useSerde: bool): seq<string> {
    ["use std::process::ExitCode;", if useSerde then SERDE_USE else "", MAIN_LINE, CLOSURE_OPEN]
  }

  const MATCH_OPEN: seq<string> := [CLOSURE_CLOSE, "  match __res {", "    Ok(v) => {"]
  const ARMS_BETWEEN: seq<string> := ["    }", "    Err(e) => {"]
  const MATCH_CLOSE: seq<string> := ["    }", "  }", "}\n"]

  /** The scaffold's lines after the user's code: the closure is called and
      its `Result` matched, one arm per outcome. */
  function TailLines(useSerde: bool): seq<string> {
    MATCH_OPEN + OkArm(useSerde) + ARMS_BETWEEN + ERR_ARM + MATCH_CLOSE
  }

  /** The header and the scaffold's lines around the user's code, joined
      with line breaks. */
  function Scaffold(userCode: string, useSerde: bool): string {
    HEADER + Join(HeadLines(useSerde) + [userCode] + TailLines(useSerde), "\n")
  }

  /** `prepareRustSource`: code that already declares `fn main(` only gets
      the header; anything else is wrapped in the scaffold. */
  function PrepareRustSource(userCode: string, useSerde: bool): (r: string)
    ensures StartsWith(r, HEADER)
    ensures HasSignature(userCode, "fn") ==> r == HEADER + userCode
    ensures !HasSignature(userCode, "fn") ==> r == Scaffold(userCode, useSerde)
  {
    if HasSignature(userCode, "fn") then HEADER + userCode
    else Scaffold(userCode, useSerde)
  }

  /** The text before and after the user's code in the scaffold. */
  function ScaffoldHead(useSerde: bool): string {
    Join(HeadLines(useSerde), "\n") + "\n"
  }

  function ScaffoldTail(useSerde: bool): string {
    "\n" + Join(TailLines(useSerde), "\n")
  }

  /** Without `fn main(`, the user's code sits verbatim, on lines of its own,
      between the scaffold's head and tail. */
  lemma ScaffoldWrapsCode(userCode: string, useSerde: bool)
    ensures Scaffold(userCode, useSerde) == HEADER + ScaffoldHead(useSerde) + userCode + ScaffoldTail(useSerde)
  {
    JoinThree(HeadLines(useSerde), [userCode], TailLines(useSerde), "\n");
  }

  /** The head ends by opening the closure whose result `main` matches on. */
  lemma HeadOpensClosure(useSerde: bool)
    ensures EndsWith(ScaffoldHead(useSerde), CLOSURE_OPEN + "\n")
  {
    var head := HeadLines(useSerde);
    assert head == head[..3] + [CLOSURE_OPEN];
    JoinSnoc(head[..3], CLOSURE_OPEN, "\n");
  }

  /** The tail starts by calling that closure. */
  lemma TailCallsClosure(useSerde: bool)
    ensures StartsWith(ScaffoldTail(useSerde), "\n" + CLOSURE_CLOSE + "\n")
  {
    var tail := TailLines(useSerde);
    assert tail == [CLOSURE_CLOSE] + tail[1..];
    JoinAppend([CLOSURE_CLOSE], tail[1..], "\n");
  }

  /** The `Ok` arm prints the start marker, the value and the end marker on
      stdout and exits with 0. */
  lemma ScaffoldOkArm(userCode: string, useSerde: bool)
    ensures Contains(Scaffold(userCode, useSerde), Join(OkArm(useSerde), "\n"))
  {
    var lines := HeadLines(useSerde) + [userCode] + TailLines(useSerde);
    var before := HeadLines(useSerde) + [userCode] + MATCH_OPEN;
    var after := ARMS_BETWEEN + ERR_ARM + MATCH_CLOSE;
    assert lines == before + OkArm(useSerde) + after;
    JoinHoldsMiddle(before, OkArm(useSerde), after, "\n");
    ContainsInside(HEADER, Join(lines, "\n"), [], Join(OkArm(useSerde), "\n"));
    assert HEADER + Join(lines, "\n") + [] == Scaffold(userCode, useSerde);
  }

  /** The `Err` arm prints the start marker, the error and the end marker on
      stderr and exits with 1. */
  lemma ScaffoldErrArm(userCode: string, useSerde: bool)
    ensures Contains(Scaffold(userCode, useSerde), Join(ERR_ARM, "\n"))
  {
    var lines := HeadLines(useSerde) + [userCode] + TailLines(useSerde);
    var before := HeadLines(useSerde) + [userCode] + MATCH_OPEN + OkArm(useSerde) + ARMS_BETWEEN;
    assert lines == before + ERR_ARM + MATCH_CLOSE;
    JoinHoldsMiddle(before, ERR_ARM, MATCH_CLOSE, "\n");
    ContainsInside(HEADER, Join(lines, "\n"), [], Join(ERR_ARM, "\n"));
    assert HEADER + Join(lines, "\n") + [] == Scaffold(userCode, useSerde);
  }

  /** A text without the character `c` holds no pattern that has it. */
  lemma MissingChar(t: string, p: string, c: char)
    requires c in p && c !in t
    ensures !Contains(t, p)
  {
    var k := IndexOf(t, p, 0);
    var i :| 0 <= i < |p| && p[i] == c;
    OccursAtIndex(t, p, k, i);
  }

  /** With serde the scaffold imports `serde_json` on its second line. */
  lemma ScaffoldImportsSerde()
    ensures Contains(ScaffoldHead(true), SERDE_USE)
  {
    var head := HeadLines(true);
    assert head == head[..1] + [SERDE_USE] + head[2..];
    JoinHoldsMiddle(head[..1], [SERDE_USE], head[2..], "\n");
    ContainsInside([], Join(head, "\n"), "\n", SERDE_USE);
    assert [] + Join(head, "\n") + "\n" == ScaffoldHead(true);
  }

  /** Without serde, nothing around the user's code mentions `serde_json`. */
  lemma ScaffoldWithoutSerde()
    ensures !Contains(ScaffoldHead(false) + ScaffoldTail(false), "serde_json")
  {
    NoJInHead();
    NoJInTail();
    NoCharInJoin(HeadLines(false), "\n", 'j');
    NoCharInJoin(TailLines(false), "\n", 'j');
    MissingChar(ScaffoldHead(false) + ScaffoldTail(false), "serde_json", 'j');
  }

  lemma NoJInHead()
    ensures LinesFree(HeadLines(false), 'j')
  {
  }

  predicate LinesFree(lines: seq<string>, c: char) {
    forall i :: 0 <= i < |lines| ==> c !in lines[i]
  }

  lemma LinesFreeConcat(a: seq<string>, b: seq<string>, c: char)
    requires LinesFree(a, c) && LinesFree(b, c)
    ensures LinesFree(a + b, c)
  {
    forall i | 0 <= i < |a + b| ensures c !in (a + b)[i] {
      if i >= |a| {
        assert (a + b)[i] == b[i - |a|];
      }
    }
  }

  lemma NoJInOkArm()
    ensures LinesFree(OkArm(false), 'j')
  {
    assert 'j' !in START_OK && 'j' !in END_MARKER;
    PrintLineFree("println", START_OK, 'j');
    PrintLineFree("println", END_MARKER, 'j');
    assert 'j' !in ValueLine(false);
  }

  lemma NoJInErrArm()
    ensures LinesFree(ERR_ARM, 'j')
  {
    assert 'j' !in START_ERR && 'j' !in END_MARKER;
    PrintLineFree("eprintln", START_ERR, 'j');
    PrintLineFree("eprintln", END_MARKER, 'j');
  }

  lemma PrintLineFree(macro: string, text: string, c: char)
    requires c !in macro && c !in text && c !in "      !(\");"
    ensures c !in PrintLine(macro, text)
  {
  }

  lemma NoJInMatch()
    ensures LinesFree(MATCH_OPEN, 'j') && LinesFree(ARMS_BETWEEN, 'j') && LinesFree(MATCH_CLOSE, 'j')
  {
  }

  lemma NoJInTail()
    ensures LinesFree(TailLines(false), 'j')
  {
    NoJInOkArm();
    NoJInErrArm();
    NoJInMatch();
    LinesFreeConcat(MATCH_OPEN, OkArm(false), 'j');
    LinesFreeConcat(MATCH_OPEN + OkArm(false), ARMS_BETWEEN, 'j');
    LinesFreeConcat(MATCH_OPEN + OkArm(false) + ARMS_BETWEEN, ERR_ARM, 'j');
    LinesFreeConcat(MATCH_OPEN + OkArm(false) + ARMS_BETWEEN + ERR_ARM, MATCH_CLOSE, 'j');
  }

  /** A join of lines without `c`, with a separator without `c`, has no `c`. */
  lemma {:induction false} NoCharInJoin(lines: seq<string>, sep: string, c: char)
    requires c !in sep && LinesFree(lines, c)
    ensures c !in Join(lines, sep)
  {
    if |lines| > 1 {
      NoCharInJoin(lines[..|lines| - 1], sep, c);
    }
  }

  /** The scaffold declares `fn main(`, so the entry-point test accepts the
      wrapped program; preparing it once more would only add a header. */
  lemma ScaffoldHasMain(userCode: string, useSerde: bool)
    ensures HasSignature(Scaffold(userCode, useSerde), "fn")
  {
    var head := HeadLines(useSerde);
    var rest := [CLOSURE_OPEN, userCode] + TailLines(useSerde);
    assert head + [userCode] + TailLines(useSerde) == head[..2] + [MAIN_LINE] + rest;
    JoinThree(head[..2], [MAIN_LINE], rest, "\n");
    var pre := HEADER + Join(head[..2], "\n") + "\n";
    MainLineSignature(Scaffold(userCode, useSerde), pre, Join(rest, "\n"));
  }

  lemma MainLineSignature(r: string, pre: string, post: string)
    requires |pre| > 0 && pre[|pre| - 1] == '\n'
    requires r == pre + Join([MAIN_LINE], "\n") + "\n" + post
    ensures HasSignature(r, "fn")
  {
    assert MAIN_LINE == "fn" + " main(" + ") -> ExitCode {";
    assert r == pre + "fn" + " main(" + (") -> ExitCode {" + "\n" + post);
    SignatureInText(pre, "fn", ") -> ExitCode {" + "\n" + post);
  }
}
