/** The Cargo side of the Rust backend: the dependency list of a
    `// cargo-deps:` directive split at its top-level commas, `serde` and
    `serde_json` added when missing, and the `Cargo.toml` the build uses. */
module CargoManifest {
  import opened JsText
  import opened Results

  // ---------------------------------------------------------------------
  // `splitTopLevelCommaSeparated`

  /** The splitter's state between two characters: the three bracket
      depths, the quote character of the string being read (if any) and
      whether the previous character was a backslash inside that string. */
  datatype Lexer = Lexer(curly: nat, square: nat, paren: nat, quote: Option<char>, escaped: bool)

  const START: Lexer := Lexer(0, 0, 0, None, false)

  /** `Math.max(0, depth - 1)`: a closing bracket never takes a depth below 0. */
  function Close(depth: nat): (r: nat)
    ensures depth > 0 ==> r == depth - 1
    ensures depth == 0 ==> r == 0
  {
    if depth > 0 then depth - 1 else 0
  }

  /** One turn of the loop: the next state, and whether `ch` is a comma that
      ends a part. */
  function Step(st: Lexer, ch: char): (r: (Lexer, bool))
    ensures r.1 <==> ch == ',' && !st.escaped && st.quote.None? && st.curly == 0 && st.square == 0 && st.paren == 0
    ensures st.quote.Some? && !st.escaped && ch == '\\' ==> r.0 == st.(escaped := true)
    ensures st.escaped ==> r.0 == st.(escaped := false)
  {
    if st.escaped then (st.(escaped := false), false)
    else if st.quote.Some? then
      if ch == '\\' then (st.(escaped := true), false)
      else if ch == st.quote.value then (st.(quote := None), false)
      else (st, false)
    else if ch == '"' || ch == '\'' then (st.(quote := Some(ch)), false)
    else if ch == '{' then (st.(curly := st.curly + 1), false)
    else if ch == '}' then (st.(curly := Close(st.curly)), false)
    else if ch == '[' then (st.(square := st.square + 1), false)
    else if ch == ']' then (st.(square := Close(st.square)), false)
    else if ch == '(' then (st.(paren := st.paren + 1), false)
    else if ch == ')' then (st.(paren := Close(st.paren)), false)
    else (st, ch == ',' && st.curly == 0 && st.square == 0 && st.paren == 0)
  }

  /** Everything the loop has built after `n` characters: the state, the
      finished parts and the part being read. */
  datatype Scan = Scan(lexer: Lexer, parts: seq<string>, current: string)

  function ScanPrefix(input: string, n: nat): Scan
    requires n <= |input|
  {
    if n == 0 then Scan(START, [], [])
    else
      var s := ScanPrefix(input, n - 1);
      var (next, split) := Step(s.lexer, input[n - 1]);
      if split then Scan(next, s.parts + [s.current], [])
      else Scan(next, s.parts, s.current + [input[n - 1]])
  }

  /** `.map((s) => s.trim()).filter(Boolean)`. */
  function Cleaned(parts: seq<string>): (r: seq<string>)
    ensures forall i :: 0 <= i < |r| ==> r[i] != [] && IsTrimmed(r[i])
    ensures |r| <= |parts|
  {
    if parts == [] then []
    else
      var last := Trim(parts[|parts| - 1]);
      Cleaned(parts[..|parts| - 1]) + (if last != [] then [last] else [])
  }

  /** What `splitTopLevelCommaSeparated` returns: the parts, the last one
      kept when it is not blank, trimmed, blanks dropped. */
  function SplitTopLevel(input: string): (r: seq<string>)
    ensures forall i :: 0 <= i < |r| ==> r[i] != [] && IsTrimmed(r[i])
  {
    var s := ScanPrefix(input, |input|);
    Cleaned(if Trim(s.current) != [] then s.parts + [s.current] else s.parts)
  }

  /** `splitTopLevelCommaSeparated`, as the character loop the source runs. */
  method SplitTopLevelCommaSeparated(input: string) returns (result: seq<string>)
    ensures result == SplitTopLevel(input)
  {
    var parts: seq<string> := [];
    var current: string := [];
    var depthCurly: nat, depthSquare: nat, depthParen: nat := 0, 0, 0;
    var inString: Option<char> := None;
    var isEscaped := false;
    for i := 0 to |input|
      invariant ScanPrefix(input, i)
                == Scan(Lexer(depthCurly, depthSquare, depthParen, inString, isEscaped), parts, current)
    {
      var ch := input[i];
      current := current + [ch];
      if isEscaped {
        isEscaped := false;
      } else if inString.Some? {
        if ch == '\\' {
          isEscaped := true;
        } else if ch == inString.value {
          inString := None;
        }
      } else if ch == '"' || ch == '\'' {
        inString := Some(ch);
      } else if ch == '{' {
        depthCurly := depthCurly + 1;
      } else if ch == '}' {
        depthCurly := if depthCurly > 0 then depthCurly - 1 else 0;
      } else if ch == '[' {
        depthSquare := depthSquare + 1;
      } else if ch == ']' {
        depthSquare := if depthSquare > 0 then depthSquare - 1 else 0;
      } else if ch == '(' {
        depthParen := depthParen + 1;
      } else if ch == ')' {
        depthParen := if depthParen > 0 then depthParen - 1 else 0;
      } else if ch == ',' && depthCurly == 0 && depthSquare == 0 && depthParen == 0 {
        parts := parts + [current[..|current| - 1]];
        current := [];
      }
    }
    if Trim(current) != [] {
      parts := parts + [current];
    }
    result := Cleaned(parts);
  }

  /** Splitting loses nothing but the separating commas: the parts read so
      far, with the part being read, joined with `,` give the input back. */
  lemma {:induction false} ScanRejoins(input: string, n: nat)
    requires n <= |input|
    ensures var s := ScanPrefix(input, n); Join(s.parts + [s.current], ",") == input[..n]
  {
    if n > 0 {
      ScanRejoins(input, n - 1);
      var s := ScanPrefix(input, n - 1);
      var pieces := s.parts + [s.current];
      assert input[..n] == input[..n - 1] + [input[n - 1]];
      if Step(s.lexer, input[n - 1]).1 {
        JoinSnoc(pieces, [], ",");
      } else {
        JoinExtendLast(pieces, [input[n - 1]], ",");
        assert pieces[..|pieces| - 1] == s.parts;
      }
    }
  }

  /** The pieces of the whole input, rejoined, are the input. */
  lemma PiecesRejoin(input: string)
    ensures var s := ScanPrefix(input, |input|); Join(s.parts + [s.current], ",") == input
  {
    ScanRejoins(input, |input|);
    assert input[..|input|] == input;
  }

  /** The test of the last part changes nothing: `filter(Boolean)` would drop
      it anyway. */
  lemma {:induction false} CleanedDropsBlank(parts: seq<string>, blank: string)
    requires Trim(blank) == []
    ensures Cleaned(parts + [blank]) == Cleaned(parts)
  {
    assert (parts + [blank])[..|parts|] == parts;
  }

  lemma SplitIgnoresFinalCheck(input: string)
    ensures var s := ScanPrefix(input, |input|); SplitTopLevel(input) == Cleaned(s.parts + [s.current])
  {
    var s := ScanPrefix(input, |input|);
    if Trim(s.current) == [] {
      CleanedDropsBlank(s.parts, s.current);
    }
  }

  /** The characters that open or close a nesting. */
  predicate Nesting(c: char) {
    c == '{' || c == '}' || c == '[' || c == ']' || c == '(' || c == ')' || c == '"' || c == '\''
  }

  /** Without brackets or quotes every comma separates: the pieces are those
      of `split(',')`. */
  lemma {:induction false} PlainPiecesAreSplit(input: string, n: nat)
    requires n <= |input|
    requires forall i :: 0 <= i < |input| ==> !Nesting(input[i])
    ensures ScanPrefix(input, n).lexer == START
    ensures var s := ScanPrefix(input, n); s.parts + [s.current] == Split(input[..n], ',')
  {
    if n > 0 {
      PlainPiecesAreSplit(input, n - 1);
      var s := ScanPrefix(input, n - 1);
      assert input[..n][..n - 1] == input[..n - 1];
      var pieces := s.parts + [s.current];
      if input[n - 1] != ',' {
        assert pieces[..|pieces| - 1] == s.parts;
      }
    }
  }

  /** Inside a string, a backslash makes the next character ordinary, even
      the closing quote. */
  lemma EscapedQuoteStaysInString(st: Lexer, q: char)
    requires st.quote == Some(q) && !st.escaped
    ensures Step(Step(st, '\\').0, q).0 == st
  {
  }


  // ---------------------------------------------------------------------
  // Dependency names and the injection of `serde` / `serde_json`

  const SERDE_DEP: string := "serde" + " = " + "{ version = \"1\", features = [\"derive\"] }"
  const SERDE_JSON_DEP: string := "serde_json" + " = " + "\"1\""

  /** The name of an entry: the text before its first `=`, or all of it,
      trimmed. */
  function DepName(d: string): (r: string)
    ensures IsTrimmed(r)
    ensures forall j :: 0 <= j < |r| ==> r[j] != '='
  {
    var eq := IndexOf(d, "=", 0);
    NoEqualsBefore(d, if eq == -1 then |d| else eq);
    NoEqualsInTrim(if eq == -1 then d else d[..eq]);
    Trim(if eq == -1 then d else d[..eq])
  }

  /** No `=` comes before the first one. */
  lemma NoEqualsBefore(d: string, k: nat)
    requires k <= |d| && (IndexOf(d, "=", 0) == -1 || IndexOf(d, "=", 0) == k)
    ensures forall j :: 0 <= j < k ==> d[j] != '='
  {
    forall j | 0 <= j < k ensures d[j] != '=' {
      assert d[j] == '=' ==> OccursAt(d, "=", j);
      IndexOfFirst(d, "=", 0, j);
    }
  }

  lemma NoEqualsInTrim(s: string)
    requires forall j :: 0 <= j < |s| ==> s[j] != '='
    ensures forall j :: 0 <= j < |Trim(s)| ==> Trim(s)[j] != '='
  {
    var before, after := TrimSplits(s);
    forall j | 0 <= j < |Trim(s)| ensures Trim(s)[j] != '=' {
      assert Trim(s)[j] == s[|before| + j];
    }
  }

  /** The first `=` of a text. */
  lemma EqualsAt(t: string, k: nat)
    requires k < |t| && t[k] == '=' && forall j :: 0 <= j < k ==> t[j] != '='
    ensures IndexOf(t, "=", 0) == k
  {
    forall j | 0 <= j < k ensures !OccursAt(t, "=", j) {
      OccursAtIndex(t, "=", j, 0);
    }
    assert t[k..k + 1] == "=";
    IndexOfIs(t, "=", 0, k);
  }

  /** An entry written `name = value`, with a trimmed name free of `=`, is
      named `name`. */
  lemma NamedEntry(name: string, value: string)
    requires IsTrimmed(name) && forall j :: 0 <= j < |name| ==> name[j] != '='
    ensures IndexOf(name + " = " + value, "=", 0) == |name| + 1
    ensures DepName(name + " = " + value) == name
  {
    var line := name + " = " + value;
    var k := |name| + 1;
    forall j | 0 <= j < k ensures line[j] != '=' {
      if j < |name| {
        assert line[j] == name[j];
      }
    }
    EqualsAt(line, k);
    assert line[..k] == name + " ";
    TrimDropsTrailingSpace(name, " ");
    TrimOfTrimmed(name);
  }

  /** The names of the two injected entries. */
  lemma InjectedNames()
    ensures DepName(SERDE_DEP) == "serde" && DepName(SERDE_JSON_DEP) == "serde_json"
  {
    NamedEntry("serde", "{ version = \"1\", features = [\"derive\"] }");
    NamedEntry("serde_json", "\"1\"");
  }

  /** The set `depNames`. */
  function DepNames(deps: seq<string>): set<string> {
    set i | 0 <= i < |deps| :: DepName(deps[i])
  }

  /** The entries after injection: the user's entries in their order, then
      `serde` unless some entry is named so, then `serde_json` likewise. */
  function WithSerde(deps: seq<string>): (r: seq<string>)
    ensures |deps| <= |r| <= |deps| + 2
    ensures r[..|deps|] == deps
  {
    deps
    + (if "serde" in DepNames(deps) then [] else [SERDE_DEP])
    + (if "serde_json" in DepNames(deps) then [] else [SERDE_JSON_DEP])
  }

  /** The injection as the source performs it: the names are collected
      first, then the two entries pushed. */
  method InjectSerde(deps: seq<string>) returns (out: seq<string>)
    ensures out == WithSerde(deps)
  {
    var depNames := DepNames(deps);
    out := deps;
    if "serde" !in depNames {
      out := out + [SERDE_DEP];
    }
    if "serde_json" !in depNames {
      out := out + [SERDE_JSON_DEP];
    }
  }

  /** After injection both crates are declared. */
  lemma SerdeDeclared(deps: seq<string>)
    ensures "serde" in DepNames(WithSerde(deps)) && "serde_json" in DepNames(WithSerde(deps))
  {
    InjectedNames();
    var r := WithSerde(deps);
    var extra := r[|deps|..];
    assert r == deps + extra;
    if "serde" in DepNames(deps) {
      var i :| 0 <= i < |deps| && DepName(deps[i]) == "serde";
      assert r[i] == deps[i];
    } else {
      assert r[|deps|] == SERDE_DEP;
    }
    if "serde_json" in DepNames(deps) {
      var i :| 0 <= i < |deps| && DepName(deps[i]) == "serde_json";
      assert r[i] == deps[i];
    } else {
      assert r[|r| - 1] == SERDE_JSON_DEP;
    }
  }

  /** The user's entries come first and unchanged, and each crate's entry
      is added exactly when no entry had its name. */
  lemma AddedOnlyWhenMissing(deps: seq<string>)
    ensures WithSerde(deps)[..|deps|] == deps
    ensures SERDE_DEP in WithSerde(deps)[|deps|..] <==> "serde" !in DepNames(deps)
    ensures SERDE_JSON_DEP in WithSerde(deps)[|deps|..] <==> "serde_json" !in DepNames(deps)
  {
    InjectedNames();
    var r := WithSerde(deps);
    var a := if "serde" in DepNames(deps) then [] else [SERDE_DEP];
    var b := if "serde_json" in DepNames(deps) then [] else [SERDE_JSON_DEP];
    assert r == deps + (a + b);
    assert r[..|deps|] == deps;
    assert r[|deps|..] == a + b;
    assert SERDE_DEP != SERDE_JSON_DEP by {
      assert |SERDE_DEP| != |SERDE_JSON_DEP|;
    }
  }

  /** Injecting a second time adds nothing. */
  lemma InjectionIdempotent(deps: seq<string>)
    ensures WithSerde(WithSerde(deps)) == WithSerde(deps)
  {
    SerdeDeclared(deps);
  }

  // ---------------------------------------------------------------------
  // `Cargo.toml`

  /** `/[{\[]/.test(d)`: an inline table or array is passed through. */
  predicate LooksLikeTable(d: string) {
    '{' in d || '[' in d
  }

  /** The value of an entry that has one: what follows the first `=`,
      trimmed, or `"*"` when that is blank. */
  function DepValue(d: string): (v: string)
    requires IndexOf(d, "=", 0) != -1
    ensures v != [] && IsTrimmed(v)
  {
    var value := Trim(d[IndexOf(d, "=", 0) + 1..]);
    if value == [] then "\"*\"" else value
  }

  /** The manifest line of one entry. */
  function DepLine(d: string): (line: string)
    ensures LooksLikeTable(d) ==> line == d
    ensures !LooksLikeTable(d) ==> EndsWith(line, "\"*\"") || EndsWith(line, Trim(d[IndexOf(d, "=", 0) + 1..]))
  {
    if LooksLikeTable(d) then d
    else
      var eq := IndexOf(d, "=", 0);
      if eq == -1 then d + " = \"*\""
      else
        var name := Trim(d[..eq]);
        var value := Trim(d[eq + 1..]);
        name + " = " + (if value == [] then "\"*\"" else value)
  }

  /** Every entry that is not a table becomes `name = version`, with `"*"`
      for an entry that gives no version. */
  lemma DepLineShape(d: string)
    requires IsTrimmed(d) && !LooksLikeTable(d)
    ensures IndexOf(d, "=", 0) == -1 ==> DepLine(d) == DepName(d) + " = \"*\""
    ensures IndexOf(d, "=", 0) != -1 ==> DepLine(d) == DepName(d) + " = " + DepValue(d)
  {
    if IndexOf(d, "=", 0) == -1 {
      TrimOfTrimmed(d);
    }
  }

  /** Rendering keeps the name of the entry. */
  lemma DepLineKeepsName(d: string)
    ensures DepName(DepLine(d)) == DepName(d)
  {
    if !LooksLikeTable(d) {
      var eq := IndexOf(d, "=", 0);
      if eq == -1 {
        NoEqualsBefore(d, |d|);
        BareEntryName(d);
      } else {
        NamedEntry(DepName(d), DepValue(d));
      }
    }
  }

  /** A bare name gets the wildcard version and keeps its name. */
  lemma BareEntryName(d: string)
    requires forall j :: 0 <= j < |d| ==> d[j] != '='
    ensures DepName(d + " = \"*\"") == Trim(d)
  {
    var line := d + " = \"*\"";
    var k := |d| + 1;
    forall j | 0 <= j < k ensures line[j] != '=' {
      if j < |d| {
        assert line[j] == d[j];
      }
    }
    EqualsAt(line, k);
    assert line[..k] == d + " ";
    TrimDropsTrailingSpace(d, " ");
  }

  /** The characters of a trimmed text are characters of the text. */
  lemma TrimKeepsOut(s: string, c: char)
    requires c !in s
    ensures c !in Trim(s)
  {
    var before, after := TrimSplits(s);
    assert s == before + Trim(s) + after;
  }

  /** Rendering a rendered, trimmed entry again changes nothing. */
  lemma DepLineIdempotent(d: string)
    requires IsTrimmed(d)
    ensures DepLine(DepLine(d)) == DepLine(d)
  {
    if !LooksLikeTable(d) {
      if IndexOf(d, "=", 0) == -1 {
        BareLineIdempotent(d);
      } else {
        ValuedLineIdempotent(d);
      }
    }
  }

  lemma BareLineIdempotent(d: string)
    requires IsTrimmed(d) && !LooksLikeTable(d) && IndexOf(d, "=", 0) == -1
    ensures DepLine(DepLine(d)) == DepLine(d)
  {
    var star := "\"*\"";
    assert DepLine(d) == d + " = " + star;
    NoEqualsBefore(d, |d|);
    NoTableAround(d, star);
    RenderedLine(d, star);
  }

  lemma ValuedLineIdempotent(d: string)
    requires !LooksLikeTable(d) && IndexOf(d, "=", 0) != -1
    ensures DepLine(DepLine(d)) == DepLine(d)
  {
    var line := DepName(d) + " = " + DepValue(d);
    assert DepLine(d) == line;
    NameHasNoTable(d);
    ValueHasNoTable(d);
    NoTableAround(DepName(d), DepValue(d));
    RenderedLine(DepName(d), DepValue(d));
  }

  lemma NoTableAround(name: string, value: string)
    requires !LooksLikeTable(name) && !LooksLikeTable(value)
    ensures !LooksLikeTable(name + " = " + value)
  {
  }

  /** The name of an entry holds no bracket the entry lacks. */
  lemma NameHasNoTable(d: string)
    requires !LooksLikeTable(d)
    ensures !LooksLikeTable(DepName(d))
  {
    var eq := IndexOf(d, "=", 0);
    var pre := if eq == -1 then d else d[..eq];
    assert d == pre + d[|pre|..];
    TrimKeepsOut(pre, '{');
    TrimKeepsOut(pre, '[');
  }

  /** Nor does its value. */
  lemma ValueHasNoTable(d: string)
    requires !LooksLikeTable(d) && IndexOf(d, "=", 0) != -1
    ensures !LooksLikeTable(DepValue(d))
  {
    var eq := IndexOf(d, "=", 0);
    var post := d[eq + 1..];
    assert d == d[..eq + 1] + post;
    TrimKeepsOut(post, '{');
    TrimKeepsOut(post, '[');
  }

  /** Re-rendering `name = value` with a trimmed, `=`-free name and a
      trimmed, non-empty value gives it back. */
  lemma RenderedLine(name: string, value: string)
    requires IsTrimmed(name) && IsTrimmed(value) && value != []
    requires forall j :: 0 <= j < |name| ==> name[j] != '='
    requires !LooksLikeTable(name + " = " + value)
    ensures DepLine(name + " = " + value) == name + " = " + value
  {
    var line := name + " = " + value;
    NamedEntry(name, value);
    assert line[..|name| + 1] == name + " ";
    assert line[|name| + 2..] == " " + value;
    TrimPadded(" ", value, []);
    assert " " + value + [] == " " + value;
  }

  /** The `[package]` table of every generated manifest. */
  const PACKAGE_LINES: seq<string> :=
    ["[package]", "name = \"snippet\"", "version = \"0.1.0\"", "edition = \"2021\"", "", "[dependencies]"]

  function DepLines(deps: seq<string>): (lines: seq<string>)
    ensures |lines| == |deps|
    ensures forall i :: 0 <= i < |deps| ==> lines[i] == DepLine(deps[i])
  {
    seq(|deps|, i requires 0 <= i < |deps| => DepLine(deps[i]))
  }

  /** The `Cargo.toml` written for a Cargo build. */
  function Manifest(deps: seq<string>): string {
    Join(PACKAGE_LINES + [Join(DepLines(deps), "\n"), ""], "\n")
  }

  /** The manifest is the package table, then one line per entry, then a
      final line break. */
  lemma ManifestLayout(deps: seq<string>)
    ensures Manifest(deps) == Join(PACKAGE_LINES, "\n") + "\n" + Join(DepLines(deps), "\n") + "\n"
  {
    JoinThree(PACKAGE_LINES, [Join(DepLines(deps), "\n")], [""], "\n");
    assert PACKAGE_LINES + [Join(DepLines(deps), "\n")] + [""] == PACKAGE_LINES + [Join(DepLines(deps), "\n"), ""];
  }

  /** Every entry has its line in the manifest. */
  lemma ManifestHasEntry(deps: seq<string>, i: nat)
    requires i < |deps|
    ensures Contains(Manifest(deps), DepLine(deps[i]))
  {
    ManifestLayout(deps);
    var toml := Join(DepLines(deps), "\n");
    JoinHoldsPart(DepLines(deps), i, "\n");
    ContainsInside(Join(PACKAGE_LINES, "\n") + "\n", toml, "\n", DepLine(deps[i]));
  }

  /** Some line of the manifest built after injection is named `name`. */
  predicate DeclaresCrate(deps: seq<string>, name: string) {
    exists i :: 0 <= i < |deps| && DepName(DepLine(deps[i])) == name && Contains(Manifest(deps), DepLine(deps[i]))
  }

  /** The manifest built from any directive declares `serde` and
      `serde_json`. */
  lemma ManifestDeclaresSerde(depsStr: string)
    ensures DeclaresCrate(WithSerde(SplitTopLevel(depsStr)), "serde")
    ensures DeclaresCrate(WithSerde(SplitTopLevel(depsStr)), "serde_json")
  {
    var deps := WithSerde(SplitTopLevel(depsStr));
    SerdeDeclared(SplitTopLevel(depsStr));
    var i :| 0 <= i < |deps| && DepName(deps[i]) == "serde";
    DepLineKeepsName(deps[i]);
    ManifestHasEntry(deps, i);
    var j :| 0 <= j < |deps| && DepName(deps[j]) == "serde_json";
    DepLineKeepsName(deps[j]);
    ManifestHasEntry(deps, j);
  }
}
