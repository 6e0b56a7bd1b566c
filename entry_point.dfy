/** Detection of an existing entry point, as the regular expressions
    `/\bfn\s+main\s*\(/` (Rust) and `/\bint\s+main\s*\(/` (C++) do it: a
    keyword that starts a word, at least one whitespace character, `main`, any
    whitespace and an opening parenthesis. */
module EntryPoint {
  import opened JsText

  /** The characters `\w` matches; `\b` sits between a word character and
      anything else. */
  predicate IsWordChar(c: char) {
    ('a' <= c <= 'z') || ('A' <= c <= 'Z') || ('0' <= c <= '9') || c == '_'
  }

  /** The pattern matches at `k` for keyword `kw`. Greedy `\s+` and `\s*`
      stop at the first non-space, which is the only place `main` and `(`
      can follow. */
  predicate SignatureAt(code: string, kw: string, k: nat) {
    && k + |kw| <= |code|
    && code[k..k + |kw|] == kw
    && (k == 0 || !IsWordChar(code[k - 1]))
    && SpaceRunEnd(code, k + |kw|) > k + |kw|
    && MainCallAt(code, SpaceRunEnd(code, k + |kw|))
  }

  /** `main\s*\(` at `a`. */
  predicate MainCallAt(code: string, a: nat) {
    && a + 4 <= |code|
    && code[a..a + 4] == "main"
    && SpaceRunEnd(code, a + 4) < |code|
    && code[SpaceRunEnd(code, a + 4)] == '('
  }

  /** `regex.test(code)`: the pattern matches somewhere. */
  predicate HasSignature(code: string, kw: string) {
    exists k: nat :: k <= |code| && SignatureAt(code, kw, k)
  }

  /** The plainest signature, `kw main(` with one space, after a character
      that is not a word character, is recognised. */
  lemma PlainSignature(code: string, kw: string, k: nat)
    requires k + |kw| + 6 <= |code| && code[k..k + |kw|] == kw
    requires code[k + |kw|] == ' ' && code[k + |kw| + 1..k + |kw| + 5] == "main"
    requires code[k + |kw| + 5] == '('
    requires k == 0 || !IsWordChar(code[k - 1])
    ensures SignatureAt(code, kw, k)
  {
    var m := k + |kw|;
    assert SpaceRunEnd(code, m + 1) == m + 1;
    assert SpaceRunEnd(code, m + 5) == m + 5;
  }

  /** `kw main(` written after a non-word character is recognised. */
  lemma SignatureInText(pre: string, kw: string, rest: string)
    requires pre == [] || !IsWordChar(pre[|pre| - 1])
    ensures HasSignature(pre + kw + " main(" + rest, kw)
  {
    var code := pre + kw + " main(" + rest;
    var k := |pre|;
    assert code[k..k + |kw|] == kw;
    assert code[k + |kw|] == ' ';
    assert code[k + |kw| + 1..k + |kw| + 5] == "main";
    assert code[k + |kw| + 5] == '(';
    if k > 0 {
      assert code[k - 1] == pre[k - 1];
    }
    PlainSignature(code, kw, k);
  }

  /** Every signature names `main`: code that never mentions it has none. */
  lemma NoMainNoSignature(code: string, kw: string)
    ensures !Contains(code, "main") ==> !HasSignature(code, kw)
  {
    if HasSignature(code, kw) {
      var k: nat :| k <= |code| && SignatureAt(code, kw, k);
      var a := SpaceRunEnd(code, k + |kw|);
      assert OccursAt(code, "main", a);
      ContainsAt(code, "main", a);
    }
  }
}
