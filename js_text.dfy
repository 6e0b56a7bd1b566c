/** The JavaScript string operations the backends rely on (`trim`, `indexOf`,
    `includes`, `startsWith`, `endsWith`, `slice`, `join`, `split`), written out
    over `seq<char>` with their ECMAScript meaning. */
module JsText {

  /** ECMAScript WhiteSpace and LineTerminator: what `trim()` strips and what
      `\s` matches in a regular expression. */
  predicate IsSpace(c: char) {
    || c == '\t' || c == '\n' || c == '\U{000B}' || c == '\U{000C}' || c == '\r'
    || c == ' ' || c == '\U{00A0}' || c == '\U{1680}'
    || ('\U{2000}' <= c <= '\U{200A}')
    || c == '\U{2028}' || c == '\U{2029}' || c == '\U{202F}' || c == '\U{205F}'
    || c == '\U{3000}' || c == '\U{FEFF}'
  }

  /** The characters `.` refuses to match in a regular expression. */
  predicate IsLineTerminator(c: char) {
    c == '\n' || c == '\r' || c == '\U{2028}' || c == '\U{2029}'
  }

  predicate AllSpace(s: string) {
    forall i :: 0 <= i < |s| ==> IsSpace(s[i])
  }

  /** Neither end of `s` is whitespace. */
  predicate IsTrimmed(s: string) {
    s == [] || (!IsSpace(s[0]) && !IsSpace(s[|s| - 1]))
  }

  /** The end of the run of whitespace that starts at `i`. */
  function SpaceRunEnd(s: string, i: nat): (r: nat)
    requires i <= |s|
    ensures i <= r <= |s|
    ensures r < |s| ==> !IsSpace(s[r])
    decreases |s| - i
  {
    if i == |s| || !IsSpace(s[i]) then i else SpaceRunEnd(s, i + 1)
  }

  lemma {:induction false} SpaceRunEndSpaces(s: string, i: nat)
    requires i <= |s|
    ensures forall k :: i <= k < SpaceRunEnd(s, i) ==> IsSpace(s[k])
    decreases |s| - i
  {
    if i < |s| && IsSpace(s[i]) {
      SpaceRunEndSpaces(s, i + 1);
    }
  }

  /** The start of the run of whitespace that ends at `j`, not going below `lo`. */
  function SpaceRunStart(s: string, lo: nat, j: nat): (r: nat)
    requires lo <= j <= |s|
    ensures lo <= r <= j
    ensures lo < r ==> !IsSpace(s[r - 1])
    decreases j
  {
    if j == lo || !IsSpace(s[j - 1]) then j else SpaceRunStart(s, lo, j - 1)
  }

  lemma {:induction false} SpaceRunStartSpaces(s: string, lo: nat, j: nat)
    requires lo <= j <= |s|
    ensures forall k :: SpaceRunStart(s, lo, j) <= k < j ==> IsSpace(s[k])
    decreases j
  {
    if j > lo && IsSpace(s[j - 1]) {
      SpaceRunStartSpaces(s, lo, j - 1);
    }
  }

  /** `s.trim()`: the part of `s` between its leading and its trailing
      whitespace. */
  function Trim(s: string): (r: string)
    ensures IsTrimmed(r) && |r| <= |s|
  {
    var a := SpaceRunEnd(s, 0);
    s[a..SpaceRunStart(s, a, |s|)]
  }

  /** What `Trim` removes is whitespace on both sides. */
  lemma TrimSplits(s: string) returns (before: string, after: string)
    ensures AllSpace(before) && AllSpace(after)
    ensures s == before + Trim(s) + after
  {
    var a := SpaceRunEnd(s, 0);
    var b := SpaceRunStart(s, a, |s|);
    SpaceRunEndSpaces(s, 0);
    SpaceRunStartSpaces(s, a, |s|);
    before, after := s[..a], s[b..];
    assert s[..a] + s[a..b] == s[..b];
    assert s[..b] + s[b..] == s;
  }

  /** Trimming removes exactly the whitespace around a trimmed core: together
      with `IsTrimmed(Trim(s))` this pins `Trim` down completely. */
  lemma TrimPadded(before: string, core: string, after: string)
    requires AllSpace(before) && AllSpace(after) && IsTrimmed(core)
    ensures Trim(before + core + after) == core
  {
    var s := before + core + after;
    var a := SpaceRunEnd(s, 0);
    var b := SpaceRunStart(s, a, |s|);
    SpaceRunEndSpaces(s, 0);
    SpaceRunStartSpaces(s, a, |s|);
    forall k | 0 <= k < |before| ensures IsSpace(s[k]) {
      assert s[k] == before[k];
    }
    forall k | |before| + |core| <= k < |s| ensures IsSpace(s[k]) {
      assert s[k] == after[k - |before| - |core|];
    }
    if core == [] {
      assert a == |s|;
    } else {
      assert s[|before|] == core[0];
      assert a == |before|;
      assert s[|before| + |core| - 1] == core[|core| - 1];
      assert b == |before| + |core|;
      assert s[a..b] == core;
    }
  }

  lemma TrimOfTrimmed(s: string)
    requires IsTrimmed(s)
    ensures Trim(s) == s
  {
    TrimPadded([], s, []);
    assert [] + s + [] == s;
  }

  lemma AllSpaceConcat(x: string, y: string)
    requires AllSpace(x) && AllSpace(y)
    ensures AllSpace(x + y)
  {
    forall i | 0 <= i < |x + y| ensures IsSpace((x + y)[i]) {
      if i < |x| { assert (x + y)[i] == x[i]; } else { assert (x + y)[i] == y[i - |x|]; }
    }
  }

  lemma TrimDropsTrailingSpace(s: string, pad: string)
    requires AllSpace(pad)
    ensures Trim(s + pad) == Trim(s)
  {
    var before, after := TrimSplits(s);
    AllSpaceConcat(after, pad);
    assert s + pad == before + Trim(s) + (after + pad);
    TrimPadded(before, Trim(s), after + pad);
  }

  /** `p` occurs in `t` at index `k`. */
  predicate OccursAt(t: string, p: string, k: int) {
    0 <= k && k + |p| <= |t| && t[k..k + |p|] == p
  }

  /** The characters of an occurrence are those of the pattern. */
  lemma OccursAtIndex(t: string, p: string, k: int, i: int)
    ensures OccursAt(t, p, k) && 0 <= i < |p| ==> t[k + i] == p[i]
  {
    if OccursAt(t, p, k) && 0 <= i < |p| {
      assert t[k..k + |p|][i] == t[k + i];
    }
  }

  /** An occurrence that lies inside `t[lo..hi]` is one of the slice. */
  lemma OccursInSlice(t: string, lo: nat, hi: nat, p: string, j: nat)
    requires lo <= j && j + |p| <= hi <= |t|
    ensures OccursAt(t[lo..hi], p, j - lo) <==> OccursAt(t, p, j)
  {
    var x := t[lo..hi][j - lo..j - lo + |p|];
    var y := t[j..j + |p|];
    forall i | 0 <= i < |p| ensures x[i] == y[i] {
      assert x[i] == t[lo..hi][j - lo + i];
    }
    assert x == y;
  }

  /** `t.indexOf(p, from)`: the first occurrence at or after `from`, or -1.
      Every call in the backends passes a start index within the string. */
  function IndexOf(t: string, p: string, from: nat): (r: int)
    requires from <= |t|
    ensures r == -1 || (from <= r && OccursAt(t, p, r))
    decreases |t| - from
  {
    if from + |p| > |t| then -1
    else if t[from..from + |p|] == p then from
    else IndexOf(t, p, from + 1)
  }

  /** No occurrence lies between `from` and the one `IndexOf` finds. */
  lemma {:induction false} IndexOfFirst(t: string, p: string, from: nat, k: int)
    requires from <= |t| && from <= k
    ensures OccursAt(t, p, k) ==> IndexOf(t, p, from) != -1 && IndexOf(t, p, from) <= k
    decreases |t| - from
  {
    if from < k && !OccursAt(t, p, from) && from < |t| {
      IndexOfFirst(t, p, from + 1, k);
    }
  }

  /** The first occurrence at or after `from` is the one at `k`. */
  lemma IndexOfIs(t: string, p: string, from: nat, k: int)
    requires from <= |t| && from <= k && OccursAt(t, p, k)
    requires forall j :: from <= j < k ==> !OccursAt(t, p, j)
    ensures IndexOf(t, p, from) == k
  {
    IndexOfFirst(t, p, from, k);
  }

  /** `t.includes(p)`. */
  predicate Contains(t: string, p: string) {
    IndexOf(t, p, 0) != -1
  }

  lemma ContainsAt(t: string, p: string, k: nat)
    ensures OccursAt(t, p, k) ==> Contains(t, p)
  {
    IndexOfFirst(t, p, 0, k);
  }

  /** An occurrence inside `b` is an occurrence inside `a + b + c`. */
  lemma ContainsInside(a: string, b: string, c: string, p: string)
    ensures Contains(b, p) ==> Contains(a + b + c, p)
  {
    var k := IndexOf(b, p, 0);
    if k != -1 {
      var t := a + b + c;
      assert t[|a|..|a| + |b|] == b;
      OccursInSlice(t, |a|, |a| + |b|, p, |a| + k);
      ContainsAt(t, p, |a| + k);
    }
  }

  /** Trimming cannot make a pattern appear. */
  lemma ContainsTrimmed(s: string, p: string)
    ensures Contains(Trim(s), p) ==> Contains(s, p)
  {
    var before, after := TrimSplits(s);
    ContainsInside(before, Trim(s), after, p);
  }

  /** `t.startsWith(p)`. */
  predicate StartsWith(t: string, p: string) {
    |p| <= |t| && t[..|p|] == p
  }

  /** `t.endsWith(p)`. */
  predicate EndsWith(t: string, p: string) {
    |p| <= |t| && t[|t| - |p|..] == p
  }

  /** `t.slice(a, b)` for indices inside the string: empty when `a >= b`. */
  function Slice(t: string, a: nat, b: nat): (r: string)
    requires a <= |t| && b <= |t|
    ensures a <= b ==> r == t[a..b]
    ensures b <= a ==> r == []
  {
    if a < b then t[a..b] else []
  }

  /** `parts.join(sep)`. */
  function Join(parts: seq<string>, sep: string): string
  {
    if |parts| == 0 then []
    else if |parts| == 1 then parts[0]
    else Join(parts[..|parts| - 1], sep) + sep + parts[|parts| - 1]
  }

  /** Joining two non-empty lists puts one separator between their joins. */
  lemma {:induction false} JoinAppend(a: seq<string>, b: seq<string>, sep: string)
    requires a != [] && b != []
    ensures Join(a + b, sep) == Join(a, sep) + sep + Join(b, sep)
    decreases |b|
  {
    if |b| == 1 {
      assert (a + b)[..|a + b| - 1] == a;
    } else {
      var b' := b[..|b| - 1];
      assert (a + b)[..|a + b| - 1] == a + b';
      JoinAppend(a, b', sep);
    }
  }

  /** `s.split(c)` for a one-character separator: the pieces between the
      occurrences of `c`, built up one character at a time. */
  function Split(s: string, c: char): (r: seq<string>)
    ensures |r| >= 1
  {
    if s == [] then [[]]
    else
      var prev := Split(s[..|s| - 1], c);
      if s[|s| - 1] == c then prev + [[]]
      else prev[..|prev| - 1] + [prev[|prev| - 1] + [s[|s| - 1]]]
  }

  /** Joining the pieces of a split with the separator gives the string back. */
  lemma {:induction false} JoinSplit(s: string, c: char)
    ensures Join(Split(s, c), [c]) == s
  {
    if s != [] {
      var init := s[..|s| - 1];
      var x := s[|s| - 1];
      var prev := Split(init, c);
      assert init + [x] == s;
      JoinSplit(init, c);
      if x == c {
        JoinSnoc(prev, [], [c]);
      } else {
        JoinExtendLast(prev, [x], [c]);
      }
    }
  }

  lemma JoinSnoc(parts: seq<string>, last: string, sep: string)
    requires parts != []
    ensures Join(parts + [last], sep) == Join(parts, sep) + sep + last
  {
    assert (parts + [last])[..|parts|] == parts;
  }

  /** Appending to the last piece appends to the join. */
  lemma JoinExtendLast(parts: seq<string>, tail: string, sep: string)
    requires parts != []
    ensures Join(parts[..|parts| - 1] + [parts[|parts| - 1] + tail], sep) == Join(parts, sep) + tail
  {
    var init := parts[..|parts| - 1];
    var last := parts[|parts| - 1];
    if init == [] {
      assert init + [last + tail] == [last + tail];
      assert parts == [last];
    } else {
      JoinSnoc(init, last + tail, sep);
      assert init + [last] == parts;
      JoinSnoc(init, last, sep);
    }
  }

  /** No piece of a split contains the separator. */
  lemma {:induction false} SplitPiecesFree(s: string, c: char)
    ensures forall k, i :: 0 <= k < |Split(s, c)| && 0 <= i < |Split(s, c)[k]| ==> Split(s, c)[k][i] != c
  {
    if s != [] {
      SplitPiecesFree(s[..|s| - 1], c);
    }
  }

  /** Joining three non-empty runs of parts. */
  lemma JoinThree(a: seq<string>, m: seq<string>, b: seq<string>, sep: string)
    requires a != [] && m != [] && b != []
    ensures Join(a + m + b, sep) == Join(a, sep) + sep + Join(m, sep) + sep + Join(b, sep)
  {
    assert a + m + b == a + (m + b);
    JoinAppend(a, m + b, sep);
    JoinAppend(m, b, sep);
  }

  /** The join of parts holds the join of any non-empty run of them. */
  lemma JoinHoldsMiddle(a: seq<string>, m: seq<string>, b: seq<string>, sep: string)
    requires a != [] && m != [] && b != []
    ensures Contains(Join(a + m + b, sep), Join(m, sep))
  {
    JoinThree(a, m, b, sep);
    var pre := Join(a, sep) + sep;
    var post := sep + Join(b, sep);
    assert Join(a + m + b, sep) == pre + Join(m, sep) + post;
    TextContainsItself(Join(m, sep));
    ContainsInside(pre, Join(m, sep), post, Join(m, sep));
  }

  lemma TextContainsItself(t: string)
    ensures Contains(t, t)
  {
    assert t[0..|t|] == t;
    ContainsAt(t, t, 0);
  }

  /** Every part is found in the join. */
  lemma JoinHoldsPart(parts: seq<string>, i: nat, sep: string)
    requires i < |parts|
    ensures Contains(Join(parts, sep), parts[i])
  {
    if |parts| == 1 {
      TextContainsItself(parts[0]);
    } else if i == 0 {
      assert parts == [parts[0]] + parts[1..];
      JoinHoldsFirst(parts[0], parts[1..], sep);
    } else if i == |parts| - 1 {
      assert parts == parts[..i] + [parts[i]];
      JoinHoldsLast(parts[..i], parts[i], sep);
    } else {
      assert parts == parts[..i] + [parts[i]] + parts[i + 1..];
      JoinHoldsMiddle(parts[..i], [parts[i]], parts[i + 1..], sep);
    }
  }

  lemma JoinHoldsFirst(p: string, rest: seq<string>, sep: string)
    requires rest != []
    ensures Contains(Join([p] + rest, sep), p)
  {
    JoinAppend([p], rest, sep);
    TextContainsItself(p);
    ContainsInside([], p, sep + Join(rest, sep), p);
    assert [] + p + (sep + Join(rest, sep)) == Join([p] + rest, sep);
  }

  lemma JoinHoldsLast(init: seq<string>, p: string, sep: string)
    requires init != []
    ensures Contains(Join(init + [p], sep), p)
  {
    JoinSnoc(init, p, sep);
    TextContainsItself(p);
    ContainsInside(Join(init, sep) + sep, p, [], p);
    assert Join(init, sep) + sep + p + [] == Join(init + [p], sep);
  }
}
