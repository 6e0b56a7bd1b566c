/** Snippet assembly shared by every backend: literal fragments of a tagged
    template and the interpolated values, zipped positionally. Values are taken
    as the text the host language renders them to (`String(v)` in the Rust and
    C++ backends); the Go and PHP backends see a value as possibly absent
    (`null`/`undefined`), which contributes nothing. */
module Templates {
  import opened Results

  /** The text `interleaveTemplate` has built after its first `n` iterations:
      each iteration appends fragment `i` and then value `i` when there is one. */
  function InterleavedPrefix(fragments: seq<string>, values: seq<string>, n: nat): string
    requires n <= |fragments|
  {
    if n == 0 then []
    else
      InterleavedPrefix(fragments, values, n - 1) + fragments[n - 1]
      + (if n - 1 < |values| then values[n - 1] else [])
  }

  /** The whole interleaving: one iteration per fragment. */
  function Interleaved(fragments: seq<string>, values: seq<string>): string
  {
    InterleavedPrefix(fragments, values, |fragments|)
  }

  /** Reference reading of a well-formed snippet (one more fragment than
      values): `fragment[0] + value[0] + fragment[1] + ... + fragment[n]`. */
  function Zipped(fragments: seq<string>, values: seq<string>): string
    requires |fragments| == |values| + 1
    decreases |values|
  {
    if values == [] then fragments[0]
    else fragments[0] + values[0] + Zipped(fragments[1..], values[1..])
  }

  lemma {:induction false} ZippedSnoc(fragments: seq<string>, values: seq<string>, v: string, f: string)
    requires |fragments| == |values| + 1
    ensures Zipped(fragments + [f], values + [v]) == Zipped(fragments, values) + v + f
    decreases |values|
  {
    if values == [] {
      assert (fragments + [f])[1..] == [f];
      assert (values + [v])[1..] == [];
    } else {
      assert (fragments + [f])[1..] == fragments[1..] + [f];
      assert (values + [v])[1..] == values[1..] + [v];
      ZippedSnoc(fragments[1..], values[1..], v, f);
    }
  }

  /** The prefix built so far only looks at the fragments it has consumed. */
  lemma {:induction false} PrefixOfTake(fragments: seq<string>, values: seq<string>, n: nat, m: nat)
    requires n <= m <= |fragments|
    ensures InterleavedPrefix(fragments, values, n) == InterleavedPrefix(fragments[..m], values, n)
  {
    if n > 0 {
      PrefixOfTake(fragments, values, n - 1, m);
    }
  }

  /** ... and only at the values it has consumed. */
  lemma {:induction false} PrefixOfValues(fragments: seq<string>, values: seq<string>, n: nat, m: nat)
    requires n <= |fragments| && n <= m <= |values|
    ensures InterleavedPrefix(fragments, values, n) == InterleavedPrefix(fragments, values[..m], n)
  {
    if n > 0 {
      PrefixOfValues(fragments, values, n - 1, m);
    }
  }

  /** With `n` values and `n + 1` fragments the interleaving is the zip. */
  lemma {:induction false} InterleavedIsZipped(fragments: seq<string>, values: seq<string>)
    requires |fragments| == |values| + 1
    ensures Interleaved(fragments, values) == Zipped(fragments, values)
    decreases |values|
  {
    if values == [] {
      assert InterleavedPrefix(fragments, values, 1) == [] + fragments[0] + [];
    } else {
      var k := |values|;
      var f' := fragments[..k];
      var v' := values[..k - 1];
      calc {
        Interleaved(fragments, values);
        InterleavedPrefix(fragments, values, k) + fragments[k];
        { PrefixOfTake(fragments, values, k, k); }
        InterleavedPrefix(f', values, k) + fragments[k];
        InterleavedPrefix(f', values, k - 1) + f'[k - 1] + values[k - 1] + fragments[k];
        { PrefixOfValues(f', values, k - 1, k - 1); }
        InterleavedPrefix(f', v', k - 1) + f'[k - 1] + values[k - 1] + fragments[k];
        Interleaved(f', v') + values[k - 1] + fragments[k];
        { InterleavedIsZipped(f', v'); }
        Zipped(f', v') + values[k - 1] + fragments[k];
        { ZippedSnoc(f', v', values[k - 1], fragments[k]); }
        Zipped(f' + [fragments[k]], v' + [values[k - 1]]);
        { assert f' + [fragments[k]] == fragments; assert v' + [values[k - 1]] == values; }
        Zipped(fragments, values);
      }
    }
  }

  /** `interleaveTemplate`: appends each fragment and then, while there is
      one, the value of the same index. */
  method InterleaveTemplate(fragments: seq<string>, values: seq<string>) returns (out: string)
    ensures out == Interleaved(fragments, values)
  {
    out := [];
    for i := 0 to |fragments|
      invariant out == InterleavedPrefix(fragments, values, i)
    {
      out := out + fragments[i];
      if i < |values| {
        out := out + values[i];
      }
    }
  }

  /** Values past the last fragment are never emitted. */
  lemma ExtraValuesIgnored(fragments: seq<string>, values: seq<string>)
    requires |values| >= |fragments|
    ensures Interleaved(fragments, values) == Interleaved(fragments, values[..|fragments|])
  {
    PrefixOfValues(fragments, values, |fragments|, |fragments|);
  }

  /** A snippet as the Go and PHP backends receive it: either a plain string,
      or a tagged template whose values may be `null`/`undefined` (`None`). */
  datatype Snippet =
    | Source(code: string)
    | Template(fragments: seq<string>, values: seq<Option<string>>)

  /** `values[i] ?? ''`, where an index past the end reads `undefined`. */
  function ValueOrEmpty(values: seq<Option<string>>, i: nat): string
  {
    if i < |values| && values[i].Some? then values[i].value else []
  }

  /** `strings.reduce((acc, str, i) => acc + str + (values[i] ?? ''), '')`
      over the first `n` fragments. */
  function Reduced(fragments: seq<string>, values: seq<Option<string>>, n: nat): string
    requires n <= |fragments|
  {
    if n == 0 then []
    else Reduced(fragments, values, n - 1) + fragments[n - 1] + ValueOrEmpty(values, n - 1)
  }

  /** Absent values rendered as the empty text. */
  function Texts(values: seq<Option<string>>): (r: seq<string>)
    ensures |r| == |values|
    ensures forall i :: 0 <= i < |values| ==> r[i] == ValueOrEmpty(values, i)
  {
    seq(|values|, i requires 0 <= i < |values| => ValueOrEmpty(values, i))
  }

  lemma {:induction false} ReducedIsInterleaved(fragments: seq<string>, values: seq<Option<string>>, n: nat)
    requires n <= |fragments|
    ensures Reduced(fragments, values, n) == InterleavedPrefix(fragments, Texts(values), n)
  {
    if n > 0 {
      ReducedIsInterleaved(fragments, values, n - 1);
    }
  }

  /** The code a Go or PHP call runs: a plain string unchanged, a template
      zipped like `interleaveTemplate` with every absent value read as `''`. */
  function SnippetCode(s: Snippet): (r: string)
    ensures s.Source? ==> r == s.code
    ensures s.Template? ==> r == Interleaved(s.fragments, Texts(s.values))
  {
    match s
    case Source(code) => code
    case Template(fragments, values) =>
      ReducedIsInterleaved(fragments, values, |fragments|);
      Reduced(fragments, values, |fragments|)
  }
}
