/**
 JavaScript strings as sequences of UTF-16 code units, lone surrogates included, and `replace` on them.
 */
module Units {
  import opened Options

  type unit = u: int | 0 <= u < 0x1_0000

  type Str = seq<unit>

  /** An ASCII literal. */
  function Ascii(s: string): (r: Str)
    ensures |r| == |s|
  {
    seq(|s|, i requires 0 <= i < |s| => s[i] as int % 0x80)
  }

  predicate IsHigh(u: unit) { 0xD800 <= u <= 0xDBFF }

  predicate IsLow(u: unit) { 0xDC00 <= u <= 0xDFFF }

  predicate StartsWithPair(s: Str) {
    |s| >= 2 && IsHigh(s[0]) && IsLow(s[1])
  }

  /** What follows `word` at the start of `t`. */
  function Expect<T(==)>(t: seq<T>, word: seq<T>): (r: Option<seq<T>>)
    ensures r.Some? ==> |r.value| + |word| == |t|
  {
    if |word| <= |t| && t[..|word|] == word then Some(t[|word|..]) else None
  }

  lemma ExpectBack<T>(word: seq<T>, rest: seq<T>)
    ensures Expect(word + rest, word) == Some(rest)
  {
  }

  /** `replace` with a global one-unit pattern. */
  function Replace(s: Str, u: unit, out: Str): Str {
    if s == [] then [] else (if s[0] == u then out else [s[0]]) + Replace(s[1..], u, out)
  }

  lemma {:induction false} ReplaceConcat(a: Str, b: Str, u: unit, out: Str)
    ensures Replace(a + b, u, out) == Replace(a, u, out) + Replace(b, u, out)
    decreases |a|
  {
    if a == [] {
      assert a + b == b;
    } else {
      assert (a + b)[1..] == a[1..] + b;
      ReplaceConcat(a[1..], b, u, out);
    }
  }

  lemma {:induction false} ReplaceAbsent(s: Str, u: unit, out: Str)
    requires u !in s
    ensures Replace(s, u, out) == s
    decreases |s|
  {
    if s != [] {
      ReplaceAbsent(s[1..], u, out);
    }
  }

  lemma ReplaceOne(u: unit, v: unit, out: Str)
    ensures Replace([u], v, out) == if u == v then out else [u]
  {
    assert [u][1..] == [];
  }
}
