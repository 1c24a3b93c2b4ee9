/**
 The base32 bit accumulator of `cloud-tokens.ts`: its 32-bit accumulator overflows, and yet letter `i`
 is bits `5i..5i+4` of the input (section 6 of RFC 4648, without padding).
 */
module Base32 {
  import opened Bytes

  // ----- numbers and bits, most significant first -----

  function Pow2(n: nat): (p: nat)
    ensures p > 0
  {
    if n == 0 then 1 else 2 * Pow2(n - 1)
  }

  function Num(bits: seq<bool>): (n: nat)
    ensures n < Pow2(|bits|)
  {
    if bits == [] then 0 else 2 * Num(bits[..|bits| - 1]) + (if bits[|bits| - 1] then 1 else 0)
  }

  /** The low `n` bits of `v`. */
  function BitsOf(v: nat, n: nat): (bits: seq<bool>)
    ensures |bits| == n
  {
    if n == 0 then [] else BitsOf(v / 2, n - 1) + [v % 2 == 1]
  }

  function Stream(data: seq<byte>): (bits: seq<bool>)
    ensures |bits| == 8 * |data|
  {
    if data == [] then [] else Stream(data[..|data| - 1]) + BitsOf(data[|data| - 1], 8)
  }

  lemma {:induction false} NumOfBits(v: nat, n: nat)
    requires v < Pow2(n)
    ensures Num(BitsOf(v, n)) == v
    decreases n
  {
    if n > 0 {
      NumOfBits(v / 2, n - 1);
      assert BitsOf(v, n)[..n - 1] == BitsOf(v / 2, n - 1);
    }
  }

  lemma {:induction false} BitsOfNum(bits: seq<bool>)
    ensures BitsOf(Num(bits), |bits|) == bits
    decreases |bits|
  {
    if bits != [] {
      BitsOfNum(bits[..|bits| - 1]);
    }
  }

  lemma {:induction false} Pow2Add(m: nat, n: nat)
    ensures Pow2(m + n) == Pow2(m) * Pow2(n)
    decreases n
  {
    if n > 0 {
      Pow2Add(m, n - 1);
    }
  }

  lemma {:induction false} NumConcat(a: seq<bool>, b: seq<bool>)
    ensures Num(a + b) == Num(a) * Pow2(|b|) + Num(b)
    decreases |b|
  {
    hide Num, Pow2;
    if b == [] {
      assert a + b == a;
      PowerZero();
    } else {
      var front, bit := b[..|b| - 1], b[|b| - 1];
      assert a + b == (a + front) + [bit];
      assert b == front + [bit];
      NumConcat(a, front);
      LastBit(a + front, bit);
      LastBit(front, bit);
      Doubled(Num(a), Pow2(|front|));
    }
  }

  lemma LastBit(front: seq<bool>, bit: bool)
    ensures Num(front + [bit]) == 2 * Num(front) + (if bit then 1 else 0)
    ensures Pow2(|front| + 1) == 2 * Pow2(|front|)
  {
    assert (front + [bit])[..|front|] == front;
  }

  lemma PowerZero()
    ensures Pow2(0) == 1 && Num([]) == 0
  {
  }

  lemma Doubled(x: int, p: int)
    ensures x * (2 * p) == 2 * (x * p)
  {
  }

  /** A multiple of `m` strictly between `-m` and `m` is zero. */
  lemma SmallMultiple(d: int, m: int)
    requires m > 0 && -m < d * m < m
    ensures d == 0
  {
    assert (d - 1) * m < 0;
    assert (d + 1) * m > 0;
    Sign(d - 1, m);
    Sign(d + 1, m);
  }

  lemma Sign(d: int, m: int)
    requires m > 0
    ensures d >= 0 ==> d * m >= 0
    ensures d <= 0 ==> d * m <= 0
  {
  }

  /** Quotient and remainder are unique. */
  lemma DivMod(x: int, m: int, q: int, r: int)
    requires m > 0 && 0 <= r < m && x == q * m + r
    ensures x / m == q && x % m == r
  {
    var y, k := x % m, x / m;
    assert x == k * m + y;
    assert (k - q) * m == r - y;
    SmallMultiple(k - q, m);
  }

  // ----- letters -----

  const ALPHABET := "abcdefghijklmnopqrstuvwxyz234567"

  function LetterValue(c: char): nat {
    if 'a' <= c <= 'z' then c as int - 'a' as int else if '2' <= c <= '7' then c as int - '2' as int + 26 else 0
  }

  lemma LetterBack(v: nat)
    requires v < 32
    ensures LetterValue(ALPHABET[v]) == v
  {
  }

  /** Letter `i` of the encoding. */
  function LetterAt(bits: seq<bool>, i: nat): char
    requires 5 * i + 5 <= |bits|
  {
    assert Pow2(5) == 32;
    ALPHABET[Num(bits[5 * i..5 * i + 5])]
  }

  lemma ModOfMod(x: nat, m: nat, c: nat)
    requires m > 0 && c > 0 && m * c > 0
    ensures (x % (m * c)) % m == x % m
  {
    var y := x % (m * c);
    var k := x / (m * c);
    assert x == k * (m * c) + y;
    assert k * (m * c) == (k * c) * m;
    assert x == (k * c + y / m) * m + y % m;
    DivMod(x, m, k * c + y / m, y % m);
  }

  lemma AppendByte(v: nat, b: byte, m: nat)
    requires m > 0
    ensures (v * 0x100 + b) % (m * 0x100) == (v % m) * 0x100 + b
  {
    var q, r := v / m, v % m;
    assert v == q * m + r;
    assert v * 0x100 == q * (m * 0x100) + r * 0x100;
    DivMod(v * 0x100 + b, m * 0x100, q, r * 0x100 + b);
  }

  /** The accumulator keeps 32 bits, and of the twelve it needs nothing is lost. */
  lemma ShiftIn(value: nat, b: byte, bits: nat)
    requires bits <= 4
    ensures ((value * 0x100 + b) % 0x1_0000_0000) % Pow2(bits + 8) == (value % Pow2(bits)) * 0x100 + b
  {
    Pow2Add(bits, 8);
    Pow2Add(bits + 8, 24 - bits);
    BigPowers();
    hide Pow2;
    ModOfMod(value * 0x100 + b, Pow2(bits + 8), Pow2(24 - bits));
    AppendByte(value, b, Pow2(bits));
  }

  lemma BigPowers()
    ensures Pow2(5) == 32 && Pow2(8) == 0x100 && Pow2(32) == 0x1_0000_0000
  {
    SmallPowers();
    hide Pow2;
    Pow2Add(4, 4);
    Pow2Add(8, 8);
    Pow2Add(16, 16);
  }

  lemma SmallPowers()
    ensures Pow2(4) == 16 && Pow2(5) == 32
  {
    assert Pow2(2) == 4;
  }

  /** The top five of `k + 5` bits, and the `k` bits below them. */
  lemma TakeFive(value: nat, k: nat)
    ensures (value / Pow2(k)) % 32 == (value % Pow2(k + 5)) / Pow2(k)
    ensures value % Pow2(k) == (value % Pow2(k + 5)) % Pow2(k)
  {
    Pow2Add(k, 5);
    SmallPowers();
    hide Pow2;
    TopAndBottom(value, Pow2(k), 32);
  }

  lemma TopAndBottom(value: nat, p: nat, c: nat)
    requires p > 0 && c > 0 && p * c > 0
    ensures (value / p) % c == (value % (p * c)) / p
    ensures value % p == (value % (p * c)) % p
  {
    var y, q := value % (p * c), value / (p * c);
    ModOfMod(value, p, c);
    SplitTwice(value, p, c, q, y);
    DivMod(value, p, q * c + y / p, y % p);
    QuotientBelow(y, p, c);
    DivMod(value / p, c, q, y / p);
  }

  lemma SplitTwice(value: nat, p: nat, c: nat, q: nat, y: nat)
    requires p > 0 && value == q * (p * c) + y
    ensures value == (q * c + y / p) * p + y % p
  {
    assert q * (p * c) == (q * c) * p;
    assert y == (y / p) * p + y % p;
  }

  lemma QuotientBelow(y: nat, p: nat, c: nat)
    requires p > 0 && y < p * c
    ensures y / p < c
  {
    assert (y / p - c) * p < 0;
    Sign(y / p - c, p);
  }

  /** Cutting a bit string in two divides its number. */
  lemma NumSplit(bits: seq<bool>, k: nat)
    requires k <= |bits|
    ensures Num(bits) / Pow2(|bits| - k) == Num(bits[..k])
    ensures Num(bits) % Pow2(|bits| - k) == Num(bits[k..])
  {
    hide *;
    NumConcat(bits[..k], bits[k..]);
    assert bits == bits[..k] + bits[k..];
    DivMod(Num(bits), Pow2(|bits| - k), Num(bits[..k]), Num(bits[k..]));
  }

  // ----- the method -----

  /** `out` holds the first letters of `bits`, and the accumulator the bits not yet written. */
  ghost predicate Encoded(out: string, bits: seq<bool>) {
    5 * |out| <= |bits| && forall i :: 0 <= i < |out| ==> out[i] == LetterAt(bits, i)
  }

  method Base32(buf: seq<byte>) returns (out: string)
    ensures |out| == 8 * |buf| / 5
    ensures forall i :: 0 <= i < |out| ==> out[i] == LetterAt(Stream(buf), i)
  {
    hide Pow2, Num, LetterAt, Encoded, Stream, BitsOf;
    out := "";
    var bits: nat, value: nat := 0, 0;
    NothingEncoded(buf);
    for n := 0 to |buf|
      invariant Encoded(out, Stream(buf[..n])) && bits == 8 * n - 5 * |out| && bits <= 4
      invariant value < 0x1_0000_0000
      invariant value % Pow2(bits) == Num(Stream(buf[..n])[5 * |out|..])
    {
      ghost var s := Stream(buf[..n + 1]);
      OneMoreByte(buf, n, out, value, bits);
      value := (value * 0x100 + buf[n]) % 0x1_0000_0000;
      bits := bits + 8;
      while bits >= 5
        invariant bits <= 12 && Encoded(out, s) && bits == 8 * (n + 1) - 5 * |out|
        invariant value % Pow2(bits) == Num(s[5 * |out|..])
      {
        OneMoreLetter(s, out, value, bits);
        out := out + [ALPHABET[value / Pow2(bits - 5) % 32]];
        bits := bits - 5;
      }
    }
    assert buf[..|buf|] == buf;
    EncodedMeans(out, Stream(buf));
  }

  lemma NothingEncoded(buf: seq<byte>)
    ensures Encoded("", Stream(buf[..0])) && 0 % Pow2(0) == Num(Stream(buf[..0])[0..])
  {
    PowerZero();
    assert Stream(buf[..0]) == [];
  }

  lemma EncodedMeans(out: string, bits: seq<bool>)
    requires Encoded(out, bits)
    ensures 5 * |out| <= |bits| && forall i :: 0 <= i < |out| ==> out[i] == LetterAt(bits, i)
  {
    hide LetterAt;
  }

  lemma OneMoreByte(buf: seq<byte>, n: nat, out: string, value: nat, bits: nat)
    requires n < |buf| && Encoded(out, Stream(buf[..n])) && bits == 8 * n - 5 * |out| && bits <= 4
    requires value % Pow2(bits) == Num(Stream(buf[..n])[5 * |out|..])
    ensures var s := Stream(buf[..n + 1]);
      && Encoded(out, s)
      && (value * 0x100 + buf[n]) % 0x1_0000_0000 % Pow2(bits + 8) == Num(s[5 * |out|..])
  {
    hide Pow2, Num, BitsOf;
    var s, t, b := Stream(buf[..n + 1]), Stream(buf[..n]), BitsOf(buf[n], 8);
    assert buf[..n + 1][..n] == buf[..n];
    assert s == t + b;
    forall i | 0 <= i < |out|
      ensures out[i] == LetterAt(s, i)
    {
      assert s[5 * i..5 * i + 5] == t[5 * i..5 * i + 5];
    }
    ShiftIn(value, buf[n], bits);
    BigPowers();
    NumOfBits(buf[n], 8);
    NumConcat(t[5 * |out|..], b);
    assert s[5 * |out|..] == t[5 * |out|..] + b;
  }

  lemma OneMoreLetter(s: seq<bool>, out: string, value: nat, bits: nat)
    requires Encoded(out, s) && 5 <= bits == |s| - 5 * |out|
    requires value % Pow2(bits) == Num(s[5 * |out|..])
    ensures value / Pow2(bits - 5) % 32 < 32
    ensures Encoded(out + [ALPHABET[value / Pow2(bits - 5) % 32]], s)
    ensures value % Pow2(bits - 5) == Num(s[5 * (|out| + 1)..])
  {
    hide Pow2, Num;
    var left := s[5 * |out|..];
    TakeFive(value, bits - 5);
    NumSplit(left, 5);
    assert left[..5] == s[5 * |out|..5 * |out| + 5];
    assert left[5..] == s[5 * (|out| + 1)..];
  }

  // ----- decoding -----

  function Decode(out: string): seq<bool> {
    if out == "" then [] else Decode(out[..|out| - 1]) + BitsOf(LetterValue(out[|out| - 1]), 5)
  }

  /** Decoding gives back all but the last `8n mod 5` bits of the input. */
  lemma {:induction false} DecodeBack(bits: seq<bool>, out: string)
    requires 5 * |out| <= |bits| && forall i :: 0 <= i < |out| ==> out[i] == LetterAt(bits, i)
    ensures Decode(out) == bits[..5 * |out|]
    decreases |out|
  {
    hide LetterValue, Num, BitsOf;
    if out != "" {
      var i := |out| - 1;
      var five := bits[5 * i..5 * i + 5];
      DecodeBack(bits, out[..i]);
      BigPowers();
      LetterBack(Num(five));
      BitsOfNum(five);
      assert bits[..5 * i] + five == bits[..5 * |out|];
    }
  }
}
