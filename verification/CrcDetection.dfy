/**
 What a CRC-32 detects: any corruption confined to four consecutive bytes changes the checksum.
 */
module CrcDetection {
  import opened Bytes
  import opened Crc32

  /** A clock loses nothing: the top bit of the result tells whether the polynomial was added. */
  lemma TickInjective(x: word, y: word)
    requires Tick(x) == Tick(y)
    ensures x == y
  {
    assert Tick(x) & 0x8000_0000 == 0 <==> x & 1 != 1;
  }

  lemma {:induction false} TicksInjective(x: word, y: word, n: nat)
    requires Ticks(x, n) == Ticks(y, n)
    ensures x == y
    decreases n
  {
    hide Tick;
    if n > 0 {
      TicksInjective(Tick(x), Tick(y), n - 1);
      TickInjective(x, y);
    }
  }

  lemma {:induction false} TicksAdd(x: word, m: nat, n: nat)
    ensures Ticks(x, m + n) == Ticks(Ticks(x, m), n)
    decreases m
  {
    hide Tick;
    if m > 0 {
      TicksAdd(Tick(x), m - 1, n);
    }
  }

  lemma {:induction false} RegisterConcat(reg: word, a: seq<byte>, b: seq<byte>)
    ensures Register(reg, a + b) == Register(Register(reg, a), b)
    decreases |b|
  {
    hide Word;
    if b == [] {
      assert a + b == a;
    } else {
      assert (a + b)[..|a + b| - 1] == a + b[..|b| - 1];
      RegisterConcat(reg, a, b[..|b| - 1]);
    }
  }

  lemma {:induction false} RegisterInjective(r: word, q: word, data: seq<byte>)
    requires Register(r, data) == Register(q, data)
    ensures r == q
    decreases |data|
  {
    if data != [] {
      var front, b := data[..|data| - 1], data[|data| - 1];
      var r', q' := Register(r, front), Register(q, front);
      WordIsByte(b);
      ByteAtOnce(r', Word(b));
      ByteAtOnce(q', Word(b));
      hide Word, Xor, Tick, Clock, Above;
      TicksInjective(Xor(r', Word(b)), Xor(q', Word(b)), 8);
      XorLastInjective(r', q', Word(b));
      RegisterInjective(r, q, front);
    }
  }

  lemma XorLastInjective(x: word, y: word, c: word)
    requires Xor(x, c) == Xor(y, c)
    ensures x == y
  {
  }

  lemma XorFirstInjective(x: word, y: word, c: word)
    requires Xor(c, x) == Xor(c, y)
    ensures x == y
  {
  }

  function Up8(x: word): word { x << 8 }

  /** At most four bytes as one little-endian word. */
  function Pack(data: seq<byte>): word {
    if data == [] then 0 else Xor(Word(data[0]), Up8(Pack(data[1..])))
  }

  predicate TopClear(p: word) { p & 0xFF00_0000 == 0 }

  lemma DownXor(x: word, y: word)
    ensures Down8(Xor(x, y)) == Xor(Down8(x), Down8(y))
  {
  }

  lemma LowXor(x: word, y: word)
    ensures LowByte(Xor(x, y)) == Xor(LowByte(x), LowByte(y))
  {
  }

  lemma UpIsAbove(p: word)
    ensures LowByte(Up8(p)) == 0 && Above(Up8(p)) == Up8(p)
    ensures TopClear(p) ==> Down8(Up8(p)) == p
  {
  }

  lemma ByteParts(w: word)
    requires Above(w) == 0
    ensures LowByte(w) == w && Down8(w) == 0
  {
  }

  lemma XorZeroLeft(a: word)
    ensures Xor(0, a) == a
  {
  }

  /** A packed word comes apart into its first byte and the rest. */
  lemma Unpack(w: word, p: word)
    requires Above(w) == 0 && TopClear(p)
    ensures LowByte(Xor(w, Up8(p))) == w && Down8(Xor(w, Up8(p))) == p
  {
    hide *;
    DownXor(w, Up8(p));
    LowXor(w, Up8(p));
    UpIsAbove(p);
    ByteParts(w);
    XorZero(w);
    XorZeroLeft(p);
  }

  lemma TopClearIfSmall(p: word, k: nat)
    requires k <= 3 && Downs(p, k) == 0
    ensures TopClear(p)
    decreases 3 - k
  {
    if k == 3 {
      ThreeDowns(p);
    } else {
      DownsOneMore(p, k);
      TopClearIfSmall(p, k + 1);
    }
  }

  function Downs(w: word, k: nat): word
    decreases k
  {
    if k == 0 then w else Downs(Down8(w), k - 1)
  }

  lemma {:induction false} DownsOneMore(p: word, k: nat)
    ensures Downs(p, k + 1) == Down8(Downs(p, k))
    decreases k
  {
    hide Down8;
    if k > 0 {
      DownsOneMore(Down8(p), k - 1);
    }
  }

  lemma ThreeDowns(p: word)
    requires Downs(p, 3) == 0
    ensures TopClear(p)
  {
    assert Downs(p, 3) == Down8(Down8(Down8(p)));
    assert ((p >> 8) >> 8) >> 8 == 0;
  }

  lemma {:induction false} PackFits(data: seq<byte>)
    requires |data| <= 4
    ensures Downs(Pack(data), |data|) == 0
    ensures |data| <= 3 ==> TopClear(Pack(data))
    decreases |data|
  {
    hide Down8, Word, Up8, Xor, TopClear;
    if data != [] {
      PackFits(data[1..]);
      WordIsByte(data[0]);
      Unpack(Word(data[0]), Pack(data[1..]));
    }
    if |data| <= 3 {
      TopClearIfSmall(Pack(data), |data|);
    }
  }

  lemma {:induction false} PackInjective(x: seq<byte>, y: seq<byte>)
    requires |x| == |y| <= 4 && Pack(x) == Pack(y)
    ensures x == y
    decreases |x|
  {
    hide Down8, LowByte, Word, Up8, Xor, TopClear;
    if x != [] {
      PackFits(x[1..]);
      PackFits(y[1..]);
      WordIsByte(x[0]);
      WordIsByte(y[0]);
      Unpack(Word(x[0]), Pack(x[1..]));
      Unpack(Word(y[0]), Pack(y[1..]));
      WordInjective(x[0], y[0]);
      PackInjective(x[1..], y[1..]);
      assert x == [x[0]] + x[1..] && y == [y[0]] + y[1..];
    }
  }

  lemma WordInjective(b: byte, c: byte)
    requires Word(b) == Word(c)
    ensures b == c
  {
    BitsOfByte(b);
    BitsOfByte(c);
    assert b as bv8 == c as bv8;
  }

  /** A byte added after eight clocks might as well have been added, eight places up, before them. */
  lemma Absorb(y: word, v: word)
    requires TopClear(v)
    ensures Xor(Ticks(y, 8), v) == Ticks(Xor(y, Up8(v)), 8)
  {
    hide *;
    TicksLinear(y, Up8(v), 8);
    UpIsAbove(v);
    TicksAbove(Up8(v));
  }

  lemma RegisterOfOne(reg: word, b: byte)
    ensures Register(reg, [b]) == Ticks(Xor(reg, Word(b)), 8)
  {
    WordIsByte(b);
    ByteAtOnce(reg, Word(b));
    hide Word, Xor, Tick, Clock, Above;
    assert [b][..0] == [];
  }

  lemma PackIs(data: seq<byte>)
    requires data != []
    ensures Pack(data) == Xor(Word(data[0]), Up8(Pack(data[1..])))
  {
    hide Word, Up8, Xor;
  }

  lemma NothingPacked(reg: word)
    ensures Register(reg, []) == Ticks(Xor(reg, Pack([])), 0)
  {
    XorZero(reg);
  }

  /** Up to four bytes enter the register as one word. */
  lemma {:induction false} RegisterOfPack(reg: word, data: seq<byte>)
    requires |data| <= 4
    ensures Register(reg, data) == Ticks(Xor(reg, Pack(data)), 8 * |data|)
    decreases |data|
  {
    hide *;
    if data == [] {
      NothingPacked(reg);
    } else {
      var w, rest := Word(data[0]), data[1..];
      var first := Ticks(Xor(reg, w), 8);
      assert data == [data[0]] + rest;
      PackIs(data);
      RegisterConcat(reg, [data[0]], rest);
      RegisterOfOne(reg, data[0]);
      RegisterOfPack(first, rest);
      PackFits(rest);
      Absorb(Xor(reg, w), Pack(rest));
      XorAssoc(reg, w, Up8(Pack(rest)));
      TicksAdd(Xor(reg, Pack(data)), 8, 8 * |rest|);
    }
  }

  lemma ChecksumSeesRegister(a: seq<byte>, b: seq<byte>)
    requires Checksum(a) == Checksum(b)
    ensures Register(0xFFFF_FFFF, a) == Register(0xFFFF_FFFF, b)
  {
    var r, q := Register(0xFFFF_FFFF, a), Register(0xFFFF_FFFF, b);
    IntInjective(Xor(r, 0xFFFF_FFFF), Xor(q, 0xFFFF_FFFF));
    hide Xor;
    XorLastInjective(r, q, 0xFFFF_FFFF);
  }

  lemma IntInjective(x: word, y: word)
    requires x as int == y as int
    ensures x == y
  {
    ThereAndBack(x);
    ThereAndBack(y);
  }

  lemma ThereAndBack(x: word)
    ensures (x as int) as word == x
  {
  }

  /** Messages of equal length that differ only within four consecutive bytes never share a checksum. */
  lemma BurstDetected(pre: seq<byte>, x: seq<byte>, y: seq<byte>, post: seq<byte>)
    requires |x| == |y| <= 4 && x != y
    ensures Checksum(pre + x + post) != Checksum(pre + y + post)
  {
    if Checksum(pre + x + post) == Checksum(pre + y + post) {
      ChecksumSeesRegister(pre + x + post, pre + y + post);
      hide Checksum, Xor, Tick, Register;
      RegisterConcat(0xFFFF_FFFF, pre + x, post);
      RegisterConcat(0xFFFF_FFFF, pre + y, post);
      RegisterConcat(0xFFFF_FFFF, pre, x);
      RegisterConcat(0xFFFF_FFFF, pre, y);
      var r := Register(0xFFFF_FFFF, pre);
      RegisterInjective(Register(r, x), Register(r, y), post);
      RegisterOfPack(r, x);
      RegisterOfPack(r, y);
      TicksInjective(Xor(r, Pack(x)), Xor(r, Pack(y)), 8 * |x|);
      XorFirstInjective(Pack(x), Pack(y), r);
      PackInjective(x, y);
    }
  }

  /** In particular one changed byte is always seen. */
  lemma OneByteDetected(a: seq<byte>, i: nat, b: byte)
    requires i < |a| && a[i] != b
    ensures Checksum(a) != Checksum(a[i := b])
  {
    hide Checksum;
    assert a == a[..i] + [a[i]] + a[i + 1..];
    assert a[i := b] == a[..i] + [b] + a[i + 1..];
    BurstDetected(a[..i], [a[i]], [b], a[i + 1..]);
  }
}
