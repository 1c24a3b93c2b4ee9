/**
 The checksum of `document-tokens.ts`: a CRC-32 that looks up one table entry a byte,
 proved against the one-bit-at-a-time register of section 8 of RFC 1952.
 */
module Crc32 {
  import opened Bytes

  type word = bv32

  const POLY: word := 0xEDB8_8320

  function Xor(x: word, y: word): word { x ^ y }

  function Half(x: word): word { x >> 1 }

  predicate Odd(x: word) { x & 1 == 1 }

  // ----- the specification: a shift register that takes the message bit by bit -----

  /** One clock of the register: the polynomial is added when the bit shifted out differs from the message bit. */
  function Clock(reg: word, bit: bool): word {
    if Odd(reg) != bit then Xor(POLY, Half(reg)) else Half(reg)
  }

  /** The `n` low bits of `w` enter the register, least significant bit first. */
  function ClockBits(reg: word, w: word, n: nat): word
    decreases n
  {
    if n == 0 then reg else ClockBits(Clock(reg, Odd(w)), Half(w), n - 1)
  }

  function Word(b: byte): (w: word)
    ensures w & 0xFFFF_FF00 == 0
  {
    (b as bv8) as word
  }

  /** The register after a whole message. */
  function Register(reg: word, data: seq<byte>): word {
    if data == [] then reg
    else ClockBits(Register(reg, data[..|data| - 1]), Word(data[|data| - 1]), 8)
  }

  /** The checksum, as the number that fills a 32-bit field. */
  function Checksum(data: seq<byte>): (n: nat)
    ensures n < 0x1_0000_0000
  {
    Xor(Register(0xFFFF_FFFF, data), 0xFFFF_FFFF) as int
  }

  // ----- exclusive or and the clock -----

  /** One clock with no message bit: the step of the loop that fills the table. */
  function Tick(x: word): word {
    if Odd(x) then Xor(POLY, Half(x)) else Half(x)
  }

  function Ticks(x: word, n: nat): word
    decreases n
  {
    if n == 0 then x else Ticks(Tick(x), n - 1)
  }

  lemma XorLaws(p: word, a: word, b: word)
    ensures Xor(Xor(p, a), Xor(p, b)) == Xor(a, b)
    ensures Xor(Xor(p, a), b) == Xor(p, Xor(a, b))
    ensures Xor(a, Xor(p, b)) == Xor(p, Xor(a, b))
  {
    XorCancel(p, a, b); XorAssoc(p, a, b); XorSwap(p, a, b);
    hide Xor;
  }

  lemma XorCancel(p: word, a: word, b: word)
    ensures Xor(Xor(p, a), Xor(p, b)) == Xor(a, b)
  {
    hide Xor;
    XorAssoc(p, a, Xor(p, b));
    XorSwap(p, a, b);
    XorTwice(p, Xor(a, b));
  }

  lemma XorTwice(p: word, c: word)
    ensures Xor(p, Xor(p, c)) == c
  {
  }

  lemma XorAssoc(p: word, a: word, b: word)
    ensures Xor(Xor(p, a), b) == Xor(p, Xor(a, b))
  {
  }

  lemma XorSwap(p: word, a: word, b: word)
    ensures Xor(a, Xor(p, b)) == Xor(p, Xor(a, b))
  {
  }

  lemma XorZero(a: word)
    ensures Xor(a, 0) == a
  {
  }

  lemma XorBits(x: word, y: word)
    ensures Half(Xor(x, y)) == Xor(Half(x), Half(y))
    ensures Odd(Xor(x, y)) <==> (Odd(x) != Odd(y))
  {
  }

  lemma TickLinear(x: word, y: word)
    ensures Tick(Xor(x, y)) == Xor(Tick(x), Tick(y))
  {
    hide Xor, Half, Odd;
    XorBits(x, y);
    XorLaws(POLY, Half(x), Half(y));
  }

  lemma {:induction false} TicksLinear(x: word, y: word, n: nat)
    ensures Ticks(Xor(x, y), n) == Xor(Ticks(x, n), Ticks(y, n))
    decreases n
  {
    hide Xor, Half, Odd, Tick;
    if n > 0 {
      TickLinear(x, y);
      TicksLinear(Tick(x), Tick(y), n - 1);
    }
  }

  /** A message bit that enters at the clock might as well have been added to the register before it. */
  lemma FoldBit(reg: word, w: word)
    ensures Tick(Xor(reg, w)) == Xor(Clock(reg, Odd(w)), Half(w))
  {
    hide Xor, Half, Odd;
    XorBits(reg, w);
    XorLaws(POLY, Half(reg), Half(w));
  }

  /** What is left of `w` after its `n` low bits have gone. */
  function Rest(w: word, n: nat): word
    decreases n
  {
    if n == 0 then w else Rest(Half(w), n - 1)
  }

  lemma {:induction false} FoldBits(reg: word, w: word, n: nat)
    ensures Ticks(Xor(reg, w), n) == Xor(ClockBits(reg, w, n), Rest(w, n))
    decreases n
  {
    hide Xor, Half, Odd, Tick, Clock;
    if n > 0 {
      FoldBit(reg, w);
      FoldBits(Clock(reg, Odd(w)), Half(w), n - 1);
    }
  }

  // ----- one table lookup is worth eight clocks -----

  /** The low byte of a register, and the register without it. */
  function LowByte(x: word): word { x & 0xFF }

  function Above(x: word): word { x & 0xFFFF_FF00 }

  function Down8(x: word): word { x >> 8 }

  lemma Halves(x: word, reg: word, w: word)
    requires Above(w) == 0
    ensures x == Xor(LowByte(x), Above(x))
    ensures Down8(Above(Xor(reg, w))) == Down8(reg)
  {
  }

  function Half4(x: word): word { Half(Half(Half(Half(x)))) }

  predicate FourLowClear(x: word) { x & 0xF == 0 }

  lemma Half4Shifts(x: word)
    ensures Half4(x) == x >> 4
  {
  }

  lemma FourLowClearMeans(x: word)
    requires FourLowClear(x)
    ensures !Odd(x) && !Odd(Half(x)) && !Odd(Half(Half(x))) && !Odd(Half(Half(Half(x))))
  {
  }

  lemma AboveShifts(x: word)
    ensures FourLowClear(Above(x)) && FourLowClear(Above(x) >> 4)
    ensures (Above(x) >> 4) >> 4 == Down8(Above(x))
  {
  }

  lemma FourEven(y: word, n: nat)
    requires FourLowClear(y)
    ensures Ticks(y, n + 4) == Ticks(y >> 4, n)
  {
    FourLowClearMeans(y);
    Half4Shifts(y);
    hide Odd, Half, FourLowClear;
    var y2 := Half(Half(y));
    assert Ticks(y, n + 4) == Ticks(Half(y), n + 3) == Ticks(y2, n + 2);
    assert Ticks(y2, n + 2) == Ticks(Half(y2), n + 1) == Ticks(Half(Half(y2)), n);
  }

  /** With nothing in its low byte the register only moves. */
  lemma TicksAbove(x: word)
    ensures Ticks(Above(x), 8) == Down8(Above(x))
  {
    hide Odd, Half, FourLowClear, Above, Down8;
    AboveShifts(x);
    FourEven(Above(x), 4);
    FourEven(Above(x) >> 4, 0);
  }

  lemma NothingLeft(w: word)
    requires Above(w) == 0
    ensures Rest(w, 8) == 0
  {
    assert Half(Half(Half(Half(Half(Half(Half(Half(w)))))))) == 0;
  }

  lemma ByteAtOnce(reg: word, w: word)
    requires Above(w) == 0
    ensures ClockBits(reg, w, 8) == Ticks(Xor(reg, w), 8)
  {
    FoldBits(reg, w, 8);
    NothingLeft(w);
    hide *;
    XorZero(ClockBits(reg, w, 8));
  }

  lemma TableStep(reg: word, w: word)
    requires Above(w) == 0
    ensures Xor(Ticks(LowByte(Xor(reg, w)), 8), Down8(reg)) == ClockBits(reg, w, 8)
  {
    hide *;
    var x := Xor(reg, w);
    Halves(x, reg, w);
    TicksLinear(LowByte(x), Above(x), 8);
    TicksAbove(x);
    ByteAtOnce(reg, w);
  }

  // ----- the method of the source -----

  function ToWord(n: int): word
    requires 0 <= n < 256
  {
    n as word
  }

  /** The table index of a register: its low byte as a number. */
  function Index(x: word): (i: nat)
    ensures i < 256
  {
    LowByte(x) as int
  }

  lemma IndexIsLowByte(x: word)
    ensures ToWord(Index(x)) == LowByte(x)
  {
    BackToWord(LowByte(x));
    hide LowByte;
  }

  lemma BackToWord(y: word)
    requires y as int < 256
    ensures (y as int) as word == y
  {
  }

  lemma WordIsByte(b: byte)
    ensures Above(Word(b)) == 0
  {
  }

  class Crc32Calculator {
    /** Filled on first use and kept. */
    var table: array?<word>

    /** Entry `n` is what eight clocks make of `n`. */
    ghost predicate Valid()
      reads this, table
    {
      table != null ==>
        table.Length == 256 && forall n :: 0 <= n < 256 ==> table[n] == Ticks(ToWord(n), 8)
    }

    constructor ()
      ensures Valid() && table == null
    {
      table := null;
    }

    method TableEntry(n: int) returns (c: word)
      requires 0 <= n < 256
      ensures c == Ticks(ToWord(n), 8)
    {
      hide Odd, Xor, Half, ToWord;
      c := ToWord(n);
      for k := 0 to 8
        invariant Ticks(c, 8 - k) == Ticks(ToWord(n), 8)
      {
        c := if Odd(c) then Xor(0xEDB8_8320, Half(c)) else Half(c);
      }
    }

    method FillTable()
      modifies this
      ensures table != null && fresh(table) && Valid()
    {
      hide ToWord;
      var t := new word[256];
      for n := 0 to 256
        invariant forall m :: 0 <= m < n ==> t[m] == Ticks(ToWord(m), 8)
      {
        t[n] := TableEntry(n);
      }
      table := t;
    }

    method Crc32(buf: seq<byte>) returns (sum: nat)
      requires Valid()
      modifies this
      ensures Valid() && table != null
      ensures sum == Checksum(buf)
    {
      hide Xor, Down8, LowByte, Above, Word, ToWord, Index;
      if table == null {
        FillTable();
      }
      var crc: word := 0xFFFF_FFFF;
      for i := 0 to |buf|
        invariant Valid() && table != null
        invariant crc == Register(0xFFFF_FFFF, buf[..i])
      {
        var x := Xor(crc, Word(buf[i]));
        IndexIsLowByte(x);
        WordIsByte(buf[i]);
        TableStep(crc, Word(buf[i]));
        crc := Xor(table[Index(x)], Down8(crc));
        assert buf[..i + 1][..i] == buf[..i];
      }
      assert buf[..|buf|] == buf;
      sum := Xor(crc, 0xFFFF_FFFF) as int;
    }
  }
}
