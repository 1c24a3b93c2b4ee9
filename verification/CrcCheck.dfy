/**
 Which CRC-32 it is: the check value and the residue that every implementation of the ZIP and gzip checksum
 has, and no other polynomial, start value or bit order gives.
 */
module CrcCheck {
  import opened Bytes
  import opened Crc32
  import opened CrcDetection

  // ----- four bytes as a number and as a word -----

  function Value(w: word): nat { w as int }

  lemma ValueInjective(x: word, y: word)
    requires Value(x) == Value(y)
    ensures x == y
  {
    IntInjective(x, y);
  }

  lemma JoinBytes(low: bv8, high: bv8)
    ensures (((high as bv16) << 8) | (low as bv16)) as int == (low as int) + 0x100 * (high as int)
  {
  }

  lemma JoinHalves(low: bv16, high: bv16)
    ensures (((high as bv32) << 16) | (low as bv32)) as int == (low as int) + 0x1_0000 * (high as int)
  {
  }

  function Half16(low: bv8, high: bv8): bv16 {
    ((high as bv16) << 8) | (low as bv16)
  }

  lemma HalfValue(low: bv8, high: bv8) returns (half: bv16)
    ensures half == Half16(low, high) && half as int == (low as int) + 0x100 * (high as int)
  {
    half := ((high as bv16) << 8) | (low as bv16);
    JoinBytes(low, high);
  }

  lemma PackOfFour(a: bv8, b: bv8, c: bv8, d: bv8)
    ensures Xor(a as word, Up8(Xor(b as word, Up8(Xor(c as word, Up8(Xor(d as word, Up8(0))))))))
      == ((Half16(c, d) as word) << 16) | (Half16(a, b) as word)
  {
  }

  lemma PackUnfolded(data: seq<byte>)
    requires |data| == 4
    ensures Pack(data)
      == Xor(Word(data[0]), Up8(Xor(Word(data[1]), Up8(Xor(Word(data[2]), Up8(Xor(Word(data[3]), Up8(0))))))))
  {
    hide Word, Up8, Xor;
    PackIs(data);
    PackIs(data[1..]);
    PackIs(data[2..]);
    PackIs(data[3..]);
    assert data[1..][1..] == data[2..] && data[2..][1..] == data[3..] && data[3..][1..] == [];
    assert Pack([]) == 0;
  }

  lemma WordBits(b: byte) returns (y: bv8)
    ensures Word(b) == y as word && y as int == b
  {
    y := b as bv8;
    BitsOfByte(b);
  }

  lemma HalvesValue(a: bv8, b: bv8, c: bv8, d: bv8)
    ensures (((Half16(c, d) as word) << 16) | (Half16(a, b) as word)) as int
      == (a as int) + 0x100 * (b as int) + 0x1_0000 * ((c as int) + 0x100 * (d as int))
  {
    hide Half16;
    var low := HalfValue(a, b);
    var high := HalfValue(c, d);
    JoinHalves(low, high);
  }

  /** Four bytes as a little-endian field are the number of their packed word. */
  lemma PackIsField(data: seq<byte>)
    requires |data| == 4
    ensures Value(Pack(data)) == U32(data, 0)
  {
    hide Pack, Up8, Xor, Word, Half16;
    var a := WordBits(data[0]);
    var b := WordBits(data[1]);
    var c := WordBits(data[2]);
    var d := WordBits(data[3]);
    PackUnfolded(data);
    PackOfFour(a, b, c, d);
    HalvesValue(a, b, c, d);
  }

  // ----- the residue -----

  lemma AllOnes()
    ensures Ticks(0xFFFF_FFFF, 32) == 0xDEBB_20E3
  {
    TicksAdd(0xFFFF_FFFF, 8, 24);
    TicksAdd(0x2DFD_1072, 8, 16);
    TicksAdd(0xBE26_ED00, 8, 8);
    ResidueTicks();
  }

  lemma ResidueTicks()
    ensures Ticks(0xFFFF_FFFF, 8) == 0x2DFD_1072 && Ticks(0x2DFD_1072, 8) == 0xBE26_ED00
    ensures Ticks(0xBE26_ED00, 8) == 0x00BE_26ED && Ticks(0x00BE_26ED, 8) == 0xDEBB_20E3
  {
  }

  lemma ChecksumWord(m: seq<byte>)
    ensures Checksum(m) == Value(Xor(Register(0xFFFF_FFFF, m), 0xFFFF_FFFF))
  {
    hide Xor, Register;
  }

  lemma FieldBack(c: nat)
    requires c < 0x1_0000_0000
    ensures U32(LE32(c), 0) == c
  {
    assert LE32(c)[0..4] == LE32(c);
    ReadLE32(LE32(c), 0, c);
  }

  lemma FieldIsChecksum(m: seq<byte>)
    ensures Pack(LE32(Checksum(m))) == Xor(Register(0xFFFF_FFFF, m), 0xFFFF_FFFF)
  {
    hide *;
    FieldBack(Checksum(m));
    PackIsField(LE32(Checksum(m)));
    ChecksumWord(m);
    ValueInjective(Pack(LE32(Checksum(m))), Xor(Register(0xFFFF_FFFF, m), 0xFFFF_FFFF));
  }

  lemma XorCancels(r: word)
    ensures Xor(r, Xor(r, 0xFFFF_FFFF)) == 0xFFFF_FFFF
  {
  }

  lemma ResidueWord()
    ensures Value(Xor(0xDEBB_20E3, 0xFFFF_FFFF)) == 0x2144_DF1C
  {
  }

  /** A message followed by its own checksum always has the residue of CRC-32. */
  lemma Residue(m: seq<byte>)
    ensures Checksum(m + LE32(Checksum(m))) == 0x2144_DF1C
  {
    var tail := LE32(Checksum(m));
    var r := Register(0xFFFF_FFFF, m);
    FieldIsChecksum(m);
    RegisterConcat(0xFFFF_FFFF, m, tail);
    RegisterOfPack(r, tail);
    XorCancels(r);
    AllOnes();
    ChecksumWord(m + tail);
    ResidueWord();
    hide *;
  }

  // ----- the check value -----

  const DIGITS: seq<byte> := [0x31, 0x32, 0x33, 0x34, 0x35, 0x36, 0x37, 0x38, 0x39]

  lemma PackOfField(data: seq<byte>, w: word)
    requires |data| == 4 && U32(data, 0) == Value(w)
    ensures Pack(data) == w
  {
    hide *;
    PackIsField(data);
    ValueInjective(Pack(data), w);
  }

  lemma CheckTicks()
    ensures Ticks(0xCBCC_CDCE, 8) == 0x7C17_237A && Ticks(0x7C17_237A, 8) == 0xB0AC_8F01
    ensures Ticks(0xB0AC_8F01, 8) == 0x77B7_9C19 && Ticks(0x77B7_9C19, 8) == 0x641C_1F5C
    ensures Ticks(0x5C2B_2969, 8) == 0x3432_F2D5 && Ticks(0x3432_F2D5, 8) == 0xF68D_14A9
    ensures Ticks(0xF68D_14A9, 8) == 0xAFFC_9658 && Ticks(0xAFFC_9658, 8) == 0x651F_2550
    ensures Ticks(0x651F_2569, 8) == 0x340B_C6D9
  {
    hide Ticks;
    FirstTicks();
    SecondTicks();
    ThirdTicks();
    FourthTicks();
    LastTicks();
  }

  lemma FirstTicks()
    ensures Ticks(0xCBCC_CDCE, 8) == 0x7C17_237A && Ticks(0x7C17_237A, 8) == 0xB0AC_8F01
  {
  }

  lemma SecondTicks()
    ensures Ticks(0xB0AC_8F01, 8) == 0x77B7_9C19 && Ticks(0x77B7_9C19, 8) == 0x641C_1F5C
  {
  }

  lemma ThirdTicks()
    ensures Ticks(0x5C2B_2969, 8) == 0x3432_F2D5 && Ticks(0x3432_F2D5, 8) == 0xF68D_14A9
  {
  }

  lemma FourthTicks()
    ensures Ticks(0xF68D_14A9, 8) == 0xAFFC_9658 && Ticks(0xAFFC_9658, 8) == 0x651F_2550
  {
  }

  lemma LastTicks()
    ensures Ticks(0x651F_2569, 8) == 0x340B_C6D9
  {
  }

  lemma FourTicks(a: word, b: word, c: word, d: word, e: word)
    requires Ticks(a, 8) == b && Ticks(b, 8) == c && Ticks(c, 8) == d && Ticks(d, 8) == e
    ensures Ticks(a, 32) == e
  {
    hide Ticks;
    TicksAdd(a, 8, 24);
    TicksAdd(b, 8, 16);
    TicksAdd(c, 8, 8);
  }

  lemma NinthWord()
    ensures Pack([0x39]) == 0x39
  {
    var y := WordBits(0x39);
    assert Pack([0x39]) == Xor(Word(0x39), Up8(Pack([]))) by {
      PackIs([0x39]);
      assert [0x39 as byte][1..] == [];
    }
    assert Pack([]) == 0 && y == 0x39;
  }

  lemma CheckWords()
    ensures Xor(0xFFFF_FFFF, 0x3433_3231) == 0xCBCC_CDCE && Xor(0x641C_1F5C, 0x3837_3635) == 0x5C2B_2969
    ensures Xor(0x651F_2550, 0x39) == 0x651F_2569 && Xor(0x340B_C6D9, 0xFFFF_FFFF) == 0xCBF4_3926
    ensures Value(0xCBF4_3926) == 0xCBF4_3926
  {
  }

  lemma NineDigits() returns (a: seq<byte>, b: seq<byte>)
    ensures |a| == |b| == 4 && DIGITS == a + b + [0x39]
    ensures U32(a, 0) == Value(0x3433_3231) && U32(b, 0) == Value(0x3837_3635)
  {
    a, b := DIGITS[..4], DIGITS[4..8];
  }

  /** The check value of the CRC catalogues: the checksum of the nine digits. */
  lemma CheckValue()
    ensures Checksum(DIGITS) == 0xCBF4_3926
  {
    hide *;
    var a, b := NineDigits();
    PackOfField(a, 0x3433_3231);
    PackOfField(b, 0x3837_3635);
    NinthWord();
    CheckTicks();
    CheckWords();
    FourTicks(0xCBCC_CDCE, 0x7C17_237A, 0xB0AC_8F01, 0x77B7_9C19, 0x641C_1F5C);
    FourTicks(0x5C2B_2969, 0x3432_F2D5, 0xF68D_14A9, 0xAFFC_9658, 0x651F_2550);
    RegisterOfPack(0xFFFF_FFFF, a);
    RegisterOfPack(0x641C_1F5C, b);
    RegisterOfPack(0x651F_2550, [0x39]);
    RegisterConcat(0xFFFF_FFFF, a, b);
    RegisterConcat(0xFFFF_FFFF, a + b, [0x39]);
    ChecksumWord(DIGITS);
  }
}
