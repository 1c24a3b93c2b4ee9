/**
 Bytes and the little-endian integer fields shared by the binary formats of this project.
 */
module Bytes {

  type byte = b: int | 0 <= b < 0x100

  /** The two low bytes of `n`, least significant first; whatever lies above 16 bits is dropped. */
  function LE16(n: int): (r: seq<byte>)
    ensures |r| == 2
  {
    [n % 0x100, n / 0x100 % 0x100]
  }

  /** The four low bytes of `n`, least significant first; whatever lies above 32 bits is dropped. */
  function LE32(n: int): (r: seq<byte>)
    ensures |r| == 4
  {
    LE16(n) + LE16(n / 0x1_0000)
  }

  function U16(s: seq<byte>, at: nat): (n: nat)
    requires at + 2 <= |s|
    ensures n < 0x1_0000
  {
    var lo: int, hi: int := s[at], s[at + 1];
    lo + 0x100 * hi
  }

  function U32(s: seq<byte>, at: nat): (n: nat)
    requires at + 4 <= |s|
    ensures n < 0x1_0000_0000
  {
    U16(s, at) + 0x1_0000 * U16(s, at + 2)
  }

  /** Reading a 16-bit field gives back what was written, reduced modulo 2^16. */
  lemma ReadLE16(s: seq<byte>, at: nat, n: int)
    requires at + 2 <= |s| && s[at..at + 2] == LE16(n)
    ensures U16(s, at) == n % 0x1_0000
  {
    assert s[at] == s[at..at + 2][0] && s[at + 1] == s[at..at + 2][1];
  }

  /** Reading a 32-bit field gives back what was written, reduced modulo 2^32. */
  lemma ReadLE32(s: seq<byte>, at: nat, n: int)
    requires at + 4 <= |s| && s[at..at + 4] == LE32(n)
    ensures U32(s, at) == n % 0x1_0000_0000
  {
    hide LE16, U16;
    assert s[at..at + 2] == s[at..at + 4][..2] == LE16(n);
    assert s[at + 2..at + 4] == s[at..at + 4][2..] == LE16(n / 0x1_0000);
    ReadLE16(s, at, n);
    ReadLE16(s, at + 2, n / 0x1_0000);
  }

  /** A byte read back from its eight bits, a few leading bits at a time. */
  lemma BitsOfByte(b: nat)
    requires b < 0x100
    ensures (b as bv8) as nat == b
  {
    if b < 0x20 {
    } else if b < 0x40 {
    } else if b < 0x60 {
    } else if b < 0x80 {
    } else if b < 0xC0 {
    } else {
    }
  }
}
