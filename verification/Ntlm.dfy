/**
 The NTLM CHALLENGE message of `agent/internal/sensors/ntlm.go`, and a reader that follows the offsets
 in it (sections 2.2.1.2, 2.2.2.1 and 2.2.2.10 of MS-NLMP). A Go string is a sequence of runes; Dafny's
 characters are exactly the runes a `range` over a string can yield.
 */
module Ntlm {
  import opened Bytes
  import opened Options

  datatype Version = Version(major: byte, minor: byte, build: nat)

  /** The part of an identity the message depends on; `version` is absent for a persona without one. */
  datatype Identity = Identity(
    version: Option<Version>, nbDomain: string, nbComputer: string, dnsDomain: string, dnsHostname: string)

  // ----- UTF-16 -----

  function Utf16Char(c: char): seq<byte> {
    if c as int > 0xFFFF then [] else LE16(c as int)
  }

  function Utf16(s: string): seq<byte> {
    if s == "" then [] else Utf16(s[..|s| - 1]) + Utf16Char(s[|s| - 1])
  }

  method Utf16Encode(s: string) returns (out: seq<byte>)
    ensures out == Utf16(s)
  {
    out := [];
    for i := 0 to |s|
      invariant out == Utf16(s[..i])
    {
      var r := s[i] as int;
      assert s[..i + 1][..i] == s[..i];
      if r > 0xFFFF {
        continue;
      }
      out := out + [r % 0x100, r / 0x100];
    }
    assert s[..|s|] == s;
  }

  /** A rune written from one unit; a surrogate half is no rune and comes out as U+FFFD. */
  function RuneOf(u: nat): char
    requires u < 0x1_0000
  {
    if 0xD800 <= u < 0xE000 then '\U{FFFD}' else u as char
  }

  function Runes(b: seq<byte>): string
    requires |b| % 2 == 0
  {
    if b == [] then "" else Runes(b[..|b| - 2]) + [RuneOf(U16(b, |b| - 2))]
  }

  method Utf16ToString(b: seq<byte>) returns (s: string)
    ensures s == if |b| % 2 == 0 then Runes(b) else ""
  {
    s := "";
    if |b| < 2 || |b| % 2 != 0 {
      return;
    }
    var i := 0;
    while i + 1 < |b|
      invariant i <= |b| && i % 2 == 0 && s == Runes(b[..i])
    {
      ghost var p := b[..i + 2];
      assert p[..|p| - 2] == b[..i] && U16(p, |p| - 2) == U16(b, i);
      s := s + [RuneOf(U16(b, i))];
      i := i + 2;
    }
    assert b[..i] == b;
  }

  /** What UTF-16 without surrogate pairs can carry of a name. */
  function Bmp(s: string): string {
    if s == "" then "" else Bmp(s[..|s| - 1]) + (if s[|s| - 1] as int > 0xFFFF then "" else [s[|s| - 1]])
  }

  lemma {:induction false} Utf16Length(s: string)
    ensures |Utf16(s)| == 2 * |Bmp(s)| && |Bmp(s)| <= |s|
    decreases |s|
  {
    if s != "" {
      Utf16Length(s[..|s| - 1]);
    }
  }

  lemma RuneBack(c: char)
    requires c as int <= 0xFFFF
    ensures RuneOf(U16(LE16(c as int), 0)) == c
  {
  }

  lemma RunesOneMore(b: seq<byte>, pair: seq<byte>)
    requires |b| % 2 == 0 && |pair| == 2
    ensures Runes(b + pair) == Runes(b) + [RuneOf(U16(pair, 0))]
  {
    hide RuneOf;
    var all := b + pair;
    assert all[..|all| - 2] == b;
    assert all[|b|] == pair[0] && all[|b| + 1] == pair[1];
  }

  /** Decoding gives back every rune of the basic plane, in order. */
  lemma {:induction false} RunesOfUtf16(s: string)
    ensures |Utf16(s)| % 2 == 0 && Runes(Utf16(s)) == Bmp(s)
    decreases |s|
  {
    hide Runes, RuneOf, LE16, U16;
    Utf16Length(s);
    if s == "" {
      NoRunes();
    } else {
      var front, c := s[..|s| - 1], s[|s| - 1];
      Utf16Length(front);
      RunesOfUtf16(front);
      if c as int <= 0xFFFF {
        RuneBack(c);
        RunesOneMore(Utf16(front), LE16(c as int));
      } else {
        assert Utf16(s) == Utf16(front);
      }
    }
  }

  lemma NoRunes()
    ensures Runes([]) == ""
  {
  }

  lemma BmpLast(front: string, c: char)
    ensures Bmp(front + [c]) == Bmp(front) + if c as int > 0xFFFF then "" else [c]
  {
    assert (front + [c])[..|front|] == front;
  }

  lemma NoName()
    ensures Bmp("") == ""
  {
  }

  /** A name survives encoding and decoding exactly when it needs no surrogate pair. */
  lemma {:induction false} NameSurvivesIffBmp(s: string)
    ensures Bmp(s) == s <==> forall c <- s :: c as int <= 0xFFFF
    decreases |s|
  {
    hide *;
    if s == "" {
      NoName();
    } else {
      var front, c := s[..|s| - 1], s[|s| - 1];
      NameSurvivesIffBmp(front);
      BmpLast(front, c);
      Utf16Length(front);
      SameButLast(Bmp(front), front, c);
      assert s == front + [c];
      assert c in s && forall x <- front :: x in s;
      assert c as int > 0xFFFF ==> |Bmp(s)| < |s| by {
        assert Bmp(front) + "" == Bmp(front);
      }
    }
  }

  lemma SameButLast(a: string, b: string, c: char)
    ensures a + [c] == b + [c] <==> a == b
  {
    assert (a + [c])[..|a|] == a && (b + [c])[..|b|] == b;
  }

  // ----- the message -----

  const MAGIC: seq<byte> := [0x4E, 0x54, 0x4C, 0x4D, 0x53, 0x53, 0x50, 0x00]
  const ZEROS: seq<byte> := [0, 0, 0, 0, 0, 0, 0, 0]
  const CHALLENGE_FLAGS := 0x8201
  const VERSION_FLAG := 0x0200_0000
  const FIXED_LEN := 48

  const AV_EOL := 0
  const AV_NB_DOMAIN := 1
  const AV_NB_COMPUTER := 3
  const AV_DNS_DOMAIN := 4
  const AV_DNS_HOSTNAME := 6

  function AvPair(id: nat, value: string): seq<byte> {
    LE16(id) + LE16(|Utf16(value)|) + Utf16(value)
  }

  /** The names the target info lists, with their ids. */
  function AvList(id: Identity): seq<(nat, string)> {
    [(AV_NB_DOMAIN, id.nbDomain), (AV_NB_COMPUTER, id.nbComputer)] +
    (if id.dnsDomain != "" then [(AV_DNS_DOMAIN, id.dnsDomain)] else []) +
    [(AV_DNS_HOSTNAME, id.dnsHostname)]
  }

  function AvBytes(avs: seq<(nat, string)>): seq<byte> {
    if avs == [] then AvPair(AV_EOL, "") else AvPair(avs[0].0, avs[0].1) + AvBytes(avs[1..])
  }

  function TargetInfo(id: Identity): seq<byte> {
    AvBytes(AvList(id))
  }

  function EncodeVersion(v: Version): seq<byte> {
    [v.major, v.minor, v.build % 0x100, v.build / 0x100 % 0x100, 0, 0, 0, 15]
  }

  function VersionBlock(id: Identity): seq<byte> {
    if id.version.Some? then EncodeVersion(id.version.value) else []
  }

  function Flags(id: Identity): nat {
    if id.version.Some? then CHALLENGE_FLAGS + VERSION_FLAG else CHALLENGE_FLAGS
  }

  /** The fixed part, as far as the version block or the payload. */
  function Header(targetLen: nat, targetOff: nat, flags: nat, nonce: seq<byte>, infoLen: nat): seq<byte> {
    MAGIC + LE32(2)
    + LE16(targetLen) + LE16(targetLen) + LE32(targetOff)
    + LE32(flags) + nonce + ZEROS
    + LE16(infoLen) + LE16(infoLen) + LE32(targetOff + targetLen)
  }

  function Message(id: Identity, nonce: seq<byte>): seq<byte> {
    var target, info := Utf16(id.nbDomain), TargetInfo(id);
    Header(|target|, FIXED_LEN + |VersionBlock(id)|, Flags(id), nonce, |info|) + VersionBlock(id) + target + info
  }

  method BuildAvPair(id: nat, value: string) returns (out: seq<byte>)
    ensures out == AvPair(id, value)
  {
    var v := Utf16Encode(value);
    out := LE16(id);
    out := out + LE16(|v|);
    out := out + v;
  }

  method BuildTargetInfo(id: Identity) returns (ti: seq<byte>)
    ensures ti == TargetInfo(id)
  {
    ti := BuildAvPair(AV_NB_DOMAIN, id.nbDomain);
    var pair := BuildAvPair(AV_NB_COMPUTER, id.nbComputer);
    ti := ti + pair;
    if id.dnsDomain != "" {
      pair := BuildAvPair(AV_DNS_DOMAIN, id.dnsDomain);
      ti := ti + pair;
    }
    pair := BuildAvPair(AV_DNS_HOSTNAME, id.dnsHostname);
    ti := ti + pair;
    pair := BuildAvPair(AV_EOL, "");
    ti := ti + pair;
    TargetInfoSpelledOut(id);
  }

  lemma TargetInfoSpelledOut(id: Identity)
    ensures TargetInfo(id) == AvPair(AV_NB_DOMAIN, id.nbDomain) + AvPair(AV_NB_COMPUTER, id.nbComputer)
      + (if id.dnsDomain != "" then AvPair(AV_DNS_DOMAIN, id.dnsDomain) else [])
      + AvPair(AV_DNS_HOSTNAME, id.dnsHostname) + AvPair(AV_EOL, "")
  {
    hide AvPair;
    var l := AvList(id);
    var last := [(AV_DNS_HOSTNAME, id.dnsHostname)];
    assert last[1..] == [];
    assert AvBytes(last) == AvPair(AV_DNS_HOSTNAME, id.dnsHostname) + AvPair(AV_EOL, "");
    if id.dnsDomain != "" {
      assert l[2..][1..] == last;
      assert AvBytes(l[2..]) == AvPair(AV_DNS_DOMAIN, id.dnsDomain) + AvBytes(last);
    } else {
      assert l[2..] == last;
    }
    assert l[1..][1..] == l[2..];
    assert AvBytes(l[1..]) == AvPair(AV_NB_COMPUTER, id.nbComputer) + AvBytes(l[2..]);
  }

  /** The server challenge is the argument: it comes from the random source. */
  method BuildChallenge(id: Identity, nonce: seq<byte>) returns (m: seq<byte>)
    requires |nonce| == 8
    ensures m == Message(id, nonce)
  {
    hide TargetInfo, Utf16, LE16, LE32;
    var target := Utf16Encode(id.nbDomain);
    var ti := BuildTargetInfo(id);
    var flags := CHALLENGE_FLAGS;
    var version := [];
    if id.version.Some? {
      flags := flags + VERSION_FLAG;
      version := EncodeVersion(id.version.value);
    }
    var targetOff := FIXED_LEN + |version|;
    m := MAGIC;
    m := m + LE32(2);
    m := m + LE16(|target|);
    m := m + LE16(|target|);
    m := m + LE32(targetOff);
    m := m + LE32(flags);
    m := m + nonce;
    m := m + ZEROS;
    m := m + LE16(|ti|);
    m := m + LE16(|ti|);
    m := m + LE32(targetOff + |target|);
    m := m + version;
    m := m + target;
    m := m + ti;
  }

  // ----- the reader -----

  datatype Challenge = Challenge(
    domain: string, flags: nat, nonce: seq<byte>, version: Option<Version>, avs: seq<(nat, string)>)

  /** The revision is the last byte, 15 for this version of the security provider, after three reserved ones. */
  function DecodeVersion(b: seq<byte>): Option<Version> {
    if |b| < 8 || b[4..8] != [0, 0, 0, 0x0F] then None else Some(Version(b[0], b[1], U16(b, 2)))
  }

  function ReadName(b: seq<byte>): Option<string> {
    if |b| % 2 == 0 then Some(Runes(b)) else None
  }

  /** The AV pairs of a list that ends with the terminator and nothing after it. */
  function ReadAvs(b: seq<byte>): Option<seq<(nat, string)>> {
    if |b| < 4 then None
    else if U16(b, 0) == 0 then (if |b| == 4 && U16(b, 2) == 0 then Some([]) else None)
    else
      var n := U16(b, 2);
      if 4 + n > |b| || ReadName(b[4..4 + n]).None? then None
      else
        match ReadAvs(b[4 + n..])
        case None => None
        case Some(rest) => Some([(U16(b, 0), ReadName(b[4..4 + n]).value)] + rest)
  }

  function ReadChallenge(m: seq<byte>): Option<Challenge> {
    if |m| < 48 || m[..8] != [0x4E, 0x54, 0x4C, 0x4D, 0x53, 0x53, 0x50, 0] || U32(m, 8) != 2 then None
    else
      var nameLen, nameOff, flags := U16(m, 12), U32(m, 16), U32(m, 20);
      var infoLen, infoOff := U16(m, 40), U32(m, 44);
      var hasVersion := flags / 0x0200_0000 % 2 == 1;
      if nameOff + nameLen > |m| || infoOff + infoLen != |m| then None
      else if hasVersion && DecodeVersion(m[48..]).None? then None
      else
        match (ReadName(m[nameOff..nameOff + nameLen]), ReadAvs(m[infoOff..]))
        case (Some(domain), Some(avs)) =>
          Some(Challenge(domain, flags, m[24..32], if hasVersion then DecodeVersion(m[48..]) else None, avs))
        case _ => None
  }

  /** The identity as a reader can see it. */
  function Expected(id: Identity, nonce: seq<byte>): Challenge {
    Challenge(Bmp(id.nbDomain), Flags(id), nonce, id.version, SeenAvs(AvList(id)))
  }

  function SeenAvs(avs: seq<(nat, string)>): seq<(nat, string)> {
    if avs == [] then [] else [(avs[0].0, Bmp(avs[0].1))] + SeenAvs(avs[1..])
  }

  lemma AvFields(i: nat, value: seq<byte>, more: seq<byte>)
    requires i < 0x1_0000 && |value| < 0x1_0000
    ensures var b := LE16(i) + LE16(|value|) + value + more;
      && U16(b, 0) == i && U16(b, 2) == |value|
      && b[4..4 + |value|] == value && b[4 + |value|..] == more
  {
    var b := LE16(i) + LE16(|value|) + value + more;
    assert b[0..2] == LE16(i) && b[2..4] == LE16(|value|);
    ReadLE16(b, 0, i);
    ReadLE16(b, 2, |value|);
  }

  /** A list of pairs is read back pair by pair, up to its terminator. */
  lemma {:induction false} AvsBack(avs: seq<(nat, string)>)
    requires forall a <- avs :: 0 < a.0 < 0x1_0000
    requires |AvBytes(avs)| < 0x1_0000
    ensures ReadAvs(AvBytes(avs)) == Some(SeenAvs(avs))
    decreases |avs|
  {
    hide Utf16, Runes, Bmp, LE16, U16;
    if avs == [] {
      EmptyListBytes();
    } else {
      var (i, v) := avs[0];
      var value, more := Utf16(v), AvBytes(avs[1..]);
      assert avs[0] in avs;
      assert AvBytes(avs) == LE16(i) + LE16(|value|) + value + more;
      AvFields(i, value, more);
      RunesOfUtf16(v);
      AvsBack(avs[1..]);
    }
  }

  lemma EmptyListBytes()
    ensures AvBytes([]) == [0, 0, 0, 0]
    ensures U16([0, 0, 0, 0], 0) == 0 && U16([0, 0, 0, 0], 2) == 0
  {
  }

  // ----- reading undoes building -----

  lemma HeaderFields(m: seq<byte>, targetLen: nat, targetOff: nat, flags: nat, nonce: seq<byte>, infoLen: nat)
    requires |nonce| == 8 && |m| >= FIXED_LEN
    requires m[..FIXED_LEN] == Header(targetLen, targetOff, flags, nonce, infoLen)
    ensures m[..8] == MAGIC && m[24..32] == nonce
    ensures U32(m, 8) == 2 && U16(m, 12) == targetLen % 0x1_0000 && U32(m, 16) == targetOff % 0x1_0000_0000
    ensures U32(m, 20) == flags % 0x1_0000_0000
    ensures U16(m, 40) == infoLen % 0x1_0000 && U32(m, 44) == (targetOff + targetLen) % 0x1_0000_0000
  {
    hide U16, U32, LE16, LE32;
    var h := m[..FIXED_LEN];
    assert m[..8] == h[..8] && m[24..32] == h[24..32];
    assert m[8..12] == h[8..12] == LE32(2);
    assert m[12..14] == h[12..14] == LE16(targetLen);
    assert m[16..20] == h[16..20] == LE32(targetOff);
    assert m[20..24] == h[20..24] == LE32(flags);
    assert m[40..42] == h[40..42] == LE16(infoLen);
    assert m[44..48] == h[44..48] == LE32(targetOff + targetLen);
    ReadLE32(m, 8, 2);
    ReadLE16(m, 12, targetLen);
    ReadLE32(m, 16, targetOff);
    ReadLE32(m, 20, flags);
    ReadLE16(m, 40, infoLen);
    ReadLE32(m, 44, targetOff + targetLen);
  }

  lemma HeaderLength(targetLen: nat, targetOff: nat, flags: nat, nonce: seq<byte>, infoLen: nat)
    requires |nonce| == 8
    ensures |Header(targetLen, targetOff, flags, nonce, infoLen)| == FIXED_LEN
  {
    hide LE16, LE32;
  }

  /** The parts of the message are where the header says, as far as 16 bits can say it. */
  lemma Layout(id: Identity, nonce: seq<byte>)
    requires |nonce| == 8
    ensures var m, target, info := Message(id, nonce), Utf16(id.nbDomain), TargetInfo(id);
      var off := FIXED_LEN + |VersionBlock(id)|;
      && |m| == off + |target| + |info|
      && m[..FIXED_LEN] == Header(|target|, off, Flags(id), nonce, |info|)
      && m[FIXED_LEN..off] == VersionBlock(id) && m[off..off + |target|] == target && m[off + |target|..] == info
  {
    hide Utf16, TargetInfo, Header, VersionBlock;
    HeaderLength(|Utf16(id.nbDomain)|, FIXED_LEN + |VersionBlock(id)|, Flags(id), nonce, |TargetInfo(id)|);
  }

  /** The signature and type, the repeated lengths and the reserved bytes. */
  lemma FixedFields(id: Identity, nonce: seq<byte>)
    requires |nonce| == 8
    ensures var m := Message(id, nonce);
      && |m| >= 48
      && m[..12] == [0x4E, 0x54, 0x4C, 0x4D, 0x53, 0x53, 0x50, 0, 2, 0, 0, 0]
      && m[14..16] == m[12..14] && m[42..44] == m[40..42]
      && m[32..40] == [0, 0, 0, 0, 0, 0, 0, 0]
  {
    hide Utf16, TargetInfo, VersionBlock, Message, Header, Flags;
    Layout(id, nonce);
    var target, info := Utf16(id.nbDomain), TargetInfo(id);
    HeaderFixed(Message(id, nonce), |target|, FIXED_LEN + |VersionBlock(id)|, Flags(id), nonce, |info|);
  }

  lemma HeaderFixed(m: seq<byte>, targetLen: nat, targetOff: nat, flags: nat, nonce: seq<byte>, infoLen: nat)
    requires |nonce| == 8 && |m| >= 48 && m[..48] == Header(targetLen, targetOff, flags, nonce, infoLen)
    ensures m[..12] == [0x4E, 0x54, 0x4C, 0x4D, 0x53, 0x53, 0x50, 0, 2, 0, 0, 0]
    ensures m[14..16] == m[12..14] && m[42..44] == m[40..42]
    ensures m[32..40] == [0, 0, 0, 0, 0, 0, 0, 0]
  {
    TypeBytes();
    hide LE16, LE32;
    var h := m[..48];
    assert m[..12] == h[..12] == MAGIC + LE32(2);
    assert m[12..14] == h[12..14] == LE16(targetLen) && m[14..16] == h[14..16] == LE16(targetLen);
    assert m[40..42] == h[40..42] == LE16(infoLen) && m[42..44] == h[42..44] == LE16(infoLen);
    assert m[32..40] == h[32..40] == ZEROS;
  }

  lemma TypeBytes()
    ensures LE32(2) == [2, 0, 0, 0]
  {
  }

  lemma VersionBack(v: Version, more: seq<byte>)
    requires v.build < 0x1_0000
    ensures DecodeVersion(EncodeVersion(v) + more) == Some(v)
  {
  }

  lemma TargetShorterThanInfo(id: Identity)
    ensures |Utf16(id.nbDomain)| < |TargetInfo(id)|
  {
    hide Utf16;
    TargetInfoSpelledOut(id);
  }

  lemma AvListIds(id: Identity)
    ensures forall a <- AvList(id) :: 0 < a.0 < 0x1_0000
  {
  }

  /** The version block is in the message exactly when the flag says so, and reads back. */
  lemma VersionInMessage(id: Identity, m: seq<byte>, rest: seq<byte>)
    requires id.version.Some? ==> id.version.value.build < 0x1_0000
    requires |m| >= FIXED_LEN && m[FIXED_LEN..] == VersionBlock(id) + rest
    ensures Flags(id) / VERSION_FLAG % 2 == 1 <==> id.version.Some?
    ensures id.version.Some? ==> DecodeVersion(m[FIXED_LEN..]) == id.version
  {
    if id.version.Some? {
      VersionBack(id.version.value, rest);
    }
  }

  lemma ReadBack(id: Identity, nonce: seq<byte>)
    requires |nonce| == 8 && (id.version.Some? ==> id.version.value.build < 0x1_0000)
    requires |TargetInfo(id)| < 0x1_0000
    ensures ReadChallenge(Message(id, nonce)) == Some(Expected(id, nonce))
  {
    hide Utf16, TargetInfo, Header, VersionBlock, Message, DecodeVersion, AvList, ReadAvs, Runes, Bmp, U16, U32,
      Flags, AvBytes, SeenAvs, ReadName;
    var m, target, info := Message(id, nonce), Utf16(id.nbDomain), TargetInfo(id);
    var off := FIXED_LEN + |VersionBlock(id)|;
    Layout(id, nonce);
    BlockLength(id);
    TargetShorterThanInfo(id);
    HeaderFields(m, |target|, off, Flags(id), nonce, |info|);
    assert m[FIXED_LEN..] == VersionBlock(id) + (target + info);
    VersionInMessage(id, m, target + info);
    NameBack(id.nbDomain);
    AvListIds(id);
    InfoIsAvs(id);
    AvsBack(AvList(id));
  }

  lemma NameBack(s: string)
    ensures ReadName(Utf16(s)) == Some(Bmp(s))
  {
    hide Runes, Utf16, Bmp;
    RunesOfUtf16(s);
  }

  lemma InfoIsAvs(id: Identity)
    ensures TargetInfo(id) == AvBytes(AvList(id))
  {
  }

  lemma BlockLength(id: Identity)
    ensures |VersionBlock(id)| == if id.version.Some? then 8 else 0
    ensures Flags(id) < 0x1_0000_0000
  {
  }

  /** With a longer target info its 16-bit length no longer reaches the end of the message. */
  lemma TooLong(id: Identity, nonce: seq<byte>)
    requires |nonce| == 8 && |TargetInfo(id)| >= 0x1_0000
    ensures ReadChallenge(Message(id, nonce)).None?
  {
    hide Utf16, TargetInfo, Header, VersionBlock, Message, DecodeVersion, AvList, ReadAvs, Runes, U16, U32;
    var m, target, info := Message(id, nonce), Utf16(id.nbDomain), TargetInfo(id);
    var off := FIXED_LEN + |VersionBlock(id)|;
    Layout(id, nonce);
    HeaderFields(m, |target|, off, Flags(id), nonce, |info|);
    assert U32(m, 44) <= off + |target| && U16(m, 40) < |info|;
  }

  /** The bytes the listed names take: four for each pair and two for each rune of the basic plane. */
  function InfoSize(id: Identity): nat {
    16 + 2 * |Bmp(id.nbDomain)| + 2 * |Bmp(id.nbComputer)| + 2 * |Bmp(id.dnsHostname)|
    + (if id.dnsDomain != "" then 4 + 2 * |Bmp(id.dnsDomain)| else 0)
  }

  lemma InfoSizeIsLength(id: Identity)
    ensures |TargetInfo(id)| == InfoSize(id)
  {
    TargetInfoSpelledOut(id);
    Utf16Length(id.nbDomain);
    Utf16Length(id.nbComputer);
    Utf16Length(id.dnsDomain);
    Utf16Length(id.dnsHostname);
    assert Utf16("") == [];
    hide Utf16, LE16, TargetInfo;
  }

  /**
   * A reader that follows the offsets recovers domain, flags, server challenge, version block and the
   * exact AV pairs, ending at the last byte, if and only if the listed names fit a 16-bit length.
   */
  lemma RecoveredIffNamesFit(id: Identity, nonce: seq<byte>)
    requires |nonce| == 8 && (id.version.Some? ==> id.version.value.build < 0x1_0000)
    ensures
      var names := [(1, Bmp(id.nbDomain)), (3, Bmp(id.nbComputer))]
        + (if id.dnsDomain != "" then [(4, Bmp(id.dnsDomain))] else []) + [(6, Bmp(id.dnsHostname))];
      var flags := 0x1 + 0x200 + 0x8000 + if id.version.Some? then 0x0200_0000 else 0;
      ReadChallenge(Message(id, nonce)) == Some(Challenge(Bmp(id.nbDomain), flags, nonce, id.version, names))
      <==> InfoSize(id) < 0x1_0000
  {
    InfoSizeIsLength(id);
    ExpectedIs(id, nonce);
    hide ReadChallenge, Message, TargetInfo, InfoSize, Expected, Bmp;
    if |TargetInfo(id)| < 0x1_0000 {
      ReadBack(id, nonce);
    } else {
      TooLong(id, nonce);
    }
  }

  lemma ExpectedIs(id: Identity, nonce: seq<byte>)
    ensures var names := [(1, Bmp(id.nbDomain)), (3, Bmp(id.nbComputer))]
        + (if id.dnsDomain != "" then [(4, Bmp(id.dnsDomain))] else []) + [(6, Bmp(id.dnsHostname))];
      var flags := 0x1 + 0x200 + 0x8000 + if id.version.Some? then 0x0200_0000 else 0;
      Expected(id, nonce) == Challenge(Bmp(id.nbDomain), flags, nonce, id.version, names)
  {
    hide Bmp;
    var avs, last := AvList(id), [(AV_DNS_HOSTNAME, id.dnsHostname)];
    assert last[1..] == [];
    assert SeenAvs(last) == [(6, Bmp(id.dnsHostname))];
    if id.dnsDomain != "" {
      assert avs[2..][1..] == last;
      assert SeenAvs(avs[2..]) == [(4, Bmp(id.dnsDomain))] + SeenAvs(last);
    } else {
      assert avs[2..] == last;
    }
    assert avs[1..][1..] == avs[2..];
    assert SeenAvs(avs[1..]) == [(3, Bmp(id.nbComputer))] + SeenAvs(avs[2..]);
  }
}
