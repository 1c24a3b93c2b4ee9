/**
 How `agent/internal/sensors/smbtransport.go` cuts a byte stream into SMB messages: NetBIOS session
 frames (section 4.3.1 of RFC 1002, here with all three low header bytes as the length), and the length
 of the first message in a raw SMB stream.
 */
module SmbFraming {
  import opened Bytes

  const LIMIT: nat := 0x1_0000

  datatype Read = Message(msg: seq<byte>) | BadFrame | Ended

  // ----- NetBIOS frames -----

  function Header(n: nat): (h: seq<byte>)
    ensures |h| == 4
  {
    [0, n / 0x1_0000 % 0x100, n / 0x100 % 0x100, n % 0x100]
  }

  function Frame(msg: seq<byte>): seq<byte> {
    Header(|msg|) + msg
  }

  function Frames(msgs: seq<seq<byte>>): seq<byte> {
    if msgs == [] then [] else Frame(msgs[0]) + Frames(msgs[1..])
  }

  function LengthIn(head: seq<byte>): nat
    requires |head| == 4
  {
    head[1] as int * 0x1_0000 + head[2] as int * 0x100 + head[3] as int
  }

  /** What one framed read returns, and what is left unread. */
  function TakeFrame(input: seq<byte>): (Read, seq<byte>) {
    if |input| < 4 then (Ended, []) else
    var length := LengthIn(input[..4]);
    if length == 0 || length > LIMIT then (BadFrame, input[4..])
    else if |input| - 4 < length then (Ended, [])
    else (Message(input[4..4 + length]), input[4 + length..])
  }

  /** The messages a session reads before its first error. */
  function Messages(input: seq<byte>): seq<seq<byte>>
    decreases |input|
  {
    match TakeFrame(input)
    case (Message(msg), rest) => [msg] + Messages(rest)
    case _ => []
  }

  lemma NothingLeft()
    ensures Messages([]) == []
  {
  }

  predicate Fits(msg: seq<byte>) {
    1 <= |msg| <= 0x1_0000
  }

  /** A zero byte, the length from its highest byte down as far as 24 bits go, and the message. */
  lemma FrameLaid(msg: seq<byte>)
    ensures var f := Frame(msg);
      && |f| == 4 + |msg| && f[0] == 0 && f[4..] == msg
      && 0x1_0000 * f[1] as int + 0x100 * f[2] as int + f[3] as int == |msg| % 0x100_0000
  {
    HeaderBack(|msg|, msg);
  }

  /** Only 24 bits of the length travel. */
  lemma HeaderBack(n: nat, rest: seq<byte>)
    ensures LengthIn((Header(n) + rest)[..4]) == n % 0x100_0000
  {
    assert (Header(n) + rest)[..4] == Header(n);
    assert n / 0x100 / 0x100 == n / 0x1_0000 && n / 0x1_0000 / 0x100 == n / 0x100_0000;
  }

  /** One frame is read back, whatever follows it, exactly when its message fits. */
  lemma FrameBack(msg: seq<byte>, rest: seq<byte>)
    ensures Fits(msg) ==> TakeFrame(Frame(msg) + rest) == (Message(msg), rest)
    ensures !Fits(msg) ==> TakeFrame(Frame(msg) + rest).0 != Message(msg)
  {
    hide Header, LengthIn;
    var s, n := Frame(msg) + rest, |msg|;
    assert s == Header(n) + (msg + rest);
    HeaderBack(n, msg + rest);
    if Fits(msg) {
      assert s[4..4 + n] == msg && s[4 + n..] == rest;
    } else {
      var length := n % 0x100_0000;
      assert length == 0 || length > LIMIT || length != n;
    }
  }

  /** A stream of frames is read back message by message exactly when every message fits. */
  lemma {:induction false} FramesBack(msgs: seq<seq<byte>>)
    ensures Messages(Frames(msgs)) == msgs <==> forall m <- msgs :: Fits(m)
    ensures msgs != [] ==> Frames(msgs)[0] == 0
    decreases |msgs|
  {
    hide TakeFrame, Fits;
    if msgs == [] {
      NothingLeft();
    } else {
      var m, rest := msgs[0], msgs[1..];
      assert msgs == [m] + rest;
      FrameBack(m, Frames(rest));
      FramesBack(rest);
      if Fits(m) {
        assert Messages(Frames(msgs)) == [m] + Messages(Frames(rest));
        assert Messages(Frames(msgs))[1..] == Messages(Frames(rest));
      } else {
        assert TakeFrame(Frames(msgs)).0 != Message(m);
      }
    }
  }

  /** A frame cut short is not yet a message. */
  lemma CutFrame(msg: seq<byte>, rest: seq<byte>, seen: nat)
    requires Fits(msg) && seen < 4 + |msg|
    ensures TakeFrame((Frame(msg) + rest)[..seen]) == (Ended, [])
  {
    hide Header, LengthIn;
    var s := Frame(msg) + rest;
    assert s == Header(|msg|) + (msg + rest);
    HeaderBack(|msg|, msg + rest);
    if seen >= 4 {
      assert s[..seen][..4] == s[..4];
    }
  }

  /** A stream cut anywhere yields only whole messages that were sent, in order. */
  lemma {:induction false} CutStream(msgs: seq<seq<byte>>, seen: nat)
    requires seen <= |Frames(msgs)| && forall m <- msgs :: Fits(m)
    ensures Messages(Frames(msgs)[..seen]) <= msgs
    decreases |msgs|
  {
    hide TakeFrame, Header;
    if msgs == [] {
      NothingLeft();
    } else {
      var m, rest := msgs[0], msgs[1..];
      assert msgs == [m] + rest;
      var size := 4 + |m|;
      if seen < size {
        CutFrame(m, Frames(rest), seen);
      } else {
        var left := Frames(rest)[..seen - size];
        assert Frames(msgs)[..seen] == Frame(m) + left;
        CutStream(rest, seen - size);
        FrameBack(m, left);
      }
    }
  }

  // ----- raw streams -----

  predicate IsSmb1(buf: seq<byte>) {
    |buf| >= 4 && buf[..4] == [0xFF, 0x53, 0x4D, 0x42]
  }

  /** Where the first message ends by its own fields; the whole buffer where they do not say. */
  function FirstEnd(buf: seq<byte>): nat {
    if |buf| < 36 then |buf|
    else if IsSmb1(buf) then
      var words := 2 * buf[32] as int;
      if |buf| < 35 + words then |buf| else 35 + words + U16(buf, 33 + words)
    else if |buf| < 68 then |buf|
    else if U16(buf, 12) == 0 && U16(buf, 4) == 36 then 64 + 36 + 2 * U16(buf, 66)
    else if U16(buf, 12) == 1 then
      if |buf| < 84 then |buf| else
      var end := U16(buf, 76) + U16(buf, 78);
      if end < 64 then |buf| else end
    else |buf|
  }

  function TruncateToFirstMessage(buf: seq<byte>): (r: seq<byte>)
    ensures r <= buf
  {
    if FirstEnd(buf) > |buf| then buf else buf[..FirstEnd(buf)]
  }

  /** Nothing that decides where the first message ends is ever cut off. */
  lemma EndIsInside(buf: seq<byte>, more: seq<byte>)
    requires FirstEnd(buf + more) <= |buf|
    ensures FirstEnd(buf) == FirstEnd(buf + more) || FirstEnd(buf) == |buf|
  {
    var s := buf + more;
    assert forall i :: 0 <= i < |buf| ==> s[i] == buf[i];
    if |buf| >= 36 {
      assert IsSmb1(s) == IsSmb1(buf) by {
        assert s[..4] == buf[..4];
      }
    }
  }

  lemma TruncateTwice(buf: seq<byte>)
    ensures TruncateToFirstMessage(TruncateToFirstMessage(buf)) == TruncateToFirstMessage(buf)
  {
    var first := TruncateToFirstMessage(buf);
    if FirstEnd(buf) <= |buf| {
      assert buf == first + buf[|first|..];
      EndIsInside(first, buf[|first|..]);
      assert first[..|first|] == first;
    }
  }

  /**
   * A message whose fields give its own length, by the layouts the function knows. A SESSION_SETUP must reach
   * one byte short of the 84 the function wants to see.
   */
  predicate SaysItsLength(m: seq<byte>) {
    if |m| < 35 then false
    else if IsSmb1(m) then
      && |m| >= 35 + 2 * m[32] as int
      && |m| == 35 + 2 * m[32] as int + U16(m, 33 + 2 * m[32] as int)
    else
      && |m| >= 83
      && if U16(m, 12) == 0 && U16(m, 4) == 36 then |m| == 100 + 2 * U16(m, 66)
         else U16(m, 12) == 1 && |m| == U16(m, 76) + U16(m, 78)
  }

  /** Such a message is cut out exactly, whatever the client sent after it. */
  lemma FirstMessageOut(m: seq<byte>, more: seq<byte>)
    requires SaysItsLength(m)
    ensures TruncateToFirstMessage(m + more) == m
  {
    var s := m + more;
    assert forall i :: 0 <= i < |m| ==> s[i] == m[i];
    assert s[..|m|] == m;
    assert s[..4] == m[..4];
    if more == [] {
      assert s == m;
    }
  }

  /** A whole SMB1 message: 32 bytes of header, the counted words, the counted bytes. */
  lemma Smb1Out(head: seq<byte>, words: seq<byte>, data: seq<byte>, more: seq<byte>)
    requires |head| == 32 && head[..4] == [0xFF, 0x53, 0x4D, 0x42]
    requires |words| % 2 == 0 && |words| < 512 && |data| < 0x1_0000
    ensures var m := head + [|words| / 2] + words + LE16(|data|) + data;
      TruncateToFirstMessage(m + more) == m
  {
    hide TruncateToFirstMessage;
    var m := head + [|words| / 2] + words + LE16(|data|) + data;
    assert m[..4] == head[..4] && m[32] == |words| / 2;
    assert m[33 + |words|..33 + |words| + 2] == LE16(|data|);
    ReadLE16(m, 33 + |words|, |data|);
    FirstMessageOut(m, more);
  }

  /** A whole SMB2 SESSION_SETUP request: 64 bytes of header, 24 of fixed fields, and the buffer they point at. */
  lemma SetupOut(head: seq<byte>, front: seq<byte>, back: seq<byte>, blob: seq<byte>, more: seq<byte>)
    requires |head| == 64 && head[..4] == [0xFE, 0x53, 0x4D, 0x42] && head[12..14] == [1, 0]
    requires |front| == 12 && |back| == 8 && |blob| < 0x1_0000
    ensures var m := head + front + LE16(88) + LE16(|blob|) + back + blob;
      TruncateToFirstMessage(m + more) == m
  {
    hide TruncateToFirstMessage;
    var m := head + front + LE16(88) + LE16(|blob|) + back + blob;
    assert m[..4] == head[..4] && m[12..14] == head[12..14];
    assert m[76..78] == LE16(88) && m[78..80] == LE16(|blob|);
    assert U16(m, 12) == 1 by {
      assert m[12..14][0] == m[12] && m[12..14][1] == m[13];
    }
    ReadLE16(m, 76, 88);
    ReadLE16(m, 78, |blob|);
    FirstMessageOut(m, more);
  }

  /** Longer than any length the fields can give. */
  function Filler(): (f: seq<byte>)
    ensures |f| == 200_000
  {
    seq(200_000, _ => 0)
  }

  lemma SameFront(m: seq<byte>, more: seq<byte>)
    ensures forall i :: 0 <= i < |m| ==> (m + more)[i] == m[i]
    ensures |m| >= 4 ==> IsSmb1(m + more) == IsSmb1(m)
  {
    if |m| >= 4 {
      assert (m + more)[..4] == m[..4];
    }
  }

  /** Any other message comes out wrong when the right bytes follow it: one more, or many. */
  lemma NotCutOut(m: seq<byte>) returns (more: seq<byte>)
    requires !SaysItsLength(m)
    ensures TruncateToFirstMessage(m + more) != m
  {
    if |m| < 35 || (!IsSmb1(m) && (|m| < 67 || (U16(m, 12) == 1 && |m| < 83))) {
      more := [0];
      SameFront(m, more);
      assert |m + more| == |m| + 1;
      assert FirstEnd(m + more) == |m| + 1;
    } else {
      more := Filler();
      SameFront(m, more);
      FillerEnd(m, more);
    }
  }

  lemma FillerEnd(m: seq<byte>, more: seq<byte>)
    requires |m| >= 35 && !SaysItsLength(m) && |more| == 200_000
    requires !IsSmb1(m) ==> |m| >= 67 && (U16(m, 12) == 1 ==> |m| >= 83)
    requires forall i :: 0 <= i < |m| ==> (m + more)[i] == m[i]
    requires IsSmb1(m + more) == IsSmb1(m)
    ensures FirstEnd(m + more) <= |m + more| && FirstEnd(m + more) != |m|
  {
  }

  /** A message is cut out exactly, whatever follows it, if and only if its fields give its own length. */
  lemma FirstMessageOutIff(m: seq<byte>)
    ensures (forall more :: TruncateToFirstMessage(m + more) == m) <==> SaysItsLength(m)
  {
    hide TruncateToFirstMessage, SaysItsLength;
    if SaysItsLength(m) {
      forall more
        ensures TruncateToFirstMessage(m + more) == m
      {
        FirstMessageOut(m, more);
      }
    } else {
      var more := NotCutOut(m);
    }
  }

  /** A NEGOTIATE request with the header size of section 2.2.1.1 of MS-SMB2 is never cut. */
  lemma NegotiateKeepsAll(buf: seq<byte>)
    requires |buf| >= 68 && !IsSmb1(buf) && U16(buf, 4) == 64 && U16(buf, 12) == 0
    ensures TruncateToFirstMessage(buf) == buf
  {
    assert buf[..|buf|] == buf;
  }

  // ----- reading a raw stream -----

  function Min(a: nat, b: nat): nat { if a < b then a else b }

  function Sum(sizes: seq<nat>): nat {
    if sizes == [] then 0 else sizes[0] + Sum(sizes[1..])
  }

  /**
   * The buffer, and what is left of the stream, after reads of the given sizes; the next one times out or meets
   * the end. No read starts at 64 KiB.
   */
  function Accumulated(buf: seq<byte>, input: seq<byte>, sizes: seq<nat>): (seq<byte>, seq<byte>)
    decreases |sizes|
  {
    if |buf| >= LIMIT || sizes == [] then (buf, input)
    else
      var n := Min(sizes[0], |input|);
      Accumulated(buf + input[..n], input[n..], sizes[1..])
  }

  /** Up to 64 KiB it does not matter how the stream was cut into reads: all that arrived is in the buffer. */
  lemma {:induction false} ReadsDoNotMatter(buf: seq<byte>, input: seq<byte>, sizes: seq<nat>)
    requires Sum(sizes) <= |input| && |buf| + Sum(sizes) <= 0x1_0000
    ensures Accumulated(buf, input, sizes) == (buf + input[..Sum(sizes)], input[Sum(sizes)..])
    decreases |sizes|
  {
    if sizes == [] {
      assert buf + input[..0] == buf && input[0..] == input;
    } else if |buf| < LIMIT {
      var n, rest := sizes[0], Sum(sizes[1..]);
      ReadsDoNotMatter(buf + input[..n], input[n..], sizes[1..]);
      assert buf + input[..n] + input[n..][..rest] == buf + input[..n + rest];
      assert input[n..][rest..] == input[n + rest..];
    } else {
      assert Sum(sizes) == 0;
      assert buf + input[..0] == buf && input[0..] == input;
    }
  }

  /** Nothing is lost or made up, and the buffer stays below 64 KiB and one read. */
  lemma {:induction false} AccumulatedBounded(buf: seq<byte>, input: seq<byte>, sizes: seq<nat>)
    requires |buf| < 0x1_0000 + 4096 && forall n <- sizes :: n <= 4096
    ensures var (all, left) := Accumulated(buf, input, sizes);
      all + left == buf + input && buf <= all && |all| < 0x1_0000 + 4096
    decreases |sizes|
  {
    if |buf| < LIMIT && sizes != [] {
      assert sizes[0] in sizes && forall n <- sizes[1..] :: n in sizes;
      var n := Min(sizes[0], |input|);
      AccumulatedBounded(buf + input[..n], input[n..], sizes[1..]);
      assert buf + input[..n] + input[n..] == buf + input;
    }
  }

  function RawMessage(buf: seq<byte>): Read {
    if |buf| < 4 then BadFrame else Message(TruncateToFirstMessage(buf))
  }

  /**
   * A client whose first message gives its own length, whatever it sends along with it before it falls silent:
   * the first raw read, head and all, returns that message.
   */
  lemma RawFirstMessage(m: seq<byte>, more: seq<byte>, later: seq<byte>, sizes: seq<nat>)
    requires SaysItsLength(m) && |m + more| <= 0x1_0000 && 4 + Sum(sizes) == |m + more|
    ensures var s := m + more + later;
      RawMessage(Accumulated(s[..4], s[4..], sizes).0) == Message(m)
  {
    var s := m + more + later;
    ReadsDoNotMatter(s[..4], s[4..], sizes);
    assert s[..4] + s[4..][..Sum(sizes)] == m + more;
    FirstMessageOut(m, more);
  }

  // ----- the transport -----

  class Transport {
    var raw: bool
    var input: seq<byte>
    var output: seq<byte>

    constructor (conn: seq<byte>)
      ensures !raw && input == conn && output == []
    {
      raw, input, output := false, conn, [];
    }

    /** `io.ReadFull`: `n` bytes, or an error after taking whatever there was. */
    method ReadFull(n: nat) returns (ok: bool, got: seq<byte>)
      modifies this`input
      ensures ok == (n <= |old(input)|)
      ensures ok ==> got == old(input)[..n] && input == old(input)[n..]
      ensures !ok ==> input == []
    {
      ok := n <= |input|;
      if ok {
        got, input := input[..n], input[n..];
      } else {
        got, input := input, [];
      }
    }

    /** The first read settles the framing; `sizes` is how a raw stream arrives before it falls silent. */
    method ReadHead(sizes: seq<nat>) returns (r: Read)
      modifies this`input, this`raw
      ensures var i := old(input);
        if |i| < 4 then r == Ended && raw == old(raw)
        else if i[0] == 0 then (r, input) == TakeFrame(i) && raw == old(raw)
        else if i[0] == 0xFF || i[0] == 0xFE then
          raw && r == RawMessage(Accumulated(i[..4], i[4..], sizes).0) && input == Accumulated(i[..4], i[4..], sizes).1
        else r == BadFrame && raw == old(raw)
    {
      var ok, head := ReadFull(4);
      if !ok {
        return Ended;
      }
      assert old(input) == head + input && old(input)[..4] == head;
      if head[0] == 0 {
        r := ReadBody(head);
      } else if head[0] == 0xFF || head[0] == 0xFE {
        raw := true;
        r := RawReadMessage(head, sizes);
      } else {
        r := BadFrame;
      }
    }

    method ReadMsg(sizes: seq<nat>) returns (r: Read)
      modifies this`input
      ensures !raw ==> (r, input) == TakeFrame(old(input))
      ensures raw ==> r == RawMessage(Accumulated([], old(input), sizes).0)
      ensures raw ==> input == Accumulated([], old(input), sizes).1
    {
      if raw {
        r := RawReadMessage([], sizes);
        return;
      }
      var ok, head := ReadFull(4);
      if !ok {
        return Ended;
      }
      assert old(input) == head + input;
      r := ReadBody(head);
    }

    method ReadBody(head: seq<byte>) returns (r: Read)
      requires |head| == 4
      modifies this`input
      ensures (r, input) == TakeFrame(head + old(input))
    {
      var length := LengthIn(head);
      assert (head + input)[..4] == head && (head + input)[4..] == input;
      if length == 0 || length > LIMIT {
        return BadFrame;
      }
      assert length <= |input| ==>
          && (head + input)[4..4 + length] == input[..length]
          && (head + input)[4 + length..] == input[length..];
      var ok, buf := ReadFull(length);
      r := if ok then Message(buf) else Ended;
    }

    /** Reads until one fails, or the buffer has reached 64 KiB. */
    method RawReadMessage(prefix: seq<byte>, sizes: seq<nat>) returns (r: Read)
      modifies this`input
      ensures r == RawMessage(Accumulated(prefix, old(input), sizes).0)
      ensures input == Accumulated(prefix, old(input), sizes).1
    {
      var buf, k := prefix, 0;
      while |buf| < LIMIT && k < |sizes|
        invariant k <= |sizes|
        invariant Accumulated(buf, input, sizes[k..]) == Accumulated(prefix, old(input), sizes)
      {
        var n := Min(sizes[k], |input|);
        assert sizes[k..][1..] == sizes[k + 1..];
        buf, input, k := buf + input[..n], input[n..], k + 1;
      }
      r := if |buf| < 4 then BadFrame else Message(TruncateToFirstMessage(buf));
    }

    method WriteMsg(msg: seq<byte>)
      modifies this`output
      ensures output == old(output) + if raw then msg else Frame(msg)
    {
      if raw {
        output := output + msg;
      } else {
        var n := |msg|;
        var hdr := [0, n / 0x1_0000 % 0x100, n / 0x100 % 0x100, n % 0x100];
        output := output + (hdr + msg);
      }
    }
  }
}
