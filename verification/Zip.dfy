/**
 The stored-only ZIP writer of `document-tokens.ts`, the layout it promises, and a ZIP reader
 that starts from the end record (sections 4.3.7, 4.3.12 and 4.3.16 of PKWARE APPNOTE.TXT).
 */
module Zip {
  import opened Bytes
  import opened Options
  import Crc32

  /** A name and its contents, both already in UTF-8. */
  datatype Entry = Entry(name: seq<byte>, data: seq<byte>)

  const LOCAL_SIG := 0x04034b50
  const CENTRAL_SIG := 0x02014b50
  const END_SIG := 0x06054b50

  // ----- the layout -----

  function LocalSize(e: Entry): nat { 30 + |e.name| + |e.data| }

  function CentralSize(e: Entry): nat { 46 + |e.name| }

  /** Where the local header of entry `i` starts; `Off(es, |es|)` is where the directory starts. */
  function Off(es: seq<Entry>, i: nat): nat
    requires i <= |es|
  {
    if i == 0 then 0 else Off(es, i - 1) + LocalSize(es[i - 1])
  }

  /** Where the directory record of entry `i` starts, counted from the start of the directory. */
  function DirOff(es: seq<Entry>, i: nat): nat
    requires i <= |es|
  {
    if i == 0 then 0 else DirOff(es, i - 1) + CentralSize(es[i - 1])
  }

  ghost predicate LocalHeader(h: seq<byte>, crc: nat, size: nat, nameLen: nat) {
    && |h| == 30
    && U32(h, 0) == LOCAL_SIG
    && U16(h, 4) == 20 && U16(h, 6) == 0x0800 && U16(h, 8) == 0 && U16(h, 10) == 0 && U16(h, 12) == 0
    && U32(h, 14) == crc && U32(h, 18) == size && U32(h, 22) == size
    && U16(h, 26) == nameLen && U16(h, 28) == 0
  }

  ghost predicate CentralHeader(h: seq<byte>, crc: nat, size: nat, nameLen: nat, off: nat) {
    && |h| == 46
    && U32(h, 0) == CENTRAL_SIG
    && U16(h, 4) == 20 && U16(h, 6) == 20 && U16(h, 8) == 0x0800
    && U16(h, 10) == 0 && U16(h, 12) == 0 && U16(h, 14) == 0
    && U32(h, 16) == crc && U32(h, 20) == size && U32(h, 24) == size
    && U16(h, 28) == nameLen && U16(h, 30) == 0 && U16(h, 32) == 0
    && U16(h, 34) == 0 && U16(h, 36) == 0 && U32(h, 38) == 0
    && U32(h, 42) == off
  }

  ghost predicate EndRecord(h: seq<byte>, count: nat, size: nat, off: nat) {
    && |h| == 22
    && U32(h, 0) == END_SIG && U16(h, 4) == 0 && U16(h, 6) == 0
    && U16(h, 8) == count && U16(h, 10) == count
    && U32(h, 12) == size && U32(h, 16) == off && U16(h, 20) == 0
  }

  /** The local header, the name and the data of `e` stand at `at`. */
  ghost predicate LocalAt(img: seq<byte>, at: nat, e: Entry) {
    && at + LocalSize(e) <= |img|
    && LocalHeader(img[at..at + 30], Crc32.Checksum(e.data), |e.data|, |e.name|)
    && img[at + 30..at + 30 + |e.name|] == e.name
    && img[at + 30 + |e.name|..at + LocalSize(e)] == e.data
  }

  /** The directory record of `e`, pointing at `off`, stands at `at`. */
  ghost predicate CentralAt(img: seq<byte>, at: nat, e: Entry, off: nat) {
    && at + CentralSize(e) <= |img|
    && CentralHeader(img[at..at + 46], Crc32.Checksum(e.data), |e.data|, |e.name|, off)
    && img[at + 46..at + CentralSize(e)] == e.name
  }

  /**
   * `img` is the archive of `es`: every header field and every name and data byte is where it belongs, and
   * nothing else is there.
   */
  ghost predicate IsArchive(img: seq<byte>, es: seq<Entry>) {
    var n, start := |es|, Off(es, |es|);
    && |img| == start + DirOff(es, n) + 22
    && (forall i :: 0 <= i < n ==> LocalAt(img, Off(es, i), es[i]))
    && (forall i :: 0 <= i < n ==> CentralAt(img, start + DirOff(es, i), es[i], Off(es, i)))
    && EndRecord(img[|img| - 22..], n, DirOff(es, n), start)
  }

  /** Every number fits the field it is written to. */
  ghost predicate Fits(es: seq<Entry>) {
    && |es| < 0x1_0000
    && (forall i :: 0 <= i < |es| ==> |es[i].name| < 0x1_0000)
    && Off(es, |es|) < 0x1_0000_0000
    && DirOff(es, |es|) < 0x1_0000_0000
  }

  // ----- the reader -----

  /** The one flag the reader knows, bit 11: names are in UTF-8. It reads stored entries only. */
  const UTF8_NAMES := 0x0800

  /** The last position whose end record, comment included, reaches exactly to the end of the file. */
  function FindEnd(img: seq<byte>, at: nat): (end: Option<nat>)
    requires at + 22 <= |img|
    ensures end.Some? ==> end.value + 22 <= |img|
  {
    var h := img[at..at + 22];
    if U32(h, 0) == 0x0605_4B50 && at + 22 + U16(h, 20) == |img| then Some(at)
    else if at == 0 then None
    else FindEnd(img, at - 1)
  }

  /** The contents announced by a local header, if the header agrees with its directory record. */
  function ReadLocal(img: seq<byte>, at: nat, name: seq<byte>, crc: nat, size: nat): Option<seq<byte>> {
    if at + 30 > |img| then None
    else
      var h := img[at..at + 30];
      var start := at + 30 + U16(h, 26) + U16(h, 28);
      if U32(h, 0) != 0x0403_4B50 || U16(h, 4) > 20 || U16(h, 6) != UTF8_NAMES || U16(h, 8) != 0 then None
      else if start + size > |img| then None
      else if U32(h, 14) != crc || U32(h, 18) != size || U32(h, 22) != size then None
      else if img[at + 30..at + 30 + U16(h, 26)] != name then None
      else if Crc32.Checksum(img[start..start + size]) != crc then None
      else Some(img[start..start + size])
  }

  /** The entry of the directory record at `at`, and where the next record starts. */
  function ReadRecord(img: seq<byte>, at: nat): Option<(Entry, nat)> {
    if at + 46 > |img| then None
    else
      var h := img[at..at + 46];
      var n := U16(h, 28);
      if U32(h, 0) != 0x0201_4B50 || U16(h, 6) > 20 || U16(h, 8) != UTF8_NAMES || U16(h, 10) != 0 then None
      else if U32(h, 20) != U32(h, 24) || U16(h, 34) != 0 || at + 46 + n > |img| then None
      else
        var name := img[at + 46..at + 46 + n];
        match ReadLocal(img, U32(h, 42), name, U32(h, 16), U32(h, 20))
        case None => None
        case Some(data) => Some((Entry(name, data), at + 46 + n + U16(h, 30) + U16(h, 32)))
  }

  /** The `count` entries of a directory that starts at `at` and ends at `stop`. */
  function ReadDirectory(img: seq<byte>, at: nat, stop: nat, count: nat): Option<seq<Entry>>
    decreases count
  {
    if count == 0 then (if at == stop then Some([]) else None)
    else
      match ReadRecord(img, at)
      case None => None
      case Some((entry, next)) =>
        match ReadDirectory(img, next, stop, count - 1)
        case None => None
        case Some(rest) => Some([entry] + rest)
  }

  function ReadZip(img: seq<byte>): Option<seq<Entry>> {
    if |img| < 22 then None
    else
      match FindEnd(img, |img| - 22)
      case None => None
      case Some(at) =>
        var h := img[at..at + 22];
        var start, size := U32(h, 16), U32(h, 12);
        if U16(h, 4) != 0 || U16(h, 8) != U16(h, 10) || start + size != at then None
        else ReadDirectory(img, start, at, U16(h, 10))
  }

  // ----- reading undoes writing -----

  lemma ReadLocalBack(img: seq<byte>, at: nat, e: Entry)
    requires LocalAt(img, at, e)
    ensures ReadLocal(img, at, e.name, Crc32.Checksum(e.data), |e.data|) == Some(e.data)
  {
    hide U16, U32, Crc32.Checksum;
  }

  lemma ReadRecordBack(img: seq<byte>, at: nat, e: Entry, off: nat)
    requires CentralAt(img, at, e, off) && LocalAt(img, off, e)
    ensures ReadRecord(img, at) == Some((e, at + CentralSize(e)))
  {
    hide U16, U32, LocalAt, ReadLocal, Crc32.Checksum;
    ReadLocalBack(img, off, e);
  }

  lemma DirOffNext(es: seq<Entry>, i: nat)
    requires i < |es|
    ensures DirOff(es, i + 1) == DirOff(es, i) + CentralSize(es[i])
  {
  }

  lemma OffNext(es: seq<Entry>, i: nat)
    requires i < |es|
    ensures Off(es, i + 1) == Off(es, i) + LocalSize(es[i])
  {
  }

  lemma RecordsBack(img: seq<byte>, es: seq<Entry>)
    requires IsArchive(img, es)
    ensures forall j :: 0 <= j < |es| ==>
      ReadRecord(img, Off(es, |es|) + DirOff(es, j)) == Some((es[j], Off(es, |es|) + DirOff(es, j + 1)))
  {
    hide CentralAt, LocalAt, EndRecord, ReadRecord, Off, DirOff;
    forall j | 0 <= j < |es|
      ensures ReadRecord(img, Off(es, |es|) + DirOff(es, j)) == Some((es[j], Off(es, |es|) + DirOff(es, j + 1)))
    {
      DirOffNext(es, j);
      ReadRecordBack(img, Off(es, |es|) + DirOff(es, j), es[j], Off(es, j));
    }
  }

  lemma {:induction false} ReadDirectoryBack(img: seq<byte>, es: seq<Entry>, start: nat, i: nat)
    requires i <= |es|
    requires forall j :: i <= j < |es| ==>
      ReadRecord(img, start + DirOff(es, j)) == Some((es[j], start + DirOff(es, j + 1)))
    ensures ReadDirectory(img, start + DirOff(es, i), start + DirOff(es, |es|), |es| - i) == Some(es[i..])
    decreases |es| - i
  {
    hide ReadRecord, DirOff;
    if i < |es| {
      ReadDirectoryBack(img, es, start, i + 1);
      assert es[i..] == [es[i]] + es[i + 1..];
    }
  }

  lemma FindEndBack(img: seq<byte>, at: nat, count: nat, size: nat, off: nat)
    requires |img| == at + 22 && EndRecord(img[at..], count, size, off)
    ensures FindEnd(img, at) == Some(at)
  {
    hide U16, U32;
    assert img[at..at + 22] == img[at..];
  }

  /** The reader returns exactly the names and contents that were written, checksums matching. */
  lemma ReadBack(img: seq<byte>, es: seq<Entry>)
    requires IsArchive(img, es)
    ensures ReadZip(img) == Some(es)
  {
    hide CentralAt, LocalAt, U16, U32, ReadDirectory, ReadRecord, FindEnd, Off, DirOff;
    var at := |img| - 22;
    FindEndBack(img, at, |es|, DirOff(es, |es|), Off(es, |es|));
    assert img[at..at + 22] == img[at..];
    RecordsBack(img, es);
    ReadDirectoryBack(img, es, Off(es, |es|), 0);
    DirOffZero(es);
    assert es[0..] == es;
  }

  lemma DirOffZero(es: seq<Entry>)
    ensures DirOff(es, 0) == 0
  {
  }

  // ----- the writer -----

  /** A field writer throws when the number does not fit, and so does everything above it. */
  datatype Result<+T> = Ok(value: T) | RangeError {
    predicate IsFailure() { RangeError? }

    function PropagateFailure<U>(): Result<U>
      requires IsFailure()
    {
      RangeError
    }

    function Extract(): T
      requires Ok?
    {
      value
    }
  }

  method WriteUInt16LE(b: array<byte>, v: nat, at: nat)
    requires at + 2 <= b.Length && v < 0x1_0000
    modifies b
    ensures U16(b[..], at) == v
    ensures forall k {:trigger U16(b[..], k)} ::
      0 <= k && k + 2 <= b.Length && (k + 2 <= at || at + 2 <= k) ==>
        U16(b[..], k) == old(U16(b[..], k))
    ensures forall k {:trigger U32(b[..], k)} ::
      0 <= k && k + 4 <= b.Length && (k + 4 <= at || at + 2 <= k) ==>
        U32(b[..], k) == old(U32(b[..], k))
  {
    b[at] := v % 0x100;
    b[at + 1] := v / 0x100;
  }

  method WriteUInt32LE(b: array<byte>, v: nat, at: nat)
    requires at + 4 <= b.Length && v < 0x1_0000_0000
    modifies b
    ensures U32(b[..], at) == v
    ensures forall k {:trigger U16(b[..], k)} ::
      0 <= k && k + 2 <= b.Length && (k + 2 <= at || at + 4 <= k) ==>
        U16(b[..], k) == old(U16(b[..], k))
    ensures forall k {:trigger U32(b[..], k)} ::
      0 <= k && k + 4 <= b.Length && (k + 4 <= at || at + 4 <= k) ==>
        U32(b[..], k) == old(U32(b[..], k))
  {
    b[at] := v % 0x100;
    b[at + 1] := v / 0x100 % 0x100;
    b[at + 2] := v / 0x1_0000 % 0x100;
    b[at + 3] := v / 0x100_0000;
  }

  /** A zero-filled buffer. */
  method Alloc(n: nat) returns (b: array<byte>)
    ensures fresh(b) && b.Length == n
    ensures forall k :: 0 <= k && k + 2 <= n ==> U16(b[..], k) == 0
    ensures forall k :: 0 <= k && k + 4 <= n ==> U32(b[..], k) == 0
  {
    b := new byte[n](_ => 0);
  }

  /** The fields both headers share: checksum, both sizes, and the length of the name. */
  method WriteSizes(b: array<byte>, crc: nat, size: nat, nameLen: nat, at: nat)
    requires at + 14 <= b.Length && crc < 0x1_0000_0000 && size < 0x1_0000_0000 && nameLen < 0x1_0000
    modifies b
    ensures U32(b[..], at) == crc && U32(b[..], at + 4) == size && U32(b[..], at + 8) == size
    ensures U16(b[..], at + 12) == nameLen
    ensures forall k {:trigger U16(b[..], k)} ::
      0 <= k && k + 2 <= b.Length && (k + 2 <= at || at + 14 <= k) ==>
        U16(b[..], k) == old(U16(b[..], k))
    ensures forall k {:trigger U32(b[..], k)} ::
      0 <= k && k + 4 <= b.Length && (k + 4 <= at || at + 14 <= k) ==>
        U32(b[..], k) == old(U32(b[..], k))
  {
    hide U16, U32;
    WriteUInt32LE(b, crc, at);
    WriteUInt32LE(b, size, at + 4);
    WriteUInt32LE(b, size, at + 8);
    WriteUInt16LE(b, nameLen, at + 12);
  }

  method NewLocalHeader(crc: nat, size: nat, nameLen: nat) returns (r: Result<seq<byte>>)
    requires crc < 0x1_0000_0000
    ensures r.Ok? <==> size < 0x1_0000_0000 && nameLen < 0x1_0000
    ensures r.Ok? ==> LocalHeader(r.value, crc, size, nameLen)
  {
    hide U16, U32;
    if size >= 0x1_0000_0000 || nameLen >= 0x1_0000 {
      return RangeError;
    }
    var local := Alloc(30);
    WriteUInt32LE(local, LOCAL_SIG, 0);
    WriteUInt16LE(local, 20, 4);
    WriteUInt16LE(local, 0x0800, 6);
    WriteUInt16LE(local, 0, 8);
    WriteSizes(local, crc, size, nameLen, 14);
    return Ok(local[..]);
  }

  method NewCentralHeader(crc: nat, size: nat, nameLen: nat, off: nat) returns (r: Result<seq<byte>>)
    requires crc < 0x1_0000_0000
    ensures r.Ok? <==> size < 0x1_0000_0000 && nameLen < 0x1_0000 && off < 0x1_0000_0000
    ensures r.Ok? ==> CentralHeader(r.value, crc, size, nameLen, off)
  {
    hide U16, U32;
    if size >= 0x1_0000_0000 || nameLen >= 0x1_0000 || off >= 0x1_0000_0000 {
      return RangeError;
    }
    var cen := Alloc(46);
    WriteUInt32LE(cen, CENTRAL_SIG, 0);
    WriteUInt16LE(cen, 20, 4);
    WriteUInt16LE(cen, 20, 6);
    WriteUInt16LE(cen, 0x0800, 8);
    WriteUInt16LE(cen, 0, 10);
    WriteSizes(cen, crc, size, nameLen, 16);
    WriteUInt32LE(cen, off, 42);
    return Ok(cen[..]);
  }

  method NewEndRecord(count: nat, size: nat, off: nat) returns (r: Result<seq<byte>>)
    ensures r.Ok? <==> count < 0x1_0000 && size < 0x1_0000_0000 && off < 0x1_0000_0000
    ensures r.Ok? ==> EndRecord(r.value, count, size, off)
  {
    hide U16, U32;
    if count >= 0x1_0000 || size >= 0x1_0000_0000 || off >= 0x1_0000_0000 {
      return RangeError;
    }
    var end := Alloc(22);
    WriteUInt32LE(end, END_SIG, 0);
    WriteUInt16LE(end, count, 8);
    WriteUInt16LE(end, count, 10);
    WriteUInt32LE(end, size, 12);
    WriteUInt32LE(end, off, 16);
    return Ok(end[..]);
  }

  lemma LocalAppended(img: seq<byte>, h: seq<byte>, e: Entry)
    requires LocalHeader(h, Crc32.Checksum(e.data), |e.data|, |e.name|)
    ensures LocalAt(img + (h + e.name + e.data), |img|, e)
  {
    hide U16, U32, Crc32.Checksum;
    var out := img + (h + e.name + e.data);
    assert out[|img|..|img| + 30] == h;
    assert out[|img| + 30..|img| + 30 + |e.name|] == e.name;
    assert out[|img| + 30 + |e.name|..|img| + LocalSize(e)] == e.data;
  }

  lemma CentralAppended(img: seq<byte>, h: seq<byte>, e: Entry, off: nat)
    requires CentralHeader(h, Crc32.Checksum(e.data), |e.data|, |e.name|, off)
    ensures CentralAt(img + (h + e.name), |img|, e, off)
  {
    hide U16, U32, Crc32.Checksum;
    var out := img + (h + e.name);
    assert out[|img|..|img| + 46] == h;
    assert out[|img| + 46..|img| + CentralSize(e)] == e.name;
  }

  /** What has been written stays where it is when more is appended or put in front. */
  lemma LocalKept(img: seq<byte>, more: seq<byte>, at: nat, e: Entry)
    requires LocalAt(img, at, e)
    ensures LocalAt(img + more, at, e)
  {
    hide LocalHeader, Crc32.Checksum;
    var out := img + more;
    assert out[at..at + 30] == img[at..at + 30];
    assert out[at + 30..at + 30 + |e.name|] == img[at + 30..at + 30 + |e.name|];
    assert out[at + 30 + |e.name|..at + LocalSize(e)] == img[at + 30 + |e.name|..at + LocalSize(e)];
  }

  lemma CentralKept(front: seq<byte>, dir: seq<byte>, more: seq<byte>, at: nat, e: Entry, off: nat)
    requires CentralAt(dir, at, e, off)
    ensures CentralAt(front + dir + more, |front| + at, e, off)
  {
    hide CentralHeader, Crc32.Checksum;
    var out, to := front + dir + more, |front| + at;
    assert out[to..to + 46] == dir[at..at + 46];
    assert out[to + 46..to + CentralSize(e)] == dir[at + 46..at + CentralSize(e)];
  }

  lemma {:induction false} OffMonotonic(es: seq<Entry>, i: nat, j: nat)
    requires i <= j <= |es|
    ensures Off(es, i) <= Off(es, j) && DirOff(es, i) <= DirOff(es, j)
    decreases j - i
  {
    if i < j {
      OffMonotonic(es, i, j - 1);
    }
  }

  /** The first `i` entries have been written: bodies to `chunks`, directory records to `central`. */
  ghost predicate Written(chunks: seq<byte>, central: seq<byte>, es: seq<Entry>, i: nat)
    requires i <= |es|
  {
    && |chunks| == Off(es, i) && |central| == DirOff(es, i)
    && (forall j :: 0 <= j < i ==> LocalAt(chunks, Off(es, j), es[j]))
    && (forall j :: 0 <= j < i ==> CentralAt(central, DirOff(es, j), es[j], Off(es, j)))
  }

  lemma HeaderLengths(local: seq<byte>, cen: seq<byte>, crc: nat, e: Entry, off: nat)
    requires LocalHeader(local, crc, |e.data|, |e.name|)
    requires CentralHeader(cen, crc, |e.data|, |e.name|, off)
    ensures |local| == 30 && |cen| == 46
  {
  }

  lemma WrittenNext(chunks: seq<byte>, central: seq<byte>, es: seq<Entry>, i: nat, local: seq<byte>, cen: seq<byte>)
    requires i < |es| && Written(chunks, central, es, i)
    requires LocalHeader(local, Crc32.Checksum(es[i].data), |es[i].data|, |es[i].name|)
    requires CentralHeader(cen, Crc32.Checksum(es[i].data), |es[i].data|, |es[i].name|, Off(es, i))
    ensures Written(chunks + (local + es[i].name + es[i].data), central + (cen + es[i].name), es, i + 1)
  {
    hide LocalHeader, CentralHeader, LocalAt, CentralAt, Off, DirOff, Crc32.Checksum;
    var e := es[i];
    var bodies, records := chunks + (local + e.name + e.data), central + (cen + e.name);
    HeaderLengths(local, cen, Crc32.Checksum(e.data), e, Off(es, i));
    OffNext(es, i);
    DirOffNext(es, i);
    LocalAppended(chunks, local, e);
    CentralAppended(central, cen, e, Off(es, i));
    forall j | 0 <= j < i
      ensures LocalAt(bodies, Off(es, j), es[j]) && CentralAt(records, DirOff(es, j), es[j], Off(es, j))
    {
      LocalKept(chunks, local + e.name + e.data, Off(es, j), es[j]);
      CentralKept([], central, cen + e.name, DirOff(es, j), es[j], Off(es, j));
      assert [] + central + (cen + e.name) == records;
    }
  }

  lemma WrittenAll(chunks: seq<byte>, central: seq<byte>, es: seq<Entry>, end: seq<byte>)
    requires Written(chunks, central, es, |es|)
    requires EndRecord(end, |es|, |central|, |chunks|)
    ensures IsArchive(chunks + central + end, es)
  {
    hide LocalAt, CentralAt, Off, DirOff, U16, U32;
    var img := chunks + central + end;
    assert img[|img| - 22..] == end;
    forall i | 0 <= i < |es|
      ensures LocalAt(img, Off(es, i), es[i])
      ensures CentralAt(img, Off(es, |es|) + DirOff(es, i), es[i], Off(es, i))
    {
      LocalKept(chunks, central + end, Off(es, i), es[i]);
      assert chunks + (central + end) == img;
      CentralKept(chunks, central, end, DirOff(es, i), es[i], Off(es, i));
    }
  }

  /**
   * The writer: `chunks` and `central` stand for the concatenation of the buffer lists of that name.
   * It succeeds exactly when every number fits its field.
   */
  method BuildZip(es: seq<Entry>, crc32: Crc32.Crc32Calculator) returns (r: Result<seq<byte>>)
    requires crc32.Valid()
    modifies crc32
    ensures crc32.Valid()
    ensures r.Ok? <==> Fits(es)
    ensures r.Ok? ==> IsArchive(r.value, es) && ReadZip(r.value) == Some(es)
  {
    hide LocalHeader, CentralHeader, EndRecord, LocalAt, CentralAt, Off, DirOff, Crc32.Checksum, IsArchive, ReadZip;
    var chunks: seq<byte>, central: seq<byte>, offset := [], [], 0;
    WrittenNone(es);
    for i := 0 to |es|
      invariant crc32.Valid()
      invariant offset == |chunks| && Written(chunks, central, es, i)
      invariant forall j :: 0 <= j < i ==> |es[j].name| < 0x1_0000
    {
      var e := es[i];
      var crc := crc32.Crc32(e.data);
      OffNext(es, i);
      OffMonotonic(es, i + 1, |es|);
      var local :- NewLocalHeader(crc, |e.data|, |e.name|);
      var cen :- NewCentralHeader(crc, |e.data|, |e.name|, offset);
      WrittenNext(chunks, central, es, i, local, cen);
      HeaderLengths(local, cen, crc, e, offset);
      chunks := chunks + (local + e.name + e.data);
      central := central + (cen + e.name);
      offset := offset + |local| + |e.name| + |e.data|;
    }
    var end :- NewEndRecord(|es|, |central|, offset);
    WrittenAll(chunks, central, es, end);
    ReadBack(chunks + central + end, es);
    return Ok(chunks + central + end);
  }

  lemma WrittenNone(es: seq<Entry>)
    ensures Written([], [], es, 0)
  {
  }
}
