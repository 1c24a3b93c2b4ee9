/**
 The hand-written PDF of `pdf-clone-tokens.ts`: the cross-reference table it computes, and a reader that
 goes from the end of the file to the table and from there to the objects (section 7.5.4 of ISO 32000-1).
 */
module Pdf {
  import opened Bytes
  import opened Decimals
  import opened Options
  import opened Units

  // ----- the writer -----

  const HEADER := "%PDF-1.4\n"

  function ObjectText(k: nat, body: Str): Str {
    Decimal(k) + Ascii(" 0 obj\n") + body + Ascii("\nendobj\n")
  }

  /** The file up to and including object `n`. */
  function Upto(objects: seq<Str>, n: nat): Str
    requires n <= |objects|
  {
    if n == 0 then Ascii(HEADER) else Upto(objects, n - 1) + ObjectText(n, objects[n - 1])
  }

  /** Where object `k + 1` starts. */
  function Offsets(objects: seq<Str>): (offs: seq<nat>)
    ensures |offs| == |objects|
  {
    seq(|objects|, k requires 0 <= k < |objects| => |Upto(objects, k)|)
  }

  function Zeros(n: nat): (z: seq<digit>)
    ensures |z| == n
  {
    seq(n, _ => 0x30)
  }

  /** `padStart(10, "0")` */
  function Pad10(s: seq<digit>): seq<digit> {
    if |s| < 10 then Zeros(10 - |s|) + s else s
  }

  const ROW_TAIL := " 00000 n \n"

  function RowText(off: nat): Str {
    Pad10(Decimal(off)) + Ascii(ROW_TAIL)
  }

  function RowsText(offs: seq<nat>): Str {
    if offs == [] then [] else RowText(offs[0]) + RowsText(offs[1..])
  }

  const FREE_ROW := "0000000000 65535 f \n"

  function TableText(offs: seq<nat>): Str {
    Ascii("xref\n0 ") + Decimal(|offs| + 1) + Ascii("\n") + Ascii(FREE_ROW) + RowsText(offs)
  }

  function TrailerText(count: nat): Str {
    Ascii("trailer\n<< /Size ") + Decimal(count + 1) + Ascii(" /Root 1 0 R >>\n")
  }

  const START_XREF := "startxref\n"
  const END_OF_FILE := "\n%%EOF"

  function Document(objects: seq<Str>): Str {
    var bodies := Upto(objects, |objects|);
    bodies + TableText(Offsets(objects)) + TrailerText(|objects|)
    + Ascii(START_XREF) + Decimal(|bodies|) + Ascii(END_OF_FILE)
  }

  /** `Buffer.from(…, "latin1")` keeps the low byte of every unit. */
  function Latin1(s: Str): (b: seq<byte>)
    ensures |b| == |s|
  {
    seq(|s|, i requires 0 <= i < |s| => s[i] % 0x100)
  }

  method BuildRows(offsets: seq<nat>, front: Str) returns (out: Str)
    ensures out == front + RowsText(offsets)
  {
    hide RowText;
    out := front;
    for i := 0 to |offsets|
      invariant out == front + RowsText(offsets[..i])
    {
      RowsOneMore(offsets[..i], offsets[i]);
      assert offsets[..i] + [offsets[i]] == offsets[..i + 1];
      out := out + RowText(offsets[i]);
    }
    assert offsets[..|offsets|] == offsets;
  }

  method BuildDocument(objects: seq<Str>) returns (file: seq<byte>)
    ensures file == Latin1(Document(objects))
  {
    hide Ascii, Decimal, ObjectText, RowsText, TrailerText, Latin1;
    var out := Ascii(HEADER);
    var offsets: seq<nat> := [];
    for i := 0 to |objects|
      invariant out == Upto(objects, i) && offsets == Offsets(objects)[..i]
    {
      offsets := offsets + [|out|];
      out := out + ObjectText(i + 1, objects[i]);
    }
    assert offsets == Offsets(objects);
    hide Upto, Offsets;
    var xrefStart := |out|;
    ghost var bodies := out;
    out := out + (Ascii("xref\n0 ") + Decimal(|objects| + 1) + Ascii("\n") + Ascii(FREE_ROW));
    out := BuildRows(offsets, out);
    assert out == bodies + TableText(offsets);
    out := out + TrailerText(|objects|) + Ascii(START_XREF) + Decimal(xrefStart) + Ascii(END_OF_FILE);
    file := Latin1(out);
  }

  lemma {:induction false} RowsOneMore(offs: seq<nat>, off: nat)
    ensures RowsText(offs + [off]) == RowsText(offs) + RowText(off)
    decreases |offs|
  {
    hide RowText;
    if offs == [] {
      assert [off][1..] == [] && offs + [off] == [off];
    } else {
      RowsOneMore(offs[1..], off);
      assert (offs + [off])[1..] == offs[1..] + [off];
    }
  }

  // ----- the reader -----

  /** The offset, the five digits of the generation, and `n` or `f`. */
  datatype Row = Row(offset: nat, generation: seq<int>, kind: int)

  const SPACE: seq<int> := [0x20]
  const IN_USE_END: seq<int> := [0x20, 0x6E, 0x20, 0x0A]
  const FREE_END: seq<int> := [0x20, 0x66, 0x20, 0x0A]
  const MAX_GENERATION: seq<int> := [0x36, 0x35, 0x35, 0x33, 0x35]

  predicate AllDigits(s: seq<int>) {
    forall c <- s :: IsDigit(c)
  }

  /** A ten-digit offset, a five-digit generation and the end of the row: what it is used for, space, line feed. */
  function RowOf(first: seq<int>, second: seq<int>, end: seq<int>): Option<Row>
    requires |end| == 4
  {
    if AllDigits(first) && AllDigits(second)
       && end[0] == 0x20 && end[1] in {0x6E, 0x66} && end[2] == 0x20 && end[3] == 0x0A
    then Some(Row(ReadDigits(first, 0).0, second, end[1]))
    else None
  }

  /** One row of exactly twenty bytes. */
  function ReadRow(t: seq<int>): Option<(Row, seq<int>)> {
    if |t| < 20 || t[10] != 0x20 then None
    else
      match RowOf(t[..10], t[11..16], t[16..20])
      case None => None
      case Some(row) => Some((row, t[20..]))
  }

  function ReadRows(t: seq<int>, count: nat): Option<seq<Row>>
    decreases count
  {
    if count == 0 then Some([])
    else
      match ReadRow(t) case None => None case Some((row, more)) =>
      match ReadRows(more, count - 1) case None => None case Some(rows) => Some([row] + rows)
  }

  /** A table with one section that starts at object 0. */
  function ReadTable(t: seq<int>): Option<seq<Row>> {
    match Expect(t, Ascii("xref\n0 ")) case None => None case Some(t1) =>
    var (count, t2) := ReadDigits(t1, 0);
    match Expect(t2, Ascii("\n")) case None => None case Some(t3) =>
    ReadRows(t3, count)
  }

  /** The last place at or before `at` where `word` stands. */
  function FindLast(b: seq<int>, word: seq<int>, at: nat): (p: Option<nat>)
    requires at + |word| <= |b|
    ensures p.Some? ==> p.value <= at
  {
    if b[at..at + |word|] == word then Some(at)
    else if at == 0 then None
    else FindLast(b, word, at - 1)
  }

  /** From the end of the file to the table. */
  function ReadXref(b: seq<int>): Option<seq<Row>> {
    var word := Ascii("startxref\n");
    if |b| < |word| then None
    else
      match FindLast(b, word, |b| - |word|) case None => None case Some(p) =>
      var at := ReadDigits(b[p + |word|..], 0).0;
      if at > |b| then None else ReadTable(b[at..])
  }

  // ----- rows -----

  lemma {:induction false} ZerosReadNothing(n: nat, rest: seq<int>)
    ensures ReadDigits(Zeros(n) + rest, 0) == ReadDigits(rest, 0)
    decreases n
  {
    hide ReadDigits;
    if n == 0 {
      assert Zeros(0) + rest == rest;
    } else {
      assert Zeros(n) + rest == [0x30] + (Zeros(n - 1) + rest);
      ReadOne(0x30, Zeros(n - 1) + rest, 0);
      ZerosReadNothing(n - 1, rest);
    }
  }

  lemma PaddedReads(off: nat)
    ensures ReadDigits(Pad10(Decimal(off)), 0).0 == off
  {
    hide Decimal;
    var s: seq<int> := Decimal(off);
    ReadDecimal(off, []);
    assert s + [] == s;
    if |s| < 10 {
      ZerosReadNothing(10 - |s|, s);
    }
  }

  /** A row is twenty bytes exactly when its offset has at most ten digits. */
  lemma RowLength(off: nat)
    ensures |RowText(off)| == 20 <==> off < Pow10(10)
    ensures |RowText(off)| >= 20
  {
    hide Decimal, Pow10;
    DecimalLength(off, 10);
  }

  lemma RowBackInFields(first: seq<int>, second: seq<int>, end: seq<int>, rest: seq<int>)
    requires |first| == 10 && |second| == 5 && |end| == 4
    ensures ReadRow(first + SPACE + second + end + rest) ==
      match RowOf(first, second, end) case None => None case Some(row) => Some((row, rest))
  {
    hide RowOf;
    var t := first + SPACE + second + end + rest;
    assert t[..10] == first && t[11..16] == second && t[16..20] == end && t[20..] == rest;
  }

  lemma RowTail()
    ensures Ascii(ROW_TAIL) == SPACE + Zeros(5) + IN_USE_END
  {
  }

  lemma TenDigitRow(digits: seq<digit>, rest: seq<int>)
    requires |digits| == 10
    ensures ReadRow(digits + Ascii(ROW_TAIL) + rest) == Some((Row(ReadDigits(digits, 0).0, Zeros(5), 0x6E), rest))
  {
    hide ReadDigits, Ascii, ReadRow, Zeros;
    RowTail();
    RowBackInFields(digits, Zeros(5), IN_USE_END, rest);
    var t: seq<int> := digits + Ascii(ROW_TAIL) + rest;
    assert t == digits + SPACE + Zeros(5) + IN_USE_END + rest;
  }

  lemma LongRow(digits: seq<digit>, rest: seq<int>)
    requires |digits| > 10
    ensures ReadRow(digits + rest).None?
  {
    hide ReadDigits, RowOf;
    var t: seq<int> := digits + rest;
    assert |t| > 10 && t[10] == digits[10];
  }

  /** An entry is read back exactly when it is twenty bytes long. */
  lemma RowBack(off: nat, rest: seq<int>)
    ensures off < Pow10(10) ==> ReadRow(RowText(off) + rest) == Some((Row(off, Zeros(5), 0x6E), rest))
    ensures off >= Pow10(10) ==> ReadRow(RowText(off) + rest).None?
  {
    hide Decimal, Pow10, Ascii, Pad10, ReadRow, ReadDigits;
    var digits := Pad10(Decimal(off));
    RowLength(off);
    if off < Pow10(10) {
      TenDigitRow(digits, rest);
      PaddedReads(off);
    } else {
      LongRow(digits, Ascii(ROW_TAIL) + rest);
      assert digits + (Ascii(ROW_TAIL) + rest) == RowText(off) + rest;
    }
  }

  predicate AllFit(offs: seq<nat>) {
    forall off <- offs :: off < Pow10(10)
  }

  /** The entries a table of these offsets should have, object 0 included. */
  function Entries(offs: seq<nat>): seq<Row> {
    [Row(0, MAX_GENERATION, 0x66)] + seq(|offs|, k requires 0 <= k < |offs| => Row(offs[k], Zeros(5), 0x6E))
  }

  function InUse(offs: seq<nat>): seq<Row> {
    seq(|offs|, k requires 0 <= k < |offs| => Row(offs[k], Zeros(5), 0x6E))
  }

  lemma AllFitSplit(offs: seq<nat>)
    requires offs != []
    ensures AllFit(offs) <==> offs[0] < Pow10(10) && AllFit(offs[1..])
  {
    hide Pow10;
    assert offs[0] in offs;
    assert forall x :: x in offs <==> x == offs[0] || x in offs[1..];
  }

  lemma AllFitEmpty()
    ensures AllFit([])
  {
  }

  lemma {:induction false} RowsBack(offs: seq<nat>, rest: seq<int>)
    ensures ReadRows(RowsText(offs) + rest, |offs|) == if AllFit(offs) then Some(InUse(offs)) else None
    decreases |offs|
  {
    hide RowText, ReadRow, Pow10, AllFit;
    if offs == [] {
      AllFitEmpty();
      assert InUse(offs) == [];
    } else {
      var more: seq<int> := RowsText(offs[1..]) + rest;
      assert RowsText(offs) + rest == RowText(offs[0]) + more;
      RowBack(offs[0], more);
      RowsBack(offs[1..], rest);
      assert offs == [offs[0]] + offs[1..];
      AllFitSplit(offs);
      assert InUse(offs) == [Row(offs[0], Zeros(5), 0x6E)] + InUse(offs[1..]);
    }
  }

  lemma FreeRowBack(rest: seq<int>)
    ensures ReadRow(Ascii(FREE_ROW) + rest) == Some((Row(0, MAX_GENERATION, 0x66), rest))
  {
    hide ReadDigits, Ascii, ReadRow, Zeros;
    FreeRowCodes();
    ZerosReadNothing(10, []);
    ReadNothing(0);
    var none: seq<int> := [];
    assert Zeros(10) + none == Zeros(10);
    RowBackInFields(Zeros(10), MAX_GENERATION, FREE_END, rest);
    var t: seq<int> := Ascii(FREE_ROW) + rest;
    assert t == Zeros(10) + SPACE + MAX_GENERATION + FREE_END + rest;
  }

  lemma FreeRowCodes()
    ensures Ascii(FREE_ROW) == Zeros(10) + SPACE + MAX_GENERATION + FREE_END
  {
  }

  lemma ReadNothing(acc: nat)
    ensures ReadDigits([], acc) == (acc, [])
  {
  }

  lemma NotADigit(s: seq<int>, acc: nat)
    requires s != [] && !IsDigit(s[0])
    ensures ReadDigits(s, acc) == (acc, s)
  {
  }

  /** The table is read back, free entry and all, exactly when every row is twenty bytes. */
  lemma TableBack(offs: seq<nat>, rest: seq<int>)
    ensures ReadTable(TableText(offs) + rest) == if AllFit(offs) then Some(Entries(offs)) else None
  {
    hide Decimal, Ascii, ReadRow, RowsText, ReadDigits, AllFit, Expect, Entries, InUse;
    var head, nl, free := Ascii("xref\n0 "), Ascii("\n"), Ascii(FREE_ROW);
    var t4: seq<int> := RowsText(offs) + rest;
    var t3: seq<int> := free + t4;
    var t2: seq<int> := nl + t3;
    var t1: seq<int> := Decimal(|offs| + 1) + t2;
    assert TableText(offs) + rest == head + t1;
    ExpectBack(head, t1);
    LineFeed();
    ReadDecimal(|offs| + 1, t2);
    NotADigit(t2, |offs| + 1);
    ExpectBack(nl, t3);
    FreeRowBack(t4);
    RowsBack(offs, rest);
    EntriesAreInUse(offs);
  }

  lemma EntriesAreInUse(offs: seq<nat>)
    ensures Entries(offs) == [Row(0, MAX_GENERATION, 0x66)] + InUse(offs)
  {
  }

  lemma LineFeed()
    ensures Ascii("\n") == [0x0A]
  {
  }

  // ----- from the end of the file -----

  lemma {:induction false} FindLastIs(b: seq<int>, word: seq<int>, at: nat, p: nat)
    requires word != [] && p <= at && at + |word| <= |b| && b[p..p + |word|] == word
    requires forall q :: p < q <= at ==> b[q] != word[0]
    ensures FindLast(b, word, at) == Some(p)
    decreases at
  {
    if p < at {
      assert b[at..at + |word|][0] == b[at];
      FindLastIs(b, word, at - 1, p);
    }
  }

  lemma NoLaterKeyword(front: seq<int>, n: nat, q: nat)
    requires var b: seq<int> := front + Ascii(START_XREF) + Decimal(n) + Ascii(END_OF_FILE);
      |front| < q < |b|
    ensures var b: seq<int> := front + Ascii(START_XREF) + Decimal(n) + Ascii(END_OF_FILE);
      b[q] != Ascii(START_XREF)[0]
  {
    TailCodes();
    hide Ascii, Decimal;
    var word, end := Ascii(START_XREF), Ascii(END_OF_FILE);
    var b: seq<int> := front + word + Decimal(n) + end;
    if q < |front| + |word| {
      assert b[q] == word[q - |front|];
    } else if q < |front| + |word| + |Decimal(n)| {
      assert b[q] == Decimal(n)[q - |front| - |word|];
    } else {
      assert b[q] == end[q - |front| - |word| - |Decimal(n)|];
    }
  }

  /** After the keyword nothing looks like another one. */
  lemma KeywordFound(front: seq<int>, n: nat)
    ensures var b: seq<int> := front + Ascii(START_XREF) + Decimal(n) + Ascii(END_OF_FILE);
      FindLast(b, Ascii(START_XREF), |b| - |Ascii(START_XREF)|) == Some(|front|)
  {
    EndIsNoDigit();
    hide Ascii, Decimal, FindLast;
    var word := Ascii(START_XREF);
    var b: seq<int> := front + word + Decimal(n) + Ascii(END_OF_FILE);
    assert b[|front|..|front| + |word|] == word;
    forall q | |front| < q <= |b| - |word|
      ensures b[q] != word[0]
    {
      NoLaterKeyword(front, n, q);
    }
    FindLastIs(b, word, |b| - |word|, |front|);
  }

  /** The number after the keyword. */
  lemma StartOffsetRead(front: seq<int>, n: nat)
    ensures var b: seq<int> := front + Ascii(START_XREF) + Decimal(n) + Ascii(END_OF_FILE);
      ReadDigits(b[|front| + |Ascii(START_XREF)|..], 0).0 == n
  {
    EndIsNoDigit();
    hide Ascii, Decimal, ReadDigits;
    var word, end := Ascii(START_XREF), Ascii(END_OF_FILE);
    var b: seq<int> := front + word + Decimal(n) + end;
    assert b[|front| + |word|..] == Decimal(n) + end;
    ReadDecimal(n, end);
    NotADigit(end, n);
  }

  lemma EndIsNoDigit()
    ensures Ascii(END_OF_FILE)[0] == 0x0A && |Ascii(START_XREF)| == 10
  {
  }

  lemma TailCodes()
    ensures Ascii(START_XREF) == [0x73, 0x74, 0x61, 0x72, 0x74, 0x78, 0x72, 0x65, 0x66, 0x0A]
    ensures Ascii(END_OF_FILE) == [0x0A, 0x25, 0x25, 0x45, 0x4F, 0x46]
  {
  }

  lemma Latin1Concat(a: Str, b: Str)
    ensures Latin1(a + b) == Latin1(a) + Latin1(b)
  {
  }

  lemma Latin1Same(s: Str)
    requires forall u <- s :: u < 0x100
    ensures Latin1(s) == s
  {
    forall i | 0 <= i < |s|
      ensures Latin1(s)[i] == s[i]
    {
      assert s[i] in s;
    }
  }

  // ----- the whole file -----

  /** The file as bytes: the bodies in Latin-1, and after them only ASCII. */
  lemma DocumentBytes(objects: seq<Str>)
    ensures Latin1(Document(objects)) ==
      Latin1(Upto(objects, |objects|)) + TableText(Offsets(objects)) + TrailerText(|objects|)
      + Ascii(START_XREF) + Decimal(|Upto(objects, |objects|)|) + Ascii(END_OF_FILE)
  {
    var bodies, table, trailer := Upto(objects, |objects|), TableText(Offsets(objects)), TrailerText(|objects|);
    var word, number, end := Ascii(START_XREF), Decimal(|bodies|), Ascii(END_OF_FILE);
    TableIsAscii(Offsets(objects));
    TrailerIsAscii(|objects|);
    AsciiIsAscii(START_XREF);
    AsciiIsAscii(END_OF_FILE);
    hide Ascii, Decimal, TableText, TrailerText, Upto, Offsets, Latin1;
    Latin1Concat(bodies + table + trailer + word + number, end);
    Latin1Concat(bodies + table + trailer + word, number);
    Latin1Concat(bodies + table + trailer, word);
    Latin1Concat(bodies + table, trailer);
    Latin1Concat(bodies, table);
    Latin1Same(table);
    Latin1Same(trailer);
    Latin1Same(word);
    Latin1Same(number);
    Latin1Same(end);
  }

  lemma AsciiIsAscii(s: string)
    ensures forall u <- Ascii(s) :: u < 0x80
  {
  }

  lemma {:induction false} RowsAreAscii(offs: seq<nat>)
    ensures forall u <- RowsText(offs) :: u < 0x80
    decreases |offs|
  {
    if offs != [] {
      AsciiIsAscii(ROW_TAIL);
      RowsAreAscii(offs[1..]);
      hide Ascii, Decimal;
      assert forall u <- Pad10(Decimal(offs[0])) :: u < 0x80;
    }
  }

  lemma TableIsAscii(offs: seq<nat>)
    ensures forall u <- TableText(offs) :: u < 0x80
  {
    AsciiIsAscii("xref\n0 ");
    AsciiIsAscii("\n");
    AsciiIsAscii(FREE_ROW);
    RowsAreAscii(offs);
    hide Ascii, Decimal, RowsText;
  }

  lemma TrailerIsAscii(count: nat)
    ensures forall u <- TrailerText(count) :: u < 0x80
  {
    AsciiIsAscii("trailer\n<< /Size ");
    AsciiIsAscii(" /Root 1 0 R >>\n");
    hide Ascii, Decimal;
  }

  /**
   * Starting from the end of the file a reader finds the table, and the table is as it should be, if and
   * only if every offset fits the ten digits of its row.
   */
  lemma TableFound(objects: seq<Str>)
    ensures ReadXref(Latin1(Document(objects))) ==
      if AllFit(Offsets(objects)) then Some(Entries(Offsets(objects))) else None
  {
    hide Ascii, Decimal, TableText, TrailerText, Upto, Offsets, Latin1, Document, ReadTable, AllFit, Entries, FindLast,
      ReadDigits;
    DocumentBytes(objects);
    EndIsNoDigit();
    var bodies, table := Latin1(Upto(objects, |objects|)), TableText(Offsets(objects));
    var front: seq<int> := bodies + table + TrailerText(|objects|);
    var after: seq<int> := TrailerText(|objects|) + Ascii(START_XREF) + Decimal(|bodies|) + Ascii(END_OF_FILE);
    var b: seq<int> := Latin1(Document(objects));
    assert b == front + Ascii(START_XREF) + Decimal(|bodies|) + Ascii(END_OF_FILE);
    KeywordFound(front, |bodies|);
    StartOffsetRead(front, |bodies|);
    assert b[|bodies|..] == table + after;
    TableBack(Offsets(objects), after);
  }

  lemma {:induction false} UptoIsPrefix(objects: seq<Str>, j: nat, k: nat)
    requires j <= k <= |objects|
    ensures Upto(objects, j) <= Upto(objects, k)
    decreases k - j
  {
    hide ObjectText;
    if j < k {
      UptoIsPrefix(objects, j, k - 1);
    }
  }

  /** Entry `k` points at the first byte of `k 0 obj`, and the whole object follows. */
  lemma EntryPointsAtObject(objects: seq<Str>, k: nat)
    requires 1 <= k <= |objects|
    ensures var off, text := Offsets(objects)[k - 1], ObjectText(k, objects[k - 1]);
      && |Entries(Offsets(objects))| == |objects| + 1 && Entries(Offsets(objects))[k].offset == off
      && off + |text| <= |Document(objects)|
      && Latin1(Document(objects))[off..off + |text|] == Latin1(text)
  {
    hide ObjectText, Document, Upto, Latin1, Entries;
    UptoIsPrefix(objects, k, |objects|);
    UptoNext(objects, k);
    DocumentStarts(objects);
    var doc, front, text := Document(objects), Upto(objects, k - 1), ObjectText(k, objects[k - 1]);
    assert front + text <= doc;
    PartOfFile(doc, front, text);
    EntryOffset(Offsets(objects), k);
  }

  lemma EntryOffset(offs: seq<nat>, k: nat)
    requires 1 <= k <= |offs|
    ensures |Entries(offs)| == |offs| + 1 && Entries(offs)[k].offset == offs[k - 1]
  {
  }

  lemma UptoNext(objects: seq<Str>, k: nat)
    requires 1 <= k <= |objects|
    ensures Upto(objects, k) == Upto(objects, k - 1) + ObjectText(k, objects[k - 1])
  {
  }

  lemma DocumentStarts(objects: seq<Str>)
    ensures Upto(objects, |objects|) <= Document(objects)
  {
    hide Upto, TableText, TrailerText, Ascii, Decimal;
  }

  lemma PartOfFile(doc: Str, front: Str, text: Str)
    requires front + text <= doc
    ensures Latin1(doc)[|front|..|front| + |text|] == Latin1(text)
  {
    assert doc[|front|..|front| + |text|] == text;
  }
}
