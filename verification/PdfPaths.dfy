/**
 The way a viewer goes through the tracking PDF (sections 7.5.5 and 7.7 of ISO 32000-1): from the trailer to the
 catalog, from there by references to the open action and over the page to its link and its contents.
 */
module PdfPaths {
  import opened Bytes
  import opened Decimals
  import opened Options
  import opened Pdf
  import opened PdfText
  import opened Units

  // ----- the reader -----

  /** What follows the first place where `word` stands. */
  function FindFirst(b: seq<int>, word: seq<int>): (r: Option<seq<int>>)
    ensures r.Some? ==> |r.value| + |word| <= |b|
  {
    if |b| < |word| then None
    else if b[..|word|] == word then Some(b[|word|..])
    else if b == [] then None
    else FindFirst(b[1..], word)
  }

  function NumberAt(t: seq<int>): Option<nat> {
    if t == [] || !IsDigit(t[0]) then None else Some(ReadDigits(t, 0).0)
  }

  /** The number after the last `word`. */
  function LastNumber(b: seq<int>, word: seq<int>): Option<nat> {
    if |b| < |word| then None
    else
      match FindLast(b, word, |b| - |word|) case None => None case Some(p) =>
      NumberAt(b[p + |word|..])
  }

  /** The catalog's number, of a file with a header, an end, and a trailer that counts the table's entries. */
  function Catalog(b: seq<int>): Option<nat> {
    var header, end := Ascii("%PDF-1.4\n"), Ascii("%%EOF");
    var table := ReadXref(b);
    if !(header <= b && |end| <= |b| && b[|b| - |end|..] == end) || table.None? then None
    else if LastNumber(b, Ascii("/Size ")) != Some(|table.value|) then None
    else LastNumber(b, Ascii("/Root "))
  }

  /** Object `n`, from after its first line. */
  function ObjectAt(b: seq<int>, n: nat): Option<seq<int>> {
    match ReadXref(b) case None => None case Some(table) =>
    if n >= |table| || table[n].kind != 0x6E || table[n].offset > |b| then None
    else Expect(b[table[n].offset..], Decimal(n) + Ascii(" 0 obj\n"))
  }

  /** The number of the object referred to after the first `key`. */
  function Reference(text: seq<int>, key: seq<int>): Option<nat> {
    match FindFirst(text, key) case None => None case Some(rest) =>
    if rest == [] || !IsDigit(rest[0]) then None
    else
      var (n, more) := ReadDigits(rest, 0);
      match Expect(more, Ascii(" 0 R")) case None => None case Some(_) => Some(n)
  }

  function Follow(b: seq<int>, from: Option<nat>, key: string): Option<nat> {
    match from case None => None case Some(n) =>
    match ObjectAt(b, n) case None => None case Some(text) =>
    Reference(text, Ascii(key))
  }

  /** The literal string after the first `key` of an object. */
  function LiteralOf(b: seq<int>, from: Option<nat>, key: string): Option<seq<int>> {
    match from case None => None case Some(n) =>
    match ObjectAt(b, n) case None => None case Some(text) =>
    match FindFirst(text, Ascii(key)) case None => None case Some(rest) =>
    TextRead(ReadLiteral(rest, 0))
  }

  /** What a viewer fetches when it opens the file. */
  function OpenActionUri(b: seq<int>): Option<seq<int>> {
    LiteralOf(b, Follow(b, Catalog(b), "/OpenAction "), "/URI (")
  }

  function FirstPage(b: seq<int>): Option<nat> {
    Follow(b, Follow(b, Catalog(b), "/Pages "), "/Kids [")
  }

  /** What it fetches when the link on the first page is followed. */
  function LinkUri(b: seq<int>): Option<seq<int>> {
    LiteralOf(b, Follow(b, FirstPage(b), "/Annots ["), "/URI (")
  }

  /** The bytes of a stream whose length is written before it. */
  function ReadStream(text: seq<int>): Option<seq<int>> {
    match Expect(text, Ascii("<< /Length ")) case None => None case Some(t1) =>
    var (n, t2) := ReadDigits(t1, 0);
    match Expect(t2, Ascii(" >>\nstream\n")) case None => None case Some(t3) =>
    if |t3| < n then None
    else
      match Expect(t3[n..], Ascii("endstream")) case None => None case Some(_) => Some(t3[..n])
  }

  /** What the first page shows. */
  function PageContent(b: seq<int>): Option<seq<int>> {
    match Follow(b, FirstPage(b), "/Contents ") case None => None case Some(n) =>
    match ObjectAt(b, n) case None => None case Some(text) =>
    ReadStream(text)
  }

  /** The first text it shows. */
  function TitleShown(b: seq<int>): Option<seq<int>> {
    match PageContent(b) case None => None case Some(content) =>
    match FindFirst(content, Ascii("(")) case None => None case Some(rest) =>
    TextRead(ReadLiteral(rest, 0))
  }

  /** The next one. */
  function BodyShown(b: seq<int>): Option<seq<int>> {
    match PageContent(b) case None => None case Some(content) =>
    match FindFirst(content, Ascii("(")) case None => None case Some(rest) =>
    match ReadLiteral(rest, 0) case None => None case Some((_, more)) =>
    match FindFirst(more, Ascii("(")) case None => None case Some(last) =>
    TextRead(ReadLiteral(last, 0))
  }

  // ----- searching -----

  /** A key with a character that nothing before it has is found where it stands. */
  lemma {:induction false} FirstFound(front: seq<int>, word: seq<int>, j: nat, rest: seq<int>)
    requires j < |word| && word[j] !in front && word[j] !in word[..j]
    ensures FindFirst(front + (word + rest), word) == Some(rest)
    decreases |front|
  {
    var b := front + (word + rest);
    if front == [] {
      assert b[..|word|] == word && b[|word|..] == rest;
    } else {
      NotYet(front, word, j, rest);
      assert b[1..] == front[1..] + (word + rest);
      FirstFound(front[1..], word, j, rest);
    }
  }

  lemma NotYet(front: seq<int>, word: seq<int>, j: nat, rest: seq<int>)
    requires j < |word| && word[j] !in front && word[j] !in word[..j] && front != []
    ensures (front + (word + rest))[..|word|] != word
  {
    var b := front + (word + rest);
    assert b[j] == if j < |front| then front[j] else word[..j][j - |front|];
    assert b[..|word|][j] == b[j];
  }

  lemma {:induction false} LastFound(b: seq<int>, word: seq<int>, j: nat, at: nat, p: nat)
    requires j < |word| && p <= at && at + |word| <= |b| && b[p..p + |word|] == word
    requires forall q :: p + j < q < |b| ==> b[q] != word[j]
    ensures FindLast(b, word, at) == Some(p)
    decreases at
  {
    if p < at {
      assert b[at..at + |word|][j] == b[at + j];
      LastFound(b, word, j, at - 1, p);
    }
  }

  // ----- the file of the source -----

  /** Object `k` is found, and the body it was written with is where it starts. */
  lemma ObjectRead(objects: seq<Str>, k: nat) returns (after: seq<byte>)
    requires 1 <= k <= |objects| && AllFit(Offsets(objects))
    ensures ObjectAt(Latin1(Document(objects)), k) == Some(Latin1(objects[k - 1]) + after)
  {
    hide Ascii, Latin1, ObjectText, Document, AllFit, Entries, Offsets, ReadXref, Expect, Decimal;
    var file := Latin1(Document(objects));
    TableFound(objects);
    EntryPointsAtObject(objects, k);
    EntryInUse(Offsets(objects), k);
    var off, text := Offsets(objects)[k - 1], Latin1(ObjectText(k, objects[k - 1]));
    var more := file[off + |text|..];
    assert file[off..] == text + more;
    ObjectBytes(k, objects[k - 1]);
    after := Latin1(Ascii("\nendobj\n")) + more;
    var head: seq<int> := Decimal(k) + Ascii(" 0 obj\n");
    assert file[off..] == head + (Latin1(objects[k - 1]) + after);
    ExpectBack(head, Latin1(objects[k - 1]) + after);
  }

  lemma EntryInUse(offs: seq<nat>, k: nat)
    requires 1 <= k <= |offs|
    ensures |Entries(offs)| == |offs| + 1 && Entries(offs)[k].kind == 0x6E
  {
  }

  lemma ObjectBytes(k: nat, body: Str)
    ensures Latin1(ObjectText(k, body)) ==
      Decimal(k) + Ascii(" 0 obj\n") + Latin1(body) + Latin1(Ascii("\nendobj\n"))
  {
    AsciiIsAscii(" 0 obj\n");
    hide Ascii, Decimal, Latin1;
    var head, end := Decimal(k) + Ascii(" 0 obj\n"), Ascii("\nendobj\n");
    Latin1Concat(head + body, end);
    Latin1Concat(head, body);
    Latin1Same(head);
  }

  lemma ReferenceBack(front: seq<int>, key: seq<int>, j: nat, n: nat, rest: seq<int>)
    requires j < |key| && key[j] !in front && key[j] !in key[..j]
    ensures Reference(front + (key + (Ref(n) + rest)), key) == Some(n)
  {
    hide FindFirst, ReadDigits, Decimal, Ascii, Expect;
    var more: seq<int> := Ascii(" 0 R") + rest;
    assert Ref(n) + rest == Decimal(n) + more;
    FirstFound(front, key, j, Decimal(n) + more);
    ReadDecimal(n, more);
    SpaceIsNoDigit();
    NotADigit(more, n);
    ExpectBack(Ascii(" 0 R"), rest);
  }

  lemma SpaceIsNoDigit()
    ensures !IsDigit(Ascii(" 0 R")[0])
  {
  }

  lemma HeadSame(head: Str, tail: Str, after: seq<int>)
    requires forall u <- head :: u < 0x100
    ensures Latin1(head + tail) + after == head + (Latin1(tail) + after)
  {
    Latin1Concat(head, tail);
    Latin1Same(head);
    hide Latin1;
  }

  lemma ReferenceBytes(front: Str, key: Str, n: nat, tail: Str, after: seq<int>)
    requires (forall u <- front :: u < 0x100) && forall u <- key :: u < 0x100
    ensures Latin1(front + (key + (Ref(n) + tail))) + after
      == front + (key + (Ref(n) + (Latin1(tail) + after)))
  {
    RefIsAscii(n);
    hide *;
    HeadSame(front, key + (Ref(n) + tail), after);
    HeadSame(key, Ref(n) + tail, after);
    HeadSame(Ref(n), tail, after);
  }

  lemma RefIsAscii(n: nat)
    ensures forall u <- Ref(n) :: u < 0x80
  {
    AsciiIsAscii(" 0 R");
    hide Ascii, Decimal;
  }

  lemma FollowOne(b: seq<int>, k: nat, key: string, text: seq<int>)
    requires ObjectAt(b, k) == Some(text)
    ensures Follow(b, Some(k), key) == Reference(text, Ascii(key))
  {
    hide ObjectAt, Reference, Ascii;
  }

  /** An object that starts with `front` refers to object `n` by `key`. */
  lemma FollowBack(objects: seq<Str>, k: nat, front: Str, key: string, j: nat, n: nat, tail: Str)
    requires 1 <= k <= |objects| && AllFit(Offsets(objects))
    requires forall u <- front :: u < 0x80
    requires objects[k - 1] == front + (Ascii(key) + (Ref(n) + tail))
    requires j < |key| && Ascii(key)[j] !in front && Ascii(key)[j] !in Ascii(key)[..j]
    ensures Follow(Latin1(Document(objects)), Some(k), key) == Some(n)
  {
    hide *;
    var after := ObjectRead(objects, k);
    AsciiIsAscii(key);
    ReferenceBytes(front, Ascii(key), n, tail, after);
    FollowOne(Latin1(Document(objects)), k, key, Latin1(objects[k - 1]) + after);
    ReferenceBack(front, Ascii(key), j, n, Latin1(tail) + after);
  }

  lemma LiteralBytes(front: Str, key: Str, s: Str, tail: Str, after: seq<byte>)
    requires (forall u <- front :: u < 0x100) && forall u <- key :: u < 0x100
    ensures Latin1(front + (key + (Esc(s) + ([CLOSE] + tail)))) + after
      == front + (key + (Latin1(Esc(s)) + [CLOSE] + (Latin1(tail) + after)))
  {
    hide Latin1, Esc, Ascii;
    var t2 := [CLOSE] + tail;
    var t1 := Esc(s) + t2;
    HeadSame(front, key + t1, after);
    HeadSame(key, t1, after);
    Latin1Concat(Esc(s), t2);
    HeadSame([CLOSE], tail, after);
    Regroup(Latin1(Esc(s)), Latin1(t2), after, [CLOSE], Latin1(tail) + after);
  }

  lemma Regroup(a: seq<int>, b: seq<int>, after: seq<int>, c: seq<int>, d: seq<int>)
    requires b + after == c + d
    ensures a + b + after == a + c + d
  {
    assert a + b + after == a + (b + after);
    assert a + c + d == a + (c + d);
  }

  lemma LiteralRead(b: seq<int>, k: nat, key: string, text: seq<int>, rest: seq<int>)
    requires ObjectAt(b, k) == Some(text) && FindFirst(text, Ascii(key)) == Some(rest)
    ensures LiteralOf(b, Some(k), key) == TextRead(ReadLiteral(rest, 0))
  {
    hide ObjectAt, FindFirst, Ascii, TextRead, ReadLiteral;
  }

  /** An object that starts with `front` has an escaped text as the literal of `key`. */
  lemma LiteralBack(objects: seq<Str>, k: nat, front: Str, key: string, j: nat, s: Str, tail: Str)
    requires 1 <= k <= |objects| && AllFit(Offsets(objects))
    requires forall u <- front :: u < 0x80
    requires objects[k - 1] == front + (Ascii(key) + (Esc(s) + ([CLOSE] + tail)))
    requires j < |key| && Ascii(key)[j] !in front && Ascii(key)[j] !in Ascii(key)[..j]
    ensures LiteralOf(Latin1(Document(objects)), Some(k), key) == Some(s) <==> IsLatin1(s) && CR !in s
  {
    hide *;
    var after := ObjectRead(objects, k);
    AsciiIsAscii(key);
    LiteralBytes(front, Ascii(key), s, tail, after);
    var rest := Latin1(tail) + after;
    var read: seq<int> := Latin1(Esc(s)) + [CLOSE] + rest;
    FirstFound(front, Ascii(key), j, read);
    LiteralRead(Latin1(Document(objects)), k, key, Latin1(objects[k - 1]) + after, read);
    RecoveredIff(s, rest);
  }

  lemma AsciiConcat(a: string, b: string)
    ensures Ascii(a + b) == Ascii(a) + Ascii(b)
  {
  }

  lemma OneDigit(n: nat)
    requires n < 10
    ensures Decimal(n) == [0x30 + n]
  {
  }

  // ----- the trailer -----

  lemma NoLater(front: seq<int>, word: seq<int>, j: nat, tail: seq<int>, q: nat)
    requires j < |word| && word[j] !in word[j + 1..] && word[j] !in tail
    requires |front| + j < q < |front| + |word| + |tail|
    ensures (front + (word + tail))[q] != word[j]
  {
    var i := q - |front|;
    assert (front + (word + tail))[q] == (word + tail)[i];
    if i < |word| {
      assert word[i] == word[j + 1..][i - j - 1];
    } else {
      assert (word + tail)[i] == tail[i - |word|];
    }
  }

  lemma LastNumberAt(b: seq<int>, word: seq<int>, p: nat)
    requires |word| <= |b| && FindLast(b, word, |b| - |word|) == Some(p) && p + |word| <= |b|
    ensures LastNumber(b, word) == NumberAt(b[p + |word|..])
  {
    hide FindLast, NumberAt;
  }

  lemma NumberRead(n: nat, rest: seq<int>)
    requires rest != [] && !IsDigit(rest[0])
    ensures NumberAt(Decimal(n) + rest) == Some(n)
  {
    hide Decimal, ReadDigits;
    FirstDigit(n, rest);
    ReadDecimal(n, rest);
    NotADigit(rest, n);
  }

  lemma FirstDigit(n: nat, rest: seq<int>)
    ensures IsDigit((Decimal(n) + rest)[0])
  {
    hide Decimal;
    assert (Decimal(n) + rest)[0] == Decimal(n)[0];
  }

  lemma Slices(front: seq<int>, word: seq<int>, tail: seq<int>)
    ensures var b := front + (word + tail);
      b[|front|..|front| + |word|] == word && b[|front| + |word|..] == tail
  {
  }

  lemma DigitsLack(n: nat, rest: seq<int>, c: int)
    requires c !in rest && !IsDigit(c)
    ensures c !in Decimal(n) + rest
  {
    hide Decimal;
  }

  lemma NumberFound(front: seq<int>, word: seq<int>, j: nat, n: nat, rest: seq<int>)
    requires j < |word| && word[j] !in word[j + 1..] && word[j] !in rest && !IsDigit(word[j])
    requires rest != [] && !IsDigit(rest[0])
    ensures LastNumber(front + (word + (Decimal(n) + rest)), word) == Some(n)
  {
    var tail: seq<int> := Decimal(n) + rest;
    DigitsLack(n, rest, word[j]);
    hide *;
    var b := front + (word + tail);
    forall q | |front| + j < q < |b|
      ensures b[q] != word[j]
    {
      NoLater(front, word, j, tail, q);
    }
    Slices(front, word, tail);
    NumberFoundAt(b, word, j, |front|, n, rest);
  }

  lemma NumberFoundAt(b: seq<int>, word: seq<int>, j: nat, p: nat, n: nat, rest: seq<int>)
    requires j < |word| && p + |word| <= |b| && b[p..p + |word|] == word && b[p + |word|..] == Decimal(n) + rest
    requires forall q :: p + j < q < |b| ==> b[q] != word[j]
    requires rest != [] && !IsDigit(rest[0])
    ensures LastNumber(b, word) == Some(n)
  {
    hide *;
    LastFound(b, word, j, |b| - |word|, p);
    LastNumberAt(b, word, p);
    NumberRead(n, rest);
  }

  /** What follows the size, and what follows the catalog's number. */
  function AfterSize(start: nat): seq<int> {
    Ascii(" ") + (Ascii("/Root ") + (Decimal(1) + AfterRoot(start)))
  }

  function AfterRoot(start: nat): seq<int> {
    Ascii(" 0 R >>\n") + Ascii("startxref\n") + Decimal(start) + Ascii("\n%%EOF")
  }

  lemma TrailerParts(count: nat, start: nat)
    ensures TrailerText(count) + Ascii(START_XREF) + Decimal(start) + Ascii(END_OF_FILE)
      == Ascii("trailer\n<< ") + (Ascii("/Size ") + (Decimal(count + 1) + AfterSize(start)))
  {
    SizePieces();
    RootPieces();
    hide Ascii, Decimal;
    var tail: seq<int> := Ascii(START_XREF) + Decimal(start) + Ascii(END_OF_FILE);
    assert AfterRoot(start) == Ascii(" 0 R >>\n") + tail;
    assert AfterSize(start) == Ascii(" /Root 1 0 R >>\n") + tail;
  }

  lemma SizePieces()
    ensures Ascii("trailer\n<< /Size ") == Ascii("trailer\n<< ") + Ascii("/Size ")
  {
  }

  lemma RootPieces()
    ensures Ascii(" /Root 1 0 R >>\n") == Ascii(" ") + (Ascii("/Root ") + (Decimal(1) + Ascii(" 0 R >>\n")))
  {
    OneDigit(1);
    hide Decimal;
  }

  lemma LiteralsLack()
    ensures Ascii("/Root ")[0] == 0x2F && Ascii("/Size ")[1] == 0x53
    ensures 0x2F !in Ascii("/Root ")[1..] && 0x53 !in Ascii("/Size ")[2..]
    ensures Ascii(" 0 R >>\n")[0] == 0x20 && Ascii(" ") == [0x20]
    ensures 0x53 !in Ascii("/Root ")
  {
  }

  lemma TailLacks(c: int)
    requires c == 0x2F || c == 0x53
    ensures c !in Ascii(" 0 R >>\n") && c !in Ascii("startxref\n") && c !in Ascii("\n%%EOF")
  {
  }

  lemma RootLacks(start: nat, c: int)
    requires c == 0x2F || c == 0x53
    ensures c !in AfterRoot(start) && AfterRoot(start) != [] && AfterRoot(start)[0] == 0x20
  {
    hide Ascii, Decimal;
    LiteralsLack();
    TailLacks(c);
    assert forall d <- Decimal(start) :: IsDigit(d);
  }

  lemma SizeLacks(start: nat)
    ensures 0x53 !in AfterSize(start) && AfterSize(start)[0] == 0x20
  {
    OneDigit(1);
    RootLacks(start, 0x53);
    LiteralsLack();
    hide Ascii, Decimal, AfterRoot;
  }

  /** The trailer's numbers, whatever precedes it. */
  lemma TrailerRead(front: seq<int>, count: nat, start: nat)
    ensures var b := front + (TrailerText(count) + Ascii(START_XREF) + Decimal(start) + Ascii(END_OF_FILE));
      LastNumber(b, Ascii("/Size ")) == Some(count + 1) && LastNumber(b, Ascii("/Root ")) == Some(1)
  {
    hide Ascii, Decimal, AfterRoot, LastNumber, TrailerText;
    TrailerParts(count, start);
    LiteralsLack();
    SizeLacks(start);
    RootLacks(start, 0x2F);
    var open := Ascii("trailer\n<< ");
    NumberFound(front + open, Ascii("/Size "), 1, count + 1, AfterSize(start));
    var before: seq<int> := front + open + Ascii("/Size ") + Decimal(count + 1) + Ascii(" ");
    NumberFound(before, Ascii("/Root "), 0, 1, AfterRoot(start));
    assert front + (open + (Ascii("/Size ") + (Decimal(count + 1) + AfterSize(start))))
      == (front + open) + (Ascii("/Size ") + (Decimal(count + 1) + AfterSize(start)));
    assert front + (open + (Ascii("/Size ") + (Decimal(count + 1) + AfterSize(start))))
      == before + (Ascii("/Root ") + (Decimal(1) + AfterRoot(start)));
  }

  lemma HeaderFirst(objects: seq<Str>)
    ensures Ascii("%PDF-1.4\n") <= Latin1(Document(objects))
  {
    UptoIsPrefix(objects, 0, |objects|);
    DocumentStarts(objects);
    var head := Ascii("%PDF-1.4\n");
    AsciiIsAscii("%PDF-1.4\n");
    assert Upto(objects, 0) == head;
    hide *;
    var doc := Document(objects);
    assert head <= doc;
    assert doc == head + doc[|head|..];
    Latin1Concat(head, doc[|head|..]);
    Latin1Same(head);
  }

  lemma EndLast(objects: seq<Str>)
    ensures var b: seq<int> := Latin1(Document(objects));
      |b| >= 5 && b[|b| - 5..] == Ascii("%%EOF")
  {
    DocumentBytes(objects);
    EndSplit();
    hide *;
    var b: seq<int> := Latin1(Document(objects));
    assert b[|b| - 5..] == Ascii(END_OF_FILE)[1..];
  }

  lemma EndSplit()
    ensures Ascii(END_OF_FILE)[1..] == Ascii("%%EOF") && |Ascii(END_OF_FILE)| == 6
  {
  }

  /** The catalog is object 1 of every file whose offsets fit, and no other file is read at all. */
  lemma CatalogFound(objects: seq<Str>)
    ensures Catalog(Latin1(Document(objects))) == if AllFit(Offsets(objects)) then Some(1) else None
  {
    hide Ascii, Decimal, AllFit, Offsets, Latin1, Document, ReadXref, LastNumber, TrailerText, TableText, Upto;
    TableFound(objects);
    if AllFit(Offsets(objects)) {
      HeaderFirst(objects);
      EndLast(objects);
      DocumentBytes(objects);
      var bodies, table := Latin1(Upto(objects, |objects|)), TableText(Offsets(objects));
      var start := |Upto(objects, |objects|)|;
      var front: seq<int> := bodies + table;
      var tail := TrailerText(|objects|) + Ascii(START_XREF) + Decimal(start) + Ascii(END_OF_FILE);
      assert front + tail
        == bodies + table + TrailerText(|objects|) + Ascii(START_XREF) + Decimal(start) + Ascii(END_OF_FILE);
      TrailerRead(front, |objects|, start);
      assert |Ascii("%%EOF")| == 5;
    }
  }

  // ----- the tracking document -----

  /** ASCII without `c`. */
  predicate Lacks(t: Str, c: char) {
    forall u <- t :: u < 0x80 && u != c as int
  }

  lemma LacksConcat(a: Str, b: Str, c: char)
    requires Lacks(a, c) && Lacks(b, c)
    ensures Lacks(a + b, c)
  {
  }

  lemma LiteralLacks(s: string, c: char)
    requires c < 128 as char && forall d <- s :: d < 128 as char && d != c
    ensures Lacks(Ascii(s), c)
  {
    forall u <- Ascii(s)
      ensures u < 0x80 && u != c as int
    {
      var i :| 0 <= i < |s| && Ascii(s)[i] == u;
      assert s[i] in s;
    }
  }

  lemma RefLacks(n: nat, c: char)
    requires 'A' <= c <= 'Q'
    ensures Lacks(Ref(n), c)
  {
    hide Ascii, Decimal;
    LiteralLacks(" 0 R", c);
    LacksConcat(Decimal(n), Ascii(" 0 R"), c);
  }

  /** A key whose second character is a capital that does not occur before it. */
  predicate NewKey(front: Str, key: string) {
    |key| > 1 && key[0] == '/' && 'A' <= key[1] <= 'Q' && Lacks(front, key[1])
  }

  lemma NewKeyFound(front: Str, key: string)
    requires NewKey(front, key)
    ensures Ascii(key)[1] !in front && Ascii(key)[1] !in Ascii(key)[..1] && forall u <- front :: u < 0x80
  {
    assert Ascii(key)[1] == key[1] as int && Ascii(key)[0] == '/' as int;
  }

  lemma FollowKey(objects: seq<Str>, k: nat, front: Str, key: string, n: nat, tail: Str)
    requires 1 <= k <= |objects| && AllFit(Offsets(objects))
    requires objects[k - 1] == front + Ascii(key) + Ref(n) + tail && NewKey(front, key)
    ensures Follow(Latin1(Document(objects)), Some(k), key) == Some(n)
  {
    NewKeyFound(front, key);
    assert |key| > 1;
    hide *;
    assert front + Ascii(key) + Ref(n) + tail == front + (Ascii(key) + (Ref(n) + tail));
    FollowBack(objects, k, front, key, 1, n, tail);
  }

  /** The objects of a tracking document by their numbers. */
  lemma ObjectsAre(title: Str, bodyText: Str, url: Str)
    ensures var os := TrackingObjects(title, bodyText, url);
      && os[0] == Ascii("<< /Type /Catalog ") + Ascii("/Pages ") + Ref(2) + Ascii(" ") + Ascii("/OpenAction ") + Ref(6)
           + Ascii(" >>")
      && os[1] == Ascii("<< /Type /Pages ") + Ascii("/Kids [") + Ref(3) + Ascii("] /Count 1 >>")
      && os[2] == PageStart() + Ascii("/Contents ") + Ref(4) + Ascii(" ") + Resources() + Ascii("/Annots [") + Ref(7)
           + Ascii("] >>")
      && os[3] == StreamObject(Content(title, bodyText))
      && os[5] == Action(url)
      && os[6] == Ascii("<< /Type /Annot /Subtype /Link ") + Ascii("/Rect [50 690 562 720] ")
           + Ascii("/Border [0 0 0] /A ") + Action(url) + Ascii(" >>")
  {
    hide Ascii, Ref, PageStart, Resources, StreamObject, Action, Content;
  }

  function CatalogStart(): Str {
    Ascii("<< /Type /Catalog ") + Ascii("/Pages ") + Ref(2) + Ascii(" ")
  }

  lemma CatalogKeys()
    ensures NewKey(Ascii("<< /Type /Catalog "), "/Pages ") && NewKey(CatalogStart(), "/OpenAction ")
  {
    LiteralLacks("<< /Type /Catalog ", 'P');
    LiteralLacks("<< /Type /Catalog ", 'O');
    LiteralLacks("/Pages ", 'O');
    LiteralLacks(" ", 'O');
    RefLacks(2, 'O');
    hide Ascii, Ref, Lacks;
    LacksConcat(Ascii("<< /Type /Catalog "), Ascii("/Pages "), 'O');
    LacksConcat(Ascii("<< /Type /Catalog ") + Ascii("/Pages "), Ref(2), 'O');
    LacksConcat(Ascii("<< /Type /Catalog ") + Ascii("/Pages ") + Ref(2), Ascii(" "), 'O');
  }

  lemma KidsKey()
    ensures NewKey(Ascii("<< /Type /Pages "), "/Kids [")
  {
    LiteralLacks("<< /Type /Pages ", 'K');
    hide Ascii, Lacks;
  }

  lemma PageStartLacks(c: char)
    requires c == 'A' || c == 'C'
    ensures Lacks(PageStart(), c)
  {
    LiteralLacks("<< /Type /Page /Parent ", c);
    LiteralLacks(" /MediaBox [0 0 612 792] ", c);
    RefLacks(2, c);
    hide Ascii, Ref, Lacks;
    LacksConcat(Ascii("<< /Type /Page /Parent "), Ref(2), c);
    LacksConcat(Ascii("<< /Type /Page /Parent ") + Ref(2), Ascii(" /MediaBox [0 0 612 792] "), c);
  }

  lemma ResourcesLack()
    ensures Lacks(Resources(), 'A')
  {
    LiteralLacks("/Resources << /Font << /F1 ", 'A');
    LiteralLacks(" >> >> ", 'A');
    RefLacks(5, 'A');
    hide Ascii, Ref, Lacks;
    LacksConcat(Ascii("/Resources << /Font << /F1 "), Ref(5), 'A');
    LacksConcat(Ascii("/Resources << /Font << /F1 ") + Ref(5), Ascii(" >> >> "), 'A');
  }

  function PageFront(): Str {
    PageStart() + Ascii("/Contents ") + Ref(4) + Ascii(" ") + Resources()
  }

  lemma PageKeys()
    ensures NewKey(PageStart(), "/Contents ") && NewKey(PageFront(), "/Annots [")
  {
    PageStartLacks('A');
    PageStartLacks('C');
    LiteralLacks("/Contents ", 'A');
    LiteralLacks(" ", 'A');
    RefLacks(4, 'A');
    ResourcesLack();
    hide Ascii, Ref, Lacks, PageStart, Resources;
    LacksConcat(PageStart(), Ascii("/Contents "), 'A');
    LacksConcat(PageStart() + Ascii("/Contents "), Ref(4), 'A');
    LacksConcat(PageStart() + Ascii("/Contents ") + Ref(4), Ascii(" "), 'A');
    LacksConcat(PageStart() + Ascii("/Contents ") + Ref(4) + Ascii(" "), Resources(), 'A');
  }

  function LinkFront(): Str {
    Ascii("<< /Type /Annot /Subtype /Link ") + Ascii("/Rect [50 690 562 720] ") + Ascii("/Border [0 0 0] /A ")
    + Ascii("<< /Type /Action /S /URI ")
  }

  lemma ActionLacks()
    ensures Lacks(Ascii("<< /Type /Action /S /URI "), '(')
  {
    LiteralLacks("<< /Type /Action /S /URI ", '(');
  }

  lemma AnnotLacks()
    ensures Lacks(Ascii("<< /Type /Annot /Subtype /Link "), '(')
  {
    LiteralLacks("<< /Type /Annot /Subtype /Link ", '(');
  }

  lemma RectLacks()
    ensures Lacks(Ascii("/Rect [50 690 562 720] "), '(')
  {
    LiteralLacks("/Rect [50 690 562 720] ", '(');
  }

  lemma BorderLacks()
    ensures Lacks(Ascii("/Border [0 0 0] /A "), '(')
  {
    LiteralLacks("/Border [0 0 0] /A ", '(');
  }

  lemma UriKeys()
    ensures Lacks(Ascii("<< /Type /Action /S /URI "), '(') && Lacks(LinkFront(), '(')
  {
    hide Ascii, Lacks;
    ActionLacks();
    AnnotLacks();
    RectLacks();
    BorderLacks();
    var annot, rect := Ascii("<< /Type /Annot /Subtype /Link "), Ascii("/Rect [50 690 562 720] ");
    LacksConcat(annot, rect, '(');
    LacksConcat(annot + rect, Ascii("/Border [0 0 0] /A "), '(');
    LacksConcat(annot + rect + Ascii("/Border [0 0 0] /A "), Ascii("<< /Type /Action /S /URI "), '(');
  }

  lemma UriKey(front: Str)
    requires Lacks(front, '(')
    ensures Ascii("/URI (")[5] !in front && Ascii("/URI (")[5] !in Ascii("/URI (")[..5]
    ensures forall u <- front :: u < 0x80
  {
    assert Ascii("/URI (")[5] == 0x28;
  }

  lemma UriBack(objects: seq<Str>, k: nat, front: Str, url: Str, tail: Str)
    requires 1 <= k <= |objects| && AllFit(Offsets(objects)) && Lacks(front, '(')
    requires objects[k - 1] == front + Ascii("/URI (") + Esc(url) + Ascii(") >>") + tail
    ensures LiteralOf(Latin1(Document(objects)), Some(k), "/URI (") == Some(url) <==> IsLatin1(url) && CR !in url
  {
    UriKey(front);
    assert Ascii(") >>") == [CLOSE] + Ascii(" >>");
    hide AllFit, Offsets, Latin1, Document, Ascii, Esc, LiteralOf, IsLatin1, Lacks;
    assert objects[k - 1] == front + (Ascii("/URI (") + (Esc(url) + ([CLOSE] + (Ascii(" >>") + tail))));
    LiteralBack(objects, k, front, "/URI (", 5, url, Ascii(" >>") + tail);
  }

  /** Object 1 leads to object 6, and over object 2 to object 3 and from there to objects 4 and 7. */
  lemma ReferencesFollowed(title: Str, bodyText: Str, url: Str)
    requires AllFit(Offsets(TrackingObjects(title, bodyText, url)))
    ensures var file := Latin1(Document(TrackingObjects(title, bodyText, url)));
      && Follow(file, Some(1), "/OpenAction ") == Some(6) && Follow(file, Some(1), "/Pages ") == Some(2)
      && Follow(file, Some(2), "/Kids [") == Some(3)
      && Follow(file, Some(3), "/Contents ") == Some(4) && Follow(file, Some(3), "/Annots [") == Some(7)
  {
    ObjectsAre(title, bodyText, url);
    CatalogKeys();
    KidsKey();
    PageKeys();
    hide AllFit, Offsets, TrackingObjects, Latin1, Document, Ascii, Ref, NewKey, Follow, Content, StreamObject, Action,
      PageStart, Resources;
    var os := TrackingObjects(title, bodyText, url);
    FollowKey(os, 1, CatalogStart(), "/OpenAction ", 6, Ascii(" >>"));
    var afterPages := Ascii(" ") + Ascii("/OpenAction ") + Ref(6) + Ascii(" >>");
    assert os[0] == Ascii("<< /Type /Catalog ") + Ascii("/Pages ") + Ref(2) + afterPages;
    FollowKey(os, 1, Ascii("<< /Type /Catalog "), "/Pages ", 2, afterPages);
    FollowKey(os, 2, Ascii("<< /Type /Pages "), "/Kids [", 3, Ascii("] /Count 1 >>"));
    var afterContents := Ascii(" ") + Resources() + Ascii("/Annots [") + Ref(7) + Ascii("] >>");
    assert os[2] == PageStart() + Ascii("/Contents ") + Ref(4) + afterContents;
    FollowKey(os, 3, PageStart(), "/Contents ", 4, afterContents);
    assert os[2] == PageFront() + Ascii("/Annots [") + Ref(7) + Ascii("] >>");
    FollowKey(os, 3, PageFront(), "/Annots [", 7, Ascii("] >>"));
  }

  /** The page's contents are the stream of object 4, as long as it says. */
  lemma StreamBack(content: Str, after: seq<byte>)
    ensures ReadStream(Latin1(StreamObject(content)) + after) == Some(Latin1(content))
  {
    AsciiIsAscii("<< /Length ");
    AsciiIsAscii(" >>\nstream\n");
    AsciiIsAscii("endstream");
    hide Ascii, Decimal, Latin1, ReadDigits, Expect;
    var open, middle, close := Ascii("<< /Length "), Ascii(" >>\nstream\n"), Ascii("endstream");
    var t4: seq<int> := close + after;
    var t3: seq<int> := Latin1(content) + t4;
    var t2: seq<int> := middle + t3;
    var t1: seq<int> := Decimal(|content|) + t2;
    StreamBytes(content, after);
    assert Latin1(StreamObject(content)) + after == open + t1;
    ExpectBack(open, t1);
    SpaceFirst(t3);
    ReadDecimal(|content|, t2);
    NotADigit(t2, |content|);
    ExpectBack(middle, t3);
    assert t3[|content|..] == t4 && t3[..|content|] == Latin1(content);
    ExpectBack<int>(close, after);
  }

  lemma SpaceFirst(t3: seq<int>)
    ensures !IsDigit((Ascii(" >>\nstream\n") + t3)[0])
  {
  }

  lemma StreamBytes(content: Str, after: seq<byte>)
    ensures Latin1(StreamObject(content)) + after
      == Ascii("<< /Length ") + (Decimal(|content|) + (Ascii(" >>\nstream\n") + (Latin1(content)
           + (Ascii("endstream") + after))))
  {
    AsciiIsAscii("<< /Length ");
    AsciiIsAscii(" >>\nstream\n");
    AsciiIsAscii("endstream");
    hide Ascii, Decimal, Latin1;
    BytesLaid(Ascii("<< /Length "), Decimal(|content|), Ascii(" >>\nstream\n"), content, Ascii("endstream"), after);
  }

  lemma BytesLaid(open: Str, number: Str, middle: Str, content: Str, close: Str, after: seq<byte>)
    requires (forall u <- open :: u < 0x100) && (forall u <- number :: u < 0x100)
    requires (forall u <- middle :: u < 0x100) && (forall u <- close :: u < 0x100)
    ensures Latin1(open + (number + (middle + (content + close)))) + after
      == open + (number + (middle + (Latin1(content) + (close + after))))
  {
    hide *;
    HeadSame(open, number + (middle + (content + close)), after);
    HeadSame(number, middle + (content + close), after);
    HeadSame(middle, content + close, after);
    Latin1Concat(content, close);
    Latin1Same(close);
    Associate(Latin1(content), close, after);
  }

  lemma Associate(a: seq<int>, b: seq<int>, c: seq<int>)
    ensures a + b + c == a + (b + c)
  {
  }

  // ----- what a viewer finds -----

  lemma Steps(b: seq<int>)
    ensures
      && Catalog(b) == Some(1)
      && Follow(b, Some(1), "/OpenAction ") == Some(6) && Follow(b, Some(1), "/Pages ") == Some(2)
      && Follow(b, Some(2), "/Kids [") == Some(3)
      && Follow(b, Some(3), "/Contents ") == Some(4) && Follow(b, Some(3), "/Annots [") == Some(7)
      ==>
        && OpenActionUri(b) == LiteralOf(b, Some(6), "/URI (") && LinkUri(b) == LiteralOf(b, Some(7), "/URI (")
        && PageContent(b) == match ObjectAt(b, 4) case None => None case Some(text) => ReadStream(text)
  {
    hide Catalog, Follow, LiteralOf, ObjectAt, ReadStream;
  }

  lemma Unread(b: seq<int>)
    requires Catalog(b).None?
    ensures OpenActionUri(b).None? && LinkUri(b).None? && PageContent(b).None?
  {
    hide Catalog;
  }

  /**
   * From the trailer over the catalog to the open action: the URI a viewer fetches is the tracking URL exactly
   * when the URL is Latin-1 without a carriage return and every object starts below ten to the ten.
   */
  lemma TrackerReached(title: Str, bodyText: Str, url: Str)
    ensures OpenActionUri(Latin1(Document(TrackingObjects(title, bodyText, url)))) == Some(url)
      <==> IsLatin1(url) && CR !in url && AllFit(Offsets(TrackingObjects(title, bodyText, url)))
  {
    hide *;
    var os := TrackingObjects(title, bodyText, url);
    CatalogFound(os);
    if AllFit(Offsets(os)) {
      ReferencesFollowed(title, bodyText, url);
      Steps(Latin1(Document(os)));
      UriKeys();
      ActionNested(title, bodyText, url);
      UriBack(os, 6, Ascii("<< /Type /Action /S /URI "), url, []);
    } else {
      Unread(Latin1(Document(os)));
    }
  }

  lemma ActionNested(title: Str, bodyText: Str, url: Str)
    ensures var os := TrackingObjects(title, bodyText, url);
      && os[5] == Ascii("<< /Type /Action /S /URI ") + Ascii("/URI (") + Esc(url) + Ascii(") >>") + []
      && os[6] == LinkFront() + Ascii("/URI (") + Esc(url) + Ascii(") >>") + Ascii(" >>")
  {
    ObjectsAre(title, bodyText, url);
    hide TrackingObjects, Ascii, Esc;
  }

  /** The link on the first page, over the page tree and the page's annotations, likewise. */
  lemma LinkReached(title: Str, bodyText: Str, url: Str)
    ensures LinkUri(Latin1(Document(TrackingObjects(title, bodyText, url)))) == Some(url)
      <==> IsLatin1(url) && CR !in url && AllFit(Offsets(TrackingObjects(title, bodyText, url)))
  {
    hide *;
    var os := TrackingObjects(title, bodyText, url);
    CatalogFound(os);
    if AllFit(Offsets(os)) {
      ReferencesFollowed(title, bodyText, url);
      Steps(Latin1(Document(os)));
      UriKeys();
      ActionNested(title, bodyText, url);
      UriBack(os, 7, LinkFront(), url, Ascii(" >>"));
    } else {
      Unread(Latin1(Document(os)));
    }
  }

  /** The first page shows what it was given, byte for byte. */
  lemma ContentReached(title: Str, bodyText: Str, url: Str)
    ensures PageContent(Latin1(Document(TrackingObjects(title, bodyText, url))))
      == if AllFit(Offsets(TrackingObjects(title, bodyText, url))) then Some(Latin1(Content(title, bodyText))) else None
  {
    hide *;
    var os := TrackingObjects(title, bodyText, url);
    CatalogFound(os);
    if AllFit(Offsets(os)) {
      ReferencesFollowed(title, bodyText, url);
      Steps(Latin1(Document(os)));
      ObjectsAre(title, bodyText, url);
      var after := ObjectRead(os, 4);
      StreamBack(Content(title, bodyText), after);
    } else {
      Unread(Latin1(Document(os)));
    }
  }

  /** The title on the page is the one given exactly when that is Latin-1 without a carriage return. */
  lemma TitleReached(title: Str, bodyText: Str, url: Str)
    requires AllFit(Offsets(TrackingObjects(title, bodyText, url)))
    ensures TitleShown(Latin1(Document(TrackingObjects(title, bodyText, url)))) == Some(title)
      <==> IsLatin1(title) && CR !in title
  {
    hide *;
    ContentReached(title, bodyText, url);
    var front, tail := Ascii("BT /F1 20 Tf 60 740 Td "), AfterTitle(bodyText);
    ContentNested(title, bodyText);
    TitleOpens();
    LiteralBytes(front, Ascii("("), title, tail, []);
    var rest: seq<byte> := Latin1(tail) + [];
    var read: seq<int> := Latin1(Esc(title)) + [CLOSE] + rest;
    NothingAfter(Latin1(Content(title, bodyText)));
    FirstFound(front, Ascii("("), 0, read);
    TitleRead(Latin1(Document(TrackingObjects(title, bodyText, url))), Latin1(Content(title, bodyText)), read);
    RecoveredIff(title, rest);
  }

  lemma NothingAfter(a: seq<int>)
    ensures a + [] == a
  {
  }

  lemma TitleRead(b: seq<int>, content: seq<int>, rest: seq<int>)
    ensures PageContent(b) == Some(content) && FindFirst(content, Ascii("(")) == Some(rest) ==>
      TitleShown(b) == TextRead(ReadLiteral(rest, 0))
  {
    hide PageContent, FindFirst, Ascii, TextRead, ReadLiteral;
  }

  function AfterTitle(bodyText: Str): Str {
    Ascii(" Tj ET\n") + Ascii("BT /F1 11 Tf 60 700 Td ") + Ascii("(") + Esc(bodyText) + Ascii(") Tj ET\n")
  }

  lemma ContentNested(title: Str, bodyText: Str)
    ensures Content(title, bodyText)
      == Ascii("BT /F1 20 Tf 60 740 Td ") + (Ascii("(") + (Esc(title) + ([CLOSE] + AfterTitle(bodyText))))
  {
    ParenCloses();
    hide Ascii, Esc;
  }

  lemma ParenCloses()
    ensures Ascii(") Tj ET\n") == [CLOSE] + Ascii(" Tj ET\n")
  {
  }

  lemma TitleOpens()
    ensures var front, open := Ascii("BT /F1 20 Tf 60 740 Td "), Ascii("(");
      && |open| == 1 && open[0] !in front && open[0] !in open[..0]
      && (forall u <- front :: u < 0x100) && forall u <- open :: u < 0x100
  {
    LiteralLacks("BT /F1 20 Tf 60 740 Td ", '(');
    assert Ascii("(") == [0x28];
  }

  /** So is the text below it, after a title in Latin-1. */
  lemma BodyReached(title: Str, bodyText: Str, url: Str)
    requires AllFit(Offsets(TrackingObjects(title, bodyText, url))) && IsLatin1(title)
    ensures BodyShown(Latin1(Document(TrackingObjects(title, bodyText, url)))) == Some(bodyText)
      <==> IsLatin1(bodyText) && CR !in bodyText
  {
    hide *;
    ContentReached(title, bodyText, url);
    ContentNested(title, bodyText);
    TitleOpens();
    var front, tail := Ascii("BT /F1 20 Tf 60 740 Td "), AfterTitle(bodyText);
    LiteralBytes(front, Ascii("("), title, tail, []);
    NothingAfter(Latin1(Content(title, bodyText)));
    NothingAfter(Latin1(tail));
    var first: seq<int> := Latin1(Esc(title)) + [CLOSE] + Latin1(tail);
    FirstFound(front, Ascii("("), 0, first);
    LatinEscape(title);
    EscapedReads(title, Latin1(tail));
    AfterTitleNested(bodyText);
    BetweenOpens();
    LiteralBytes(Between(), Ascii("("), bodyText, Ascii(" Tj ET\n"), []);
    var rest: seq<byte> := Latin1(Ascii(" Tj ET\n")) + [];
    var last: seq<int> := Latin1(Esc(bodyText)) + [CLOSE] + rest;
    FirstFound(Between(), Ascii("("), 0, last);
    BodyRead(Latin1(Document(TrackingObjects(title, bodyText, url))), Latin1(Content(title, bodyText)), first,
      Latin1(tail), last);
    RecoveredIff(bodyText, rest);
  }

  function Between(): Str {
    Ascii(" Tj ET\n") + Ascii("BT /F1 11 Tf 60 700 Td ")
  }

  lemma AfterTitleNested(bodyText: Str)
    ensures AfterTitle(bodyText) == Between() + (Ascii("(") + (Esc(bodyText) + ([CLOSE] + Ascii(" Tj ET\n"))))
  {
    ParenCloses();
    hide Ascii, Esc;
  }

  lemma BetweenOpens()
    ensures var front, open := Between(), Ascii("(");
      && |open| == 1 && open[0] !in front && open[0] !in open[..0]
      && (forall u <- front :: u < 0x100) && forall u <- open :: u < 0x100
  {
    LiteralLacks(" Tj ET\n", '(');
    LiteralLacks("BT /F1 11 Tf 60 700 Td ", '(');
    LacksConcat(Ascii(" Tj ET\n"), Ascii("BT /F1 11 Tf 60 700 Td "), '(');
    assert Ascii("(") == [0x28];
  }

  lemma LatinEscape(s: Str)
    requires IsLatin1(s)
    ensures Latin1(Esc(s)) == Esc(s)
  {
    EscLatin1(s);
    Latin1Same(Esc(s));
  }

  lemma BodyRead(b: seq<int>, content: seq<int>, first: seq<int>, more: seq<int>, last: seq<int>)
    ensures
      && PageContent(b) == Some(content) && FindFirst(content, Ascii("(")) == Some(first)
      && ReadLiteral(first, 0).Some? && ReadLiteral(first, 0).value.1 == more
      && FindFirst(more, Ascii("(")) == Some(last)
      ==> BodyShown(b) == TextRead(ReadLiteral(last, 0))
  {
    hide PageContent, FindFirst, Ascii, TextRead, ReadLiteral;
  }
}
