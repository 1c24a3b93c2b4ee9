/**
 Literal strings in the tracking PDF: the escape of the source, a reader (section 7.3.4.2 of ISO 32000-1),
 and the way from the end of the file to the tracking URL.
 */
module PdfText {
  import opened Bytes
  import opened Decimals
  import opened Options
  import opened Pdf
  import opened Units

  const BACKSLASH: unit := 0x5C
  const OPEN: unit := 0x28
  const CLOSE: unit := 0x29
  const CR := 0x0D
  const LF := 0x0A

  /** The chain of replacements of the source. */
  function Esc(s: Str): Str {
    Replace(Replace(Replace(s, BACKSLASH, [BACKSLASH, BACKSLASH]), OPEN, [BACKSLASH, OPEN]), CLOSE, [BACKSLASH, CLOSE])
  }

  predicate Special(u: unit) { u == BACKSLASH || u == OPEN || u == CLOSE }

  function EscUnit(u: unit): Str {
    if Special(u) then [BACKSLASH, u] else [u]
  }

  lemma EscOfUnit(u: unit)
    ensures Esc([u]) == EscUnit(u)
  {
    hide Replace;
    ReplaceOne(u, BACKSLASH, [BACKSLASH, BACKSLASH]);
    ReplaceOne(u, OPEN, [BACKSLASH, OPEN]);
    ReplaceOne(u, CLOSE, [BACKSLASH, CLOSE]);
    ReplaceAbsent([BACKSLASH, BACKSLASH], OPEN, [BACKSLASH, OPEN]);
    ReplaceAbsent([BACKSLASH, BACKSLASH], CLOSE, [BACKSLASH, CLOSE]);
    ReplaceAbsent([BACKSLASH, OPEN], CLOSE, [BACKSLASH, CLOSE]);
  }

  lemma EscConcat(a: Str, b: Str)
    ensures Esc(a + b) == Esc(a) + Esc(b)
  {
    hide Replace;
    var a1, b1 := Replace(a, BACKSLASH, [BACKSLASH, BACKSLASH]), Replace(b, BACKSLASH, [BACKSLASH, BACKSLASH]);
    ReplaceConcat(a, b, BACKSLASH, [BACKSLASH, BACKSLASH]);
    ReplaceConcat(a1, b1, OPEN, [BACKSLASH, OPEN]);
    var a2, b2 := Replace(a1, OPEN, [BACKSLASH, OPEN]), Replace(b1, OPEN, [BACKSLASH, OPEN]);
    ReplaceConcat(a2, b2, CLOSE, [BACKSLASH, CLOSE]);
  }

  /** The chain escapes unit by unit. */
  lemma EscFirst(s: Str)
    requires s != []
    ensures Esc(s) == EscUnit(s[0]) + Esc(s[1..])
  {
    hide Esc;
    EscOfUnit(s[0]);
    EscConcat([s[0]], s[1..]);
    assert s == [s[0]] + s[1..];
  }

  // ----- the reader -----

  predicate IsOctal(c: int) { 0x30 <= c <= 0x37 }

  /** What one to three octal digits mean, and how many there are. */
  function OctalEscape(b: seq<int>): (r: (int, nat))
    requires b != [] && IsOctal(b[0])
    ensures 1 <= r.1 <= 3 && r.1 <= |b|
  {
    if |b| < 2 || !IsOctal(b[1]) then (b[0] - 0x30, 1)
    else if |b| < 3 || !IsOctal(b[2]) then (8 * (b[0] - 0x30) + b[1] - 0x30, 2)
    else ((64 * (b[0] - 0x30) + 8 * (b[1] - 0x30) + b[2] - 0x30) % 0x100, 3)
  }

  /** An end of line counts as one line feed, however it is written. */
  function LineEndLength(b: seq<int>): (n: nat)
    requires b != []
    ensures 1 <= n <= |b|
  {
    if b[0] == 0x0D && |b| > 1 && b[1] == 0x0A then 2 else 1
  }

  /** What an escape stands for, after its backslash, and its length. */
  function ReadEscape(b: seq<int>): (r: (seq<int>, nat))
    requires b != []
    ensures 1 <= r.1 <= |b|
  {
    if b[0] == 0x6E then ([0x0A], 1)
    else if b[0] == 0x72 then ([0x0D], 1)
    else if b[0] == 0x74 then ([0x09], 1)
    else if b[0] == 0x62 then ([0x08], 1)
    else if b[0] == 0x66 then ([0x0C], 1)
    else if IsOctal(b[0]) then ([OctalEscape(b).0], OctalEscape(b).1)
    else if b[0] == 0x0D || b[0] == 0x0A then ([], LineEndLength(b))
    else ([b[0]], 1)
  }

  /** The text of a literal string whose opening parenthesis has been read, and what follows its end. */
  function ReadLiteral(b: seq<int>, depth: nat): Option<(seq<int>, seq<int>)>
    decreases |b|
  {
    if b == [] then None
    else if b[0] == 0x29 && depth == 0 then Some(([], b[1..]))
    else if b[0] == 0x5C then
      if |b| < 2 then None
      else
        var (text, n) := ReadEscape(b[1..]);
        Then(text, ReadLiteral(b[1 + n..], depth))
    else if b[0] == 0x0D then Then([0x0A], ReadLiteral(b[LineEndLength(b)..], depth))
    else if b[0] == 0x28 then Then([b[0]], ReadLiteral(b[1..], depth + 1))
    else if b[0] == 0x29 then Then([b[0]], ReadLiteral(b[1..], depth - 1))
    else Then([b[0]], ReadLiteral(b[1..], depth))
  }

  function Then(text: seq<int>, r: Option<(seq<int>, seq<int>)>): Option<(seq<int>, seq<int>)> {
    match r case None => None case Some((more, rest)) => Some((text + more, rest))
  }

  // ----- what survives -----

  predicate IsLatin1(s: Str) {
    forall u <- s :: u < 0x100
  }

  /** The text with every end of line as a line feed. */
  function Normalized(s: Str): seq<int> {
    if s == [] then []
    else if s[0] == CR then [LF] + Normalized(s[LineEndLength(s)..])
    else [s[0]] + Normalized(s[1..])
  }

  lemma SpecialBack(u: unit, more: seq<int>)
    requires Special(u)
    ensures ReadLiteral([BACKSLASH, u] + more, 0) == Then([u], ReadLiteral(more, 0))
  {
    var b: seq<int> := [BACKSLASH, u] + more;
    assert b[1..][0] == u && b[1 + 1..] == more;
  }

  lemma PlainBack(u: unit, more: seq<int>)
    requires !Special(u) && u != CR
    ensures ReadLiteral([u] + more, 0) == Then([u], ReadLiteral(more, 0))
  {
    var b: seq<int> := [u] + more;
    assert b[1..] == more;
  }

  lemma LineEndBack(pair: bool, more: seq<int>)
    requires !pair ==> more == [] || more[0] != LF
    ensures ReadLiteral((if pair then [CR, LF] else [CR]) + more, 0) == Then([LF], ReadLiteral(more, 0))
  {
    var b: seq<int> := (if pair then [CR, LF] else [CR]) + more;
    assert b[LineEndLength(b)..] == more;
  }

  /** An escaped text reads back with its line ends normalized. */
  lemma {:induction false} EscapedReads(s: Str, rest: seq<int>)
    ensures ReadLiteral(Esc(s) + [CLOSE] + rest, 0) == Some((Normalized(s), rest))
    decreases |s|
  {
    hide Esc, ReadLiteral;
    var b: seq<int> := Esc(s) + [CLOSE] + rest;
    if s == [] {
      EscEmpty();
      EndReads(rest);
      assert b == [CLOSE] + rest;
    } else if s[0] == CR && |s| > 1 && s[1] == LF {
      EscFirst(s);
      EscFirst(s[1..]);
      assert s[1..][1..] == s[2..];
      var more: seq<int> := Esc(s[2..]) + [CLOSE] + rest;
      assert b == [CR, LF] + more;
      LineEndBack(true, more);
      EscapedReads(s[2..], rest);
    } else {
      EscFirst(s);
      var more: seq<int> := Esc(s[1..]) + [CLOSE] + rest;
      assert b == EscUnit(s[0]) + more;
      EscapedReads(s[1..], rest);
      if s[0] == CR {
        NextIsNotLf(s, rest);
        LineEndBack(false, more);
      } else if Special(s[0]) {
        SpecialBack(s[0], more);
      } else {
        PlainBack(s[0], more);
      }
    }
  }

  lemma NextIsNotLf(s: Str, rest: seq<int>)
    requires s != [] && (|s| == 1 || s[1] != LF)
    ensures (Esc(s[1..]) + [CLOSE] + rest)[0] != LF
  {
    hide Esc;
    if |s| > 1 {
      EscFirst(s[1..]);
    } else {
      EscEmpty();
      assert s[1..] == [];
    }
  }

  lemma EscEmpty()
    ensures Esc([]) == []
  {
  }

  lemma EndReads(rest: seq<int>)
    ensures ReadLiteral([CLOSE] + rest, 0) == Some(([], rest))
  {
    var b: seq<int> := [CLOSE] + rest;
    assert b[1..] == rest;
  }

  lemma {:induction false} NormalizedSame(s: Str)
    ensures CR !in Normalized(s)
    ensures Normalized(s) == s <==> CR !in s
    decreases |s|
  {
    if s != [] {
      if s[0] == CR {
        NormalizedSame(s[LineEndLength(s)..]);
        assert Normalized(s)[0] == LF;
      } else {
        NormalizedSame(s[1..]);
        assert s == [s[0]] + s[1..];
        assert Normalized(s)[1..] == Normalized(s[1..]);
      }
    }
  }

  predicate Bytewise(s: seq<int>) {
    forall i :: 0 <= i < |s| ==> 0 <= s[i] < 0x100
  }

  lemma ThenIsBytes(text: seq<int>, r: Option<(seq<int>, seq<int>)>)
    requires Bytewise(text) && (r.Some? ==> Bytewise(r.value.0))
    ensures Then(text, r).Some? ==> Bytewise(Then(text, r).value.0)
  {
  }

  /** A reader of bytes can only ever return bytes. */
  lemma {:induction false} LiteralIsBytes(b: seq<int>, depth: nat)
    requires Bytewise(b)
    ensures ReadLiteral(b, depth).Some? ==> Bytewise(ReadLiteral(b, depth).value.0)
    decreases |b|
  {
    hide ReadEscape, Then, LineEndLength;
    if b == [] || (b[0] == CLOSE && depth == 0) {
    } else if b[0] == BACKSLASH {
      if |b| >= 2 {
        EscapeIsBytes(b[1..]);
        var (text, n) := ReadEscape(b[1..]);
        LiteralIsBytes(b[1 + n..], depth);
        ThenIsBytes(text, ReadLiteral(b[1 + n..], depth));
      }
    } else {
      var n := if b[0] == CR then LineEndLength(b) else 1;
      var inner := if b[0] == OPEN then depth + 1 else if b[0] == CLOSE then depth - 1 else depth;
      LiteralIsBytes(b[n..], inner);
      ThenIsBytes([if b[0] == CR then LF else b[0]], ReadLiteral(b[n..], inner));
    }
  }

  lemma EscapeIsBytes(b: seq<int>)
    requires b != [] && Bytewise(b)
    ensures Bytewise(ReadEscape(b).0)
  {
  }

  lemma {:induction false} EscLatin1(s: Str)
    requires IsLatin1(s)
    ensures forall u <- Esc(s) :: u < 0x100
    decreases |s|
  {
    hide Esc;
    if s == [] {
      EscEmpty();
    } else {
      EscFirst(s);
      assert s[0] in s && forall u <- s[1..] :: u in s;
      EscLatin1(s[1..]);
    }
  }

  function TextRead(r: Option<(seq<int>, seq<int>)>): Option<seq<int>> {
    match r case None => None case Some((text, _)) => Some(text)
  }

  /** A reader recovers the text exactly when all of it is Latin-1 and none of it a carriage return. */
  lemma RecoveredIff(s: Str, rest: seq<byte>)
    ensures TextRead(ReadLiteral(Latin1(Esc(s)) + [CLOSE] + rest, 0)) == Some(s) <==> IsLatin1(s) && CR !in s
  {
    hide Esc, ReadLiteral, Normalized;
    if IsLatin1(s) {
      EscLatin1(s);
      Latin1Same(Esc(s));
      EscapedReads(s, rest);
      NormalizedSame(s);
    } else {
      LiteralIsBytes(Latin1(Esc(s)) + [CLOSE] + rest, 0);
    }
  }

  // ----- the tracking document -----

  /** The page content. */
  function Content(title: Str, bodyText: Str): Str {
    Ascii("BT /F1 20 Tf 60 740 Td ") + Ascii("(") + Esc(title) + Ascii(") Tj ET\n")
    + Ascii("BT /F1 11 Tf 60 700 Td ") + Ascii("(") + Esc(bodyText) + Ascii(") Tj ET\n")
  }

  function Action(url: Str): Str {
    Ascii("<< /Type /Action /S /URI ") + Ascii("/URI (") + Esc(url) + Ascii(") >>")
  }

  function StreamObject(content: Str): Str {
    Ascii("<< /Length ") + (Decimal(|content|) + (Ascii(" >>\nstream\n") + (content + Ascii("endstream"))))
  }

  /** A reference to object `n`. */
  function Ref(n: nat): Str {
    Decimal(n) + Ascii(" 0 R")
  }

  function PageStart(): Str {
    Ascii("<< /Type /Page /Parent ") + Ref(2) + Ascii(" /MediaBox [0 0 612 792] ")
  }

  function Resources(): Str {
    Ascii("/Resources << /Font << /F1 ") + Ref(5) + Ascii(" >> >> ")
  }

  /** Catalog, pages, page, contents, font, open action, annotation. */
  function TrackingObjects(title: Str, bodyText: Str, url: Str): (objects: seq<Str>)
    ensures |objects| == 7
  {
    [ Ascii("<< /Type /Catalog ") + Ascii("/Pages ") + Ref(2) + Ascii(" ") + Ascii("/OpenAction ") + Ref(6)
        + Ascii(" >>"),
      Ascii("<< /Type /Pages ") + Ascii("/Kids [") + Ref(3) + Ascii("] /Count 1 >>"),
      PageStart() + Ascii("/Contents ") + Ref(4) + Ascii(" ") + Resources() + Ascii("/Annots [") + Ref(7)
        + Ascii("] >>"),
      StreamObject(Content(title, bodyText)),
      Ascii("<< /Type /Font /Subtype /Type1 /BaseFont /Helvetica >>"),
      Action(url),
      Ascii("<< /Type /Annot /Subtype /Link ") + Ascii("/Rect [50 690 562 720] ") + Ascii("/Border [0 0 0] /A ")
        + Action(url) + Ascii(" >>")
    ]
  }

  method BuildTrackingPdf(title: Str, bodyText: Str, url: Str) returns (file: seq<byte>)
    ensures file == Latin1(Document(TrackingObjects(title, bodyText, url)))
  {
    file := BuildDocument(TrackingObjects(title, bodyText, url));
  }

  function AsciiBytes(s: string): seq<byte> {
    Latin1(Ascii(s))
  }
}
