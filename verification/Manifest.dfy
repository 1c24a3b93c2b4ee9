/**
 The canonical text of a release manifest (`apps/api/src/release-signing.ts`): it can be read back,
 so a signature over it covers exactly one version and one file map. Text is a sequence of UTF-16
 code units, lone surrogates included.
 */
module Manifest {
  import opened Decimals
  import opened Options
  import opened Units

  datatype FileEntry = FileEntry(sha256: Str, size: nat)

  /** The properties of the `files` object, in insertion order. */
  type Files = seq<(Str, FileEntry)>

  const QUOTE: unit := 0x22
  const BACKSLASH: unit := 0x5C

  // ----- the string printer -----

  function HexDigit(n: int): unit
    requires 0 <= n < 16
  {
    if n < 10 then 0x30 + n else 0x57 + n
  }

  /** `\uXXXX`, in lower case. */
  function UnicodeEscape(u: unit): Str {
    var u1 := u / 0x10;
    var u2 := u1 / 0x10;
    [BACKSLASH, 0x75, HexDigit(u2 / 0x10), HexDigit(u2 % 0x10), HexDigit(u1 % 0x10), HexDigit(u % 0x10)]
  }

  /** The letter of a two-character escape, if the unit has one. */
  function ShortEscape(u: unit): Option<unit> {
    if u == QUOTE then Some(QUOTE)
    else if u == BACKSLASH then Some(BACKSLASH)
    else if u == 0x08 then Some(0x62)
    else if u == 0x09 then Some(0x74)
    else if u == 0x0A then Some(0x6E)
    else if u == 0x0C then Some(0x66)
    else if u == 0x0D then Some(0x72)
    else None
  }

  /** What `JSON.stringify` makes of one unit that is not half of a surrogate pair. */
  function StringifyUnit(u: unit): Str {
    if ShortEscape(u).Some? then [BACKSLASH, ShortEscape(u).value]
    else if u < 0x20 || IsHigh(u) || IsLow(u) then UnicodeEscape(u)
    else [u]
  }

  function StringifyBody(s: Str): Str {
    if s == [] then []
    else if StartsWithPair(s) then s[..2] + StringifyBody(s[2..])
    else StringifyUnit(s[0]) + StringifyBody(s[1..])
  }

  function Stringify(s: Str): Str {
    [QUOTE] + StringifyBody(s) + [QUOTE]
  }

  const HTML: seq<unit> := [0x3C, 0x3E, 0x26, 0x2028, 0x2029]

  /** The replacements of `HTML[k..]`, one after the other. */
  function ReplaceChain(s: Str, k: nat): Str
    requires k <= 5
    decreases 5 - k
  {
    if k == 5 then s else ReplaceChain(Replace(s, HTML[k], UnicodeEscape(HTML[k])), k + 1)
  }

  function GoJsonString(s: Str): Str {
    ReplaceChain(Stringify(s), 0)
  }

  // ----- the chain of replacements is one escape per character -----

  function EscapeUnit(u: unit): Str {
    if u in HTML then UnicodeEscape(u) else StringifyUnit(u)
  }

  function Escape(s: Str): Str {
    if s == [] then []
    else if StartsWithPair(s) then s[..2] + Escape(s[2..])
    else EscapeUnit(s[0]) + Escape(s[1..])
  }

  lemma {:induction false} ChainConcat(a: Str, b: Str, k: nat)
    requires k <= 5
    ensures ReplaceChain(a + b, k) == ReplaceChain(a, k) + ReplaceChain(b, k)
    decreases 5 - k
  {
    hide Replace;
    if k < 5 {
      ReplaceConcat(a, b, HTML[k], UnicodeEscape(HTML[k]));
      ChainConcat(Replace(a, HTML[k], UnicodeEscape(HTML[k])), Replace(b, HTML[k], UnicodeEscape(HTML[k])), k + 1);
    }
  }

  /** Text without any of the five units passes through. */
  lemma {:induction false} ChainAbsent(s: Str, k: nat)
    requires k <= 5 && forall u <- s :: u !in HTML
    ensures ReplaceChain(s, k) == s
    decreases 5 - k
  {
    hide Replace;
    if k < 5 {
      assert HTML[k] in HTML;
      ReplaceAbsent(s, HTML[k], UnicodeEscape(HTML[k]));
      ChainAbsent(s, k + 1);
    }
  }

  lemma EscapesAreClean(u: unit)
    ensures forall x <- UnicodeEscape(u) :: x !in HTML
  {
  }

  /** One of the five units becomes its escape, whichever replacement catches it. */
  lemma {:induction false} ChainHit(u: unit, j: nat, k: nat)
    requires k <= j < 5 && HTML[j] == u
    ensures ReplaceChain([u], k) == UnicodeEscape(u)
    decreases 5 - k
  {
    hide UnicodeEscape, Replace;
    ReplaceOne(u, HTML[k], UnicodeEscape(HTML[k]));
    if HTML[k] == u {
      EscapesAreClean(u);
      ChainAbsent(UnicodeEscape(u), k + 1);
    } else {
      ChainHit(u, j, k + 1);
    }
  }

  lemma StringifiedIsClean(u: unit)
    requires u !in HTML
    ensures forall x <- StringifyUnit(u) :: x !in HTML
  {
    EscapesAreClean(u);
    hide UnicodeEscape;
  }

  lemma ChainOfUnit(u: unit)
    ensures ReplaceChain(StringifyUnit(u), 0) == EscapeUnit(u)
  {
    if u in HTML {
      assert StringifyUnit(u) == [u];
      hide ReplaceChain, UnicodeEscape;
      var j :| 0 <= j < 5 && HTML[j] == u;
      ChainHit(u, j, 0);
    } else {
      hide ReplaceChain;
      StringifiedIsClean(u);
      ChainAbsent(StringifyUnit(u), 0);
    }
  }

  lemma {:induction false} ChainOfBody(s: Str)
    ensures ReplaceChain(StringifyBody(s), 0) == Escape(s)
    decreases |s|
  {
    hide ReplaceChain, StringifyUnit, EscapeUnit;
    if s == [] {
      ChainAbsent([], 0);
    } else if StartsWithPair(s) {
      ChainConcat(s[..2], StringifyBody(s[2..]), 0);
      ChainAbsent(s[..2], 0);
      ChainOfBody(s[2..]);
    } else {
      ChainConcat(StringifyUnit(s[0]), StringifyBody(s[1..]), 0);
      ChainOfUnit(s[0]);
      ChainOfBody(s[1..]);
    }
  }

  lemma ChainIsEscape(s: Str)
    ensures GoJsonString(s) == [QUOTE] + Escape(s) + [QUOTE]
  {
    hide ReplaceChain, StringifyBody, Escape;
    ChainConcat([QUOTE] + StringifyBody(s), [QUOTE], 0);
    ChainConcat([QUOTE], StringifyBody(s), 0);
    ChainAbsent([QUOTE], 0);
    ChainOfBody(s);
  }

  // ----- a JSON string reader (section 7 of RFC 8259) -----

  function HexValue(u: unit): (r: Option<int>)
    ensures r.Some? ==> 0 <= r.value < 16
  {
    if 0x30 <= u <= 0x39 then Some(u - 0x30)
    else if 0x61 <= u <= 0x66 then Some(u - 0x57)
    else if 0x41 <= u <= 0x46 then Some(u - 0x37)
    else None
  }

  function ReadHex4(s: Str): (r: Option<unit>)
    requires |s| == 4
  {
    var a, b, c, d := HexValue(s[0]), HexValue(s[1]), HexValue(s[2]), HexValue(s[3]);
    if a.None? || b.None? || c.None? || d.None? then None
    else Some(0x1000 * a.value + 0x100 * b.value + 0x10 * c.value + d.value)
  }

  /** The unit named by the letter of a two-character escape. */
  function Unescape(letter: unit): Option<unit> {
    if letter == 0x22 || letter == 0x5C || letter == 0x2F then Some(letter)
    else if letter == 0x62 then Some(0x08)
    else if letter == 0x66 then Some(0x0C)
    else if letter == 0x6E then Some(0x0A)
    else if letter == 0x72 then Some(0x0D)
    else if letter == 0x74 then Some(0x09)
    else None
  }

  /** One character of a string and what follows it; control characters must be escaped. */
  function ReadUnit(t: Str): (r: Option<(unit, Str)>)
    ensures r.Some? ==> |r.value.1| < |t|
  {
    if t == [] || t[0] < 0x20 then None
    else if t[0] != 0x5C then Some((t[0], t[1..]))
    else if |t| >= 6 && t[1] == 0x75 then
      match ReadHex4(t[2..6])
      case None => None
      case Some(u) => Some((u, t[6..]))
    else if |t| >= 2 && Unescape(t[1]).Some? then Some((Unescape(t[1]).value, t[2..]))
    else None
  }

  /** The characters up to the closing quote, and what follows it. */
  function ReadBody(t: Str): (r: Option<(Str, Str)>)
    ensures r.Some? ==> |r.value.1| < |t|
  {
    if t != [] && t[0] == 0x22 then Some(([], t[1..]))
    else
      match ReadUnit(t)
      case None => None
      case Some((u, more)) =>
        match ReadBody(more)
        case None => None
        case Some((s, rest)) => Some(([u] + s, rest))
  }

  function ReadString(t: Str): (r: Option<(Str, Str)>)
    ensures r.Some? ==> |r.value.1| < |t|
  {
    if t == [] || t[0] != 0x22 then None else ReadBody(t[1..])
  }

  /** The digits are in lower case. */
  lemma HexDigits()
    ensures seq(16, n requires 0 <= n < 16 => HexDigit(n)) == Ascii("0123456789abcdef")
  {
  }

  /** Printed as it is: anything but controls, lone surrogates, `"`, `\`, `<`, `>`, `&` and the two separators. */
  lemma PlainUnits(u: unit)
    ensures EscapeUnit(u) == [u] <==>
      && u >= 0x20 && (u < 0xD800 || u > 0xDFFF)
      && u != 0x22 && u != 0x5C && u != 0x3C && u != 0x3E && u != 0x26 && u != 0x2028 && u != 0x2029
  {
  }

  /** With a letter after the backslash: `"`, `\`, `b`, `t`, `n`, `f` and `r`. */
  lemma LetterUnits()
    ensures EscapeUnit(0x22) == [0x5C, 0x22] && EscapeUnit(0x5C) == [0x5C, 0x5C]
    ensures EscapeUnit(0x08) == [0x5C, 0x62] && EscapeUnit(0x09) == [0x5C, 0x74] && EscapeUnit(0x0A) == [0x5C, 0x6E]
    ensures EscapeUnit(0x0C) == [0x5C, 0x66] && EscapeUnit(0x0D) == [0x5C, 0x72]
  {
  }

  lemma HexDigitBack(n: int)
    requires 0 <= n < 16
    ensures HexValue(HexDigit(n)) == Some(n)
  {
  }

  lemma Hex4Back(u: unit)
    ensures ReadHex4(UnicodeEscape(u)[2..]) == Some(u)
  {
    var u1 := u / 0x10;
    var u2 := u1 / 0x10;
    HexDigitBack(u2 / 0x10);
    HexDigitBack(u2 % 0x10);
    HexDigitBack(u1 % 0x10);
    HexDigitBack(u % 0x10);
    hide HexDigit, HexValue;
  }

  lemma UnicodeEscapeBack(u: unit, more: Str)
    ensures ReadUnit(UnicodeEscape(u) + more) == Some((u, more))
  {
    var t := UnicodeEscape(u) + more;
    Hex4Back(u);
    hide HexDigit, ReadHex4;
    assert t[6..] == more && t[2..6] == UnicodeEscape(u)[2..];
  }

  lemma EscapeUnitBack(u: unit, more: Str)
    ensures ReadUnit(EscapeUnit(u) + more) == Some((u, more)) && EscapeUnit(u)[0] != QUOTE
  {
    UnicodeEscapeBack(u, more);
    hide UnicodeEscape, ReadHex4;
    var t := StringifyUnit(u) + more;
    assert ShortEscape(u).Some? ==> t[2..] == more;
    assert |StringifyUnit(u)| == 1 ==> t[1..] == more;
    EscapeLength(u);
  }

  lemma EscapeLength(u: unit)
    ensures |UnicodeEscape(u)| == 6 && UnicodeEscape(u)[0] == BACKSLASH
  {
  }

  /** Printed text is decoded exactly, whatever follows it. */
  lemma {:induction false} EscapeBack(s: Str, rest: Str)
    ensures ReadBody(Escape(s) + [QUOTE] + rest) == Some((s, rest))
    decreases |s|
  {
    hide EscapeUnit, ReadUnit;
    var t := Escape(s) + [QUOTE] + rest;
    if s == [] {
      assert t[1..] == rest;
    } else if StartsWithPair(s) {
      var more := Escape(s[2..]) + [QUOTE] + rest;
      assert t == [s[0]] + ([s[1]] + more);
      PlainUnit(s[0], [s[1]] + more);
      PlainUnit(s[1], more);
      EscapeBack(s[2..], rest);
      assert s == [s[0]] + ([s[1]] + s[2..]);
    } else {
      var more := Escape(s[1..]) + [QUOTE] + rest;
      assert t == EscapeUnit(s[0]) + more;
      EscapeUnitBack(s[0], more);
      EscapeBack(s[1..], rest);
      assert s == [s[0]] + s[1..];
    }
  }

  lemma PlainUnit(u: unit, more: Str)
    requires u >= 0x20 && u != BACKSLASH
    ensures ReadUnit([u] + more) == Some((u, more))
  {
    assert ([u] + more)[1..] == more;
  }

  lemma StringBack(s: Str, rest: Str)
    ensures ReadString(GoJsonString(s) + rest) == Some((s, rest))
  {
    hide GoJsonString, ReadBody, Escape;
    ChainIsEscape(s);
    var t := GoJsonString(s) + rest;
    assert t[1..] == Escape(s) + [QUOTE] + rest;
    EscapeBack(s, rest);
  }

  // ----- the manifest -----

  /** Order by code units. */
  predicate Less(a: Str, b: Str) {
    b != [] && (a == [] || a[0] < b[0] || (a[0] == b[0] && Less(a[1..], b[1..])))
  }

  /** What a name is compared by. */
  type Key = Str -> Str

  /** The name itself, as `sort` compares in JavaScript. */
  function ByUnits(name: Str): Str {
    name
  }

  /** The entry put into a sorted list. */
  function Insert(f: (Str, FileEntry), files: Files, key: Key): Files {
    if files == [] || Less(key(f.0), key(files[0].0)) then [f] + files else [files[0]] + Insert(f, files[1..], key)
  }

  function SortedBy(files: Files, key: Key): Files {
    if files == [] then [] else Insert(files[0], SortedBy(files[1..], key), key)
  }

  /** The names in order, each with its entry. */
  function Sorted(files: Files): Files {
    SortedBy(files, ByUnits)
  }

  function EntryText(f: (Str, FileEntry)): Str {
    GoJsonString(f.0) + Ascii(":{\"sha256\":") + GoJsonString(f.1.sha256) + Ascii(",\"size\":")
    + Decimal(f.1.size) + Ascii("}")
  }

  /** `map` and `join(",")`. */
  function Joined(files: Files): Str {
    if files == [] then []
    else if |files| == 1 then EntryText(files[0])
    else EntryText(files[0]) + Ascii(",") + Joined(files[1..])
  }

  function ManifestText(version: Str, entries: Files): Str {
    Ascii("{\"version\":") + GoJsonString(version) + Ascii(",\"files\":{") + Joined(entries)
    + Ascii("},\"signature\":\"\"}")
  }

  function CanonicalManifest(version: Str, files: Files): Str {
    ManifestText(version, Sorted(files))
  }

  // ----- reading it -----

  /** A number without leading zeros. */
  function ReadNumber(t: Str): (r: Option<(nat, Str)>)
    ensures r.Some? ==> |r.value.1| <= |t|
  {
    if t == [] || !IsDigit(t[0]) || (|t| > 1 && t[0] == 0x30 && IsDigit(t[1])) then None
    else
      var (n, rest) := ReadDigits(t, 0);
      Some((n, t[|t| - |rest|..]))
  }

  function ReadEntry(t: Str): (r: Option<((Str, FileEntry), Str)>)
    ensures r.Some? ==> |r.value.1| < |t|
  {
    match ReadString(t) case None => None case Some((name, t1)) =>
    match Expect(t1, Ascii(":{\"sha256\":")) case None => None case Some(t2) =>
    match ReadString(t2) case None => None case Some((sha256, t3)) =>
    match Expect(t3, Ascii(",\"size\":")) case None => None case Some(t4) =>
    match ReadNumber(t4) case None => None case Some((size, t5)) =>
    match Expect(t5, Ascii("}")) case None => None case Some(t6) =>
    Some(((name, FileEntry(sha256, size)), t6))
  }

  /** Entries separated by commas, at least one. */
  function ReadEntries(t: Str): (r: Option<(Files, Str)>)
    ensures r.Some? ==> |r.value.1| < |t|
    decreases |t|
  {
    match ReadEntry(t) case None => None case Some((f, t1)) =>
    match Expect(t1, Ascii(",")) case None => Some(([f], t1)) case Some(t2) =>
    match ReadEntries(t2) case None => None case Some((fs, t3)) =>
    Some(([f] + fs, t3))
  }

  function ReadManifest(t: Str): Option<(Str, Files)> {
    match Expect(t, Ascii("{\"version\":")) case None => None case Some(t1) =>
    match ReadString(t1) case None => None case Some((version, t2)) =>
    match Expect(t2, Ascii(",\"files\":{")) case None => None case Some(t3) =>
    if t3 == Ascii("},\"signature\":\"\"}") then Some((version, []))
    else
      match ReadEntries(t3) case None => None case Some((files, t4)) =>
      if t4 == Ascii("},\"signature\":\"\"}") then Some((version, files)) else None
  }

  lemma NumberBack(n: nat, rest: Str)
    requires rest == [] || !IsDigit(rest[0])
    ensures ReadNumber(Decimal(n) + rest) == Some((n, rest))
  {
    ReadDecimal(n, rest);
    hide Decimal;
  }

  lemma EntryBack(f: (Str, FileEntry), rest: Str)
    ensures ReadEntry(EntryText(f) + rest) == Some((f, rest))
  {
    hide GoJsonString, ReadString, ReadNumber, Expect, Decimal, Ascii;
    var c, e := Ascii("}"), Ascii(",\"size\":");
    var k := Ascii(":{\"sha256\":");
    var t5 := c + rest;
    var t4 := Decimal(f.1.size) + t5;
    var t3 := e + t4;
    var t2 := GoJsonString(f.1.sha256) + t3;
    var t1 := k + t2;
    assert EntryText(f) + rest == GoJsonString(f.0) + t1;
    StringBack(f.0, t1);
    ExpectBack<unit>(k, t2);
    StringBack(f.1.sha256, t3);
    ExpectBack<unit>(e, t4);
    AsciiBrace();
    NumberBack(f.1.size, t5);
    ExpectBack<unit>(c, rest);
  }

  lemma AsciiBrace()
    ensures Ascii("}") == [0x7D] && Ascii(",") == [0x2C]
  {
  }

  lemma {:induction false} EntriesBack(files: Files, rest: Str)
    requires files != [] && (rest == [] || rest[0] != 0x2C)
    ensures ReadEntries(Joined(files) + rest) == Some((files, rest))
    decreases |files|
  {
    hide EntryText, ReadEntry, Ascii;
    AsciiBrace();
    var comma := Ascii(",");
    if |files| == 1 {
      EntryBack(files[0], rest);
      assert Expect(rest, comma).None?;
      assert files == [files[0]];
    } else {
      var more := Joined(files[1..]) + rest;
      assert Joined(files) + rest == EntryText(files[0]) + (comma + more);
      EntryBack(files[0], comma + more);
      ExpectBack(comma, more);
      EntriesBack(files[1..], rest);
      assert files == [files[0]] + files[1..];
    }
  }

  lemma TextBack(version: Str, fs: Files)
    ensures ReadManifest(ManifestText(version, fs)) == Some((version, fs))
  {
    hide GoJsonString, ReadString, Joined, ReadEntries, Expect, Ascii;
    var open, mid, end := Ascii("{\"version\":"), Ascii(",\"files\":{"), Ascii("},\"signature\":\"\"}");
    var t3 := Joined(fs) + end;
    var t2 := mid + t3;
    var t1 := GoJsonString(version) + t2;
    assert ManifestText(version, fs) == open + t1;
    ExpectBack(open, t1);
    StringBack(version, t2);
    ExpectBack(mid, t3);
    JoinedEmptyOrEntries(fs, end);
    if fs != [] {
      EndIsNoComma();
      EntriesBack(fs, end);
    }
  }

  /** The reader recovers the version and the entries, in sorted order. */
  lemma ManifestBack(version: Str, files: Files)
    ensures ReadManifest(CanonicalManifest(version, files)) == Some((version, Sorted(files)))
  {
    hide ReadManifest, ManifestText;
    TextBack(version, Sorted(files));
  }

  lemma EndIsNoComma()
    ensures Ascii("},\"signature\":\"\"}")[0] == 0x7D
  {
  }

  /** A list of entries starts with a quote, so it is not the end of the object. */
  lemma JoinedEmptyOrEntries(files: Files, end: Str)
    requires end == Ascii("},\"signature\":\"\"}")
    ensures files == [] ==> Joined(files) + end == end
    ensures files != [] ==> Joined(files) + end != end
  {
    EndIsNoComma();
    hide GoJsonString, Ascii;
    if files != [] {
      ChainIsEscape(files[0].0);
      assert Joined(files)[0] == QUOTE;
    }
  }

  // ----- sorting forgets the insertion order -----

  predicate DistinctNames(files: Files) {
    forall i, j :: 0 <= i < j < |files| ==> files[i].0 != files[j].0
  }

  /** The `files` object as a map: what does not depend on the insertion order. */
  function AsMap(files: Files): map<Str, FileEntry>
    requires DistinctNames(files)
  {
    map f | f in files :: f.0 := f.1
  }

  predicate InOrder(files: Files, key: Key) {
    forall i, j :: 0 <= i < j < |files| ==> Less(key(files[i].0), key(files[j].0))
  }

  predicate StrictlySorted(files: Files) {
    InOrder(files, ByUnits)
  }

  predicate DistinctKeys(files: Files, key: Key) {
    forall i, j :: 0 <= i < j < |files| ==> key(files[i].0) != key(files[j].0)
  }

  /** `a` and `b` agree up to `i`, where `a` ends or has the smaller unit. */
  predicate SmallerAt(a: Str, b: Str, i: nat) {
    i <= |a| && i < |b| && a[..i] == b[..i] && (i == |a| || a[i] < b[i])
  }

  /** The order is that of the first units that differ. */
  lemma {:induction false} LessIff(a: Str, b: Str)
    ensures Less(a, b) <==> exists i :: SmallerAt(a, b, i)
    decreases |a|
  {
    if b == [] {
    } else if a == [] || a[0] != b[0] {
      assert Less(a, b) ==> SmallerAt(a, b, 0);
      assert forall i: nat | 0 < i <= |a| && i < |b| && a != [] :: a[..i][0] == a[0] && b[..i][0] == b[0];
    } else {
      LessIff(a[1..], b[1..]);
      forall i: nat
        ensures SmallerAt(a, b, i + 1) <==> SmallerAt(a[1..], b[1..], i)
      {
        MoveUp(a, b, i);
      }
      if i: nat :| SmallerAt(a, b, i) {
        assert i > 0 && SmallerAt(a[1..], b[1..], i - 1);
      }
    }
  }

  lemma MoveUp(a: Str, b: Str, i: nat)
    requires a != [] && b != [] && a[0] == b[0]
    ensures SmallerAt(a, b, i + 1) <==> SmallerAt(a[1..], b[1..], i)
  {
    if i + 1 <= |a| && i + 1 < |b| {
      assert a[..i + 1] == [a[0]] + a[1..][..i] && b[..i + 1] == [b[0]] + b[1..][..i];
      assert a[1..][..i] == a[..i + 1][1..] && b[1..][..i] == b[..i + 1][1..];
    }
  }

  lemma {:induction false} LessTotal(a: Str, b: Str)
    ensures a == b || Less(a, b) || Less(b, a)
    decreases |a|
  {
    if a != [] && b != [] && a[0] == b[0] {
      LessTotal(a[1..], b[1..]);
      assert a == [a[0]] + a[1..] && b == [b[0]] + b[1..];
    }
  }

  lemma {:induction false} LessStrict(a: Str)
    ensures !Less(a, a)
    decreases |a|
  {
    if a != [] {
      LessStrict(a[1..]);
    }
  }

  lemma {:induction false} LessTransitive(a: Str, b: Str, c: Str)
    requires Less(a, b) && Less(b, c)
    ensures Less(a, c)
    decreases |a|
  {
    if a != [] && b[0] == a[0] && c[0] == b[0] {
      LessTransitive(a[1..], b[1..], c[1..]);
    }
  }

  predicate SameEntries(a: Files, b: Files) {
    (forall f <- a :: f in b) && (forall f <- b :: f in a)
  }

  lemma {:induction false} InsertKeeps(f: (Str, FileEntry), files: Files, key: Key)
    requires InOrder(files, key) && forall g <- files :: key(g.0) != key(f.0)
    ensures InOrder(Insert(f, files, key), key) && SameEntries(Insert(f, files, key), [f] + files)
    decreases |files|
  {
    hide Less;
    if files == [] {
    } else if Less(key(f.0), key(files[0].0)) {
      forall i | 0 <= i < |files|
        ensures Less(key(f.0), key(files[i].0))
      {
        if i > 0 {
          LessTransitive(key(f.0), key(files[0].0), key(files[i].0));
        }
      }
    } else {
      LessTotal(key(f.0), key(files[0].0));
      var rest := Insert(f, files[1..], key);
      InsertKeeps(f, files[1..], key);
      forall j | 0 <= j < |rest|
        ensures Less(key(files[0].0), key(rest[j].0))
      {
        assert rest[j] in rest;
        assert rest[j] in [f] + files[1..];
      }
      assert files == [files[0]] + files[1..];
    }
  }

  lemma {:induction false} SortedByKeeps(files: Files, key: Key)
    requires DistinctKeys(files, key)
    ensures InOrder(SortedBy(files, key), key) && SameEntries(SortedBy(files, key), files)
    decreases |files|
  {
    hide Less, Insert;
    if files != [] {
      SortedByKeeps(files[1..], key);
      forall g | g in SortedBy(files[1..], key)
        ensures key(g.0) != key(files[0].0)
      {
        assert g in files[1..];
      }
      InsertKeeps(files[0], SortedBy(files[1..], key), key);
      assert files == [files[0]] + files[1..];
    }
  }

  lemma SortedKeeps(files: Files)
    requires DistinctNames(files)
    ensures StrictlySorted(Sorted(files)) && SameEntries(Sorted(files), files)
  {
    SortedByKeeps(files, ByUnits);
  }

  lemma SameFirst(a: Files, b: Files, key: Key)
    requires a != [] && b != [] && InOrder(a, key) && InOrder(b, key) && SameEntries(a, b)
    ensures a[0] == b[0]
  {
    hide Less;
    assert a[0] in b && b[0] in a;
    var j :| 0 <= j < |b| && b[j] == a[0];
    var i :| 0 <= i < |a| && a[i] == b[0];
    if i > 0 && j > 0 {
      LessTransitive(key(a[0].0), key(b[0].0), key(a[0].0));
    }
    LessStrict(key(a[0].0));
  }

  /** There is one list of given entries in a given order. */
  lemma {:induction false} OrderUnique(a: Files, b: Files, key: Key)
    requires InOrder(a, key) && InOrder(b, key) && SameEntries(a, b)
    ensures a == b
    decreases |a|
  {
    hide Less;
    if a != [] {
      assert a[0] in b;
      SameFirst(a, b, key);
      TailEntries(a, b, key);
      TailEntries(b, a, key);
      OrderUnique(a[1..], b[1..], key);
      assert a == [a[0]] + a[1..] && b == [b[0]] + b[1..];
    } else {
      SomeElement(b);
    }
  }

  /** There is one sorted list of given entries. */
  lemma SortedUnique(a: Files, b: Files)
    requires StrictlySorted(a) && StrictlySorted(b) && SameEntries(a, b)
    ensures a == b
  {
    OrderUnique(a, b, ByUnits);
  }

  lemma SomeElement(files: Files)
    ensures files != [] ==> exists f :: f in files
  {
    if files != [] {
      assert files[0] in files;
    }
  }

  lemma TailEntries(a: Files, b: Files, key: Key)
    requires a != [] && b != [] && a[0] == b[0] && InOrder(a, key) && SameEntries(a, b)
    ensures forall f <- a[1..] :: f in b[1..]
  {
    hide Less;
    forall f | f in a[1..]
      ensures f in b[1..]
    {
      var i :| 0 < i < |a| && a[i] == f;
      LessStrict(key(f.0));
      assert f != a[0];
      assert f in b;
      var k :| 0 <= k < |b| && b[k] == f;
      assert b[1..][k - 1] == f;
    }
  }

  lemma SameMapSameEntries(a: Files, b: Files)
    requires DistinctNames(a) && DistinctNames(b)
    ensures AsMap(a) == AsMap(b) <==> SameEntries(a, b)
  {
    assert forall f <- a :: f.0 in AsMap(a) && AsMap(a)[f.0] == f.1;
    assert forall f <- b :: f.0 in AsMap(b) && AsMap(b)[f.0] == f.1;
    if AsMap(a) == AsMap(b) {
      assert forall f <- a :: f in b by {
        forall f | f in a
          ensures f in b
        {
          assert f.0 in AsMap(b);
          var g :| g in b && g.0 == f.0;
        }
      }
      forall f | f in b
        ensures f in a
      {
        assert f.0 in AsMap(a);
        var g :| g in a && g.0 == f.0;
      }
    }
  }

  /**
   * The canonical text determines the version and the file map, and nothing else: two manifests have
   * the same text exactly when version and map agree, whatever the insertion orders.
   */
  lemma CanonicalIffSame(v: Str, files: Files, w: Str, others: Files)
    requires DistinctNames(files) && DistinctNames(others)
    ensures CanonicalManifest(v, files) == CanonicalManifest(w, others) <==> v == w && AsMap(files) == AsMap(others)
  {
    ManifestBack(v, files);
    ManifestBack(w, others);
    SortedKeeps(files);
    SortedKeeps(others);
    SameMapSameEntries(files, others);
    hide ReadManifest, Less, Insert, AsMap, DistinctNames;
    if v == w && SameEntries(files, others) {
      SortedUnique(Sorted(files), Sorted(others));
    }
    hide CanonicalManifest;
  }

  // ----- the text survives the step to UTF-8 -----

  /** Every surrogate is half of a pair: such text has a UTF-8 form of its own. */
  predicate WellFormed(t: Str) {
    t == [] || (StartsWithPair(t) && WellFormed(t[2..])) || (!IsHigh(t[0]) && !IsLow(t[0]) && WellFormed(t[1..]))
  }

  lemma {:induction false} WellFormedConcat(a: Str, b: Str)
    requires WellFormed(a) && WellFormed(b)
    ensures WellFormed(a + b)
    decreases |a|
  {
    if a == [] {
      assert a + b == b;
    } else if StartsWithPair(a) {
      WellFormedConcat(a[2..], b);
      assert (a + b)[2..] == a[2..] + b;
    } else {
      WellFormedConcat(a[1..], b);
      assert (a + b)[1..] == a[1..] + b;
    }
  }

  lemma {:induction false} NoSurrogates(t: Str)
    requires forall u <- t :: !IsHigh(u) && !IsLow(u)
    ensures WellFormed(t)
    decreases |t|
  {
    if t != [] {
      NoSurrogates(t[1..]);
    }
  }

  lemma {:induction false} EscapeWellFormed(s: Str)
    ensures WellFormed(Escape(s))
    decreases |s|
  {
    if StartsWithPair(s) {
      hide EscapeUnit;
      EscapeWellFormed(s[2..]);
      assert s[..2][2..] == [];
      WellFormedConcat(s[..2], Escape(s[2..]));
    } else if s != [] {
      EscapeWellFormed(s[1..]);
      NoSurrogates(EscapeUnit(s[0]));
      WellFormedConcat(EscapeUnit(s[0]), Escape(s[1..]));
    }
  }

  lemma StringWellFormed(s: Str)
    ensures WellFormed(GoJsonString(s))
  {
    hide GoJsonString, Escape;
    ChainIsEscape(s);
    EscapeWellFormed(s);
    NoSurrogates([QUOTE]);
    WellFormedConcat([QUOTE], Escape(s));
    WellFormedConcat([QUOTE] + Escape(s), [QUOTE]);
  }

  lemma AsciiWellFormed(s: string)
    ensures WellFormed(Ascii(s))
  {
    NoSurrogates(Ascii(s));
  }

  lemma EntryWellFormed(f: (Str, FileEntry))
    ensures WellFormed(EntryText(f))
  {
    hide GoJsonString, Ascii, Decimal, WellFormed;
    var a, b, c := Ascii(":{\"sha256\":"), Ascii(",\"size\":"), Ascii("}");
    AsciiWellFormed(":{\"sha256\":");
    AsciiWellFormed(",\"size\":");
    AsciiWellFormed("}");
    StringWellFormed(f.0);
    StringWellFormed(f.1.sha256);
    NoSurrogates(Decimal(f.1.size));
    WellFormedConcat(GoJsonString(f.0), a);
    WellFormedConcat(GoJsonString(f.0) + a, GoJsonString(f.1.sha256));
    WellFormedConcat(GoJsonString(f.0) + a + GoJsonString(f.1.sha256), b);
    WellFormedConcat(GoJsonString(f.0) + a + GoJsonString(f.1.sha256) + b, Decimal(f.1.size));
    WellFormedConcat(GoJsonString(f.0) + a + GoJsonString(f.1.sha256) + b + Decimal(f.1.size), c);
  }

  lemma {:induction false} JoinedWellFormed(files: Files)
    ensures WellFormed(Joined(files))
    decreases |files|
  {
    hide EntryText, Ascii;
    if files != [] {
      EntryWellFormed(files[0]);
      if |files| > 1 {
        AsciiWellFormed(",");
        JoinedWellFormed(files[1..]);
        WellFormedConcat(EntryText(files[0]), Ascii(","));
        WellFormedConcat(EntryText(files[0]) + Ascii(","), Joined(files[1..]));
      }
    }
  }

  /** Whatever strings go in, the text that is encoded and signed has no lone surrogate. */
  lemma CanonicalWellFormed(version: Str, files: Files)
    ensures WellFormed(CanonicalManifest(version, files))
  {
    hide GoJsonString, Ascii, Joined, Sorted, WellFormed;
    var a, b, c := Ascii("{\"version\":"), Ascii(",\"files\":{"), Ascii("},\"signature\":\"\"}");
    AsciiWellFormed("{\"version\":");
    AsciiWellFormed(",\"files\":{");
    AsciiWellFormed("},\"signature\":\"\"}");
    StringWellFormed(version);
    JoinedWellFormed(Sorted(files));
    WellFormedConcat(a, GoJsonString(version));
    WellFormedConcat(a + GoJsonString(version), b);
    WellFormedConcat(a + GoJsonString(version) + b, Joined(Sorted(files)));
    WellFormedConcat(a + GoJsonString(version) + b + Joined(Sorted(files)), c);
  }
}
