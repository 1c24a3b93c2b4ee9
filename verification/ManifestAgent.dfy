/**
 The other side of the release signature (`agent/internal/update/update.go`): the agent parses the manifest and
 prints it again with Go's `json.Marshal`, and the signature is over that text. Go sees names as UTF-8: a lone
 surrogate is read as U+FFFD, and map keys are printed in the order of their bytes.
 */
module ManifestAgent {
  import opened Decimals
  import opened Manifest
  import opened Options
  import opened Units

  // ----- strings in Go -----

  /** The first character of `s` as Go has it, and how many units it takes. */
  function Rune(s: Str): (r: (nat, nat))
    requires s != []
    ensures r.0 < 0x11_0000 && 1 <= r.1 <= |s|
  {
    if StartsWithPair(s) then
      var high: int, low: int := s[0], s[1];
      (0x1_0000 + (high - 0xD800) * 0x400 + (low - 0xDC00), 2)
    else if IsHigh(s[0]) || IsLow(s[0]) then (0xFFFD, 1)
    else (s[0], 1)
  }

  function EncodeRune(c: nat): (b: Str)
    requires c < 0x11_0000
    ensures b != [] && forall u <- b :: u < 0x100
  {
    if c < 0x80 then [c]
    else if c < 0x800 then [0xC0 + c / 0x40, 0x80 + c % 0x40]
    else if c < 0x1_0000 then [0xE0 + c / 0x1000, 0x80 + c / 0x40 % 0x40, 0x80 + c % 0x40]
    else [0xF0 + c / 0x4_0000, 0x80 + c / 0x1000 % 0x40, 0x80 + c / 0x40 % 0x40, 0x80 + c % 0x40]
  }

  /** The bytes of a string; `Less` on them is Go's order of strings. */
  function Utf8(s: Str): Str {
    if s == [] then [] else EncodeRune(Rune(s).0) + Utf8(s[Rune(s).1..])
  }

  /** What is left of a string after parsing. */
  function Fixed(s: Str): Str {
    if s == [] then []
    else if StartsWithPair(s) then s[..2] + Fixed(s[2..])
    else [if IsHigh(s[0]) || IsLow(s[0]) then 0xFFFD else s[0]] + Fixed(s[1..])
  }

  /** One unit as `json.Marshal` prints it, HTML escapes included. */
  function PrintUnit(u: unit): Str {
    if u == QUOTE || u == BACKSLASH then [BACKSLASH, u]
    else if u == 0x08 then [BACKSLASH, 0x62]
    else if u == 0x0C then [BACKSLASH, 0x66]
    else if u == 0x0A then [BACKSLASH, 0x6E]
    else if u == 0x0D then [BACKSLASH, 0x72]
    else if u == 0x09 then [BACKSLASH, 0x74]
    else if u < 0x20 || u in {0x3C, 0x3E, 0x26} || u == 0x2028 || u == 0x2029 then UnicodeEscape(u)
    else [u]
  }

  function PrintBody(s: Str): Str {
    if s == [] then [] else PrintUnit(s[0]) + PrintBody(s[1..])
  }

  function PrintString(s: Str): Str {
    [QUOTE] + PrintBody(s) + [QUOTE]
  }

  // ----- the manifest in Go -----

  function SeenEntry(f: (Str, FileEntry)): (Str, FileEntry) {
    (Fixed(f.0), FileEntry(Fixed(f.1.sha256), f.1.size))
  }

  function Without(files: Files, name: Str): Files {
    if files == [] then []
    else (if files[0].0 == name then [] else [files[0]]) + Without(files[1..], name)
  }

  /** The parsed map: of two entries with one name the later stays. */
  function Seen(files: Files): Files {
    if files == [] then []
    else
      var f := SeenEntry(files[|files| - 1]);
      Without(Seen(files[..|files| - 1]), f.0) + [f]
  }

  function PrintEntry(f: (Str, FileEntry)): Str {
    PrintString(f.0) + Ascii(":{\"sha256\":") + PrintString(f.1.sha256) + Ascii(",\"size\":")
    + Decimal(f.1.size) + Ascii("}")
  }

  function PrintEntries(files: Files): Str {
    if files == [] then []
    else if |files| == 1 then PrintEntry(files[0])
    else PrintEntry(files[0]) + Ascii(",") + PrintEntries(files[1..])
  }

  const INT64_LIMIT := 0x8000_0000_0000_0000

  predicate SizesFit(files: Files) {
    forall f <- files :: f.1.size < INT64_LIMIT
  }

  /** The text the agent verifies the signature over; a size that is no `int64` is a malformed manifest. */
  function AgentText(version: Str, files: Files): Option<Str> {
    if !SizesFit(files) then None
    else Some(Ascii("{\"version\":") + PrintString(Fixed(version)) + Ascii(",\"files\":{")
      + PrintEntries(SortedBy(Seen(files), Utf8)) + Ascii("},\"signature\":\"\"}"))
  }

  // ----- UTF-8 -----

  predicate IsTail(c: int) { 0x80 <= c < 0xC0 }

  /** The character of one sequence of bytes by section 4 of RFC 3629, surrogates left to the caller. */
  function DecodeRune(b: seq<int>): Option<int> {
    if |b| == 1 && 0 <= b[0] < 0x80 then Some(b[0])
    else if |b| == 2 && 0xC2 <= b[0] < 0xE0 && IsTail(b[1]) then Some((b[0] - 0xC0) * 0x40 + b[1] - 0x80)
    else if |b| == 3 && 0xE0 <= b[0] < 0xF0 && (b[0] == 0xE0 ==> b[1] >= 0xA0) && IsTail(b[1]) && IsTail(b[2]) then
      Some((b[0] - 0xE0) * 0x1000 + (b[1] - 0x80) * 0x40 + b[2] - 0x80)
    else if |b| == 4 && 0xF0 <= b[0] < 0xF5 && (b[0] == 0xF0 ==> b[1] >= 0x90) && (b[0] == 0xF4 ==> b[1] < 0x90)
            && IsTail(b[1]) && IsTail(b[2]) && IsTail(b[3]) then
      Some((b[0] - 0xF0) * 0x4_0000 + (b[1] - 0x80) * 0x1000 + (b[2] - 0x80) * 0x40 + b[3] - 0x80)
    else None
  }

  lemma Groups(c: nat)
    ensures c == c / 0x40 * 0x40 + c % 0x40
    ensures c == c / 0x1000 * 0x1000 + c / 0x40 % 0x40 * 0x40 + c % 0x40
    ensures c == c / 0x4_0000 * 0x4_0000 + c / 0x1000 % 0x40 * 0x1000 + c / 0x40 % 0x40 * 0x40 + c % 0x40
  {
    assert c / 0x40 / 0x40 == c / 0x1000 && c / 0x1000 / 0x40 == c / 0x4_0000;
  }

  /** Every character is encoded as the standard has it. */
  lemma RuneDecodes(c: nat)
    requires c < 0x11_0000
    ensures DecodeRune(EncodeRune(c)) == Some(c)
  {
    Groups(c);
  }

  /** A pair of surrogates is the character it encodes, any other surrogate the replacement character. */
  lemma RuneIs(s: Str)
    requires s != []
    ensures var (c, n) := Rune(s);
      if |s| >= 2 && 0xD800 <= s[0] < 0xDC00 && 0xDC00 <= s[1] < 0xE000 then
        && n == 2 && 0x1_0000 <= c < 0x11_0000
        && s[0] == 0xD800 + (c - 0x1_0000) / 0x400 && s[1] == 0xDC00 + (c - 0x1_0000) % 0x400
      else
        n == 1 && c == if 0xD800 <= s[0] < 0xE000 then 0xFFFD else s[0]
  {
  }

  // ----- parsed strings -----

  lemma {:induction false} FixedWellFormed(s: Str)
    ensures WellFormed(Fixed(s)) && (Fixed(s) == s <==> WellFormed(s))
    decreases |s|
  {
    if s != [] {
      if StartsWithPair(s) {
        FixedWellFormed(s[2..]);
        assert Fixed(s)[2..] == Fixed(s[2..]) && s == s[..2] + s[2..];
      } else {
        FixedWellFormed(s[1..]);
        assert Fixed(s)[1..] == Fixed(s[1..]) && s == [s[0]] + s[1..];
      }
    }
  }

  /** Both printers escape the same characters in the same way. */
  lemma {:induction false} PrintersAgree(s: Str)
    requires WellFormed(s)
    ensures PrintBody(s) == Escape(s)
    decreases |s|
  {
    if StartsWithPair(s) {
      PrintersAgree(s[2..]);
      assert s[1..][0] == s[1] && s[1..][1..] == s[2..];
      SurrogatePrints(s[0]);
      SurrogatePrints(s[1]);
      assert PrintBody(s) == [s[0]] + ([s[1]] + PrintBody(s[2..]));
    } else if s != [] {
      PrintersAgree(s[1..]);
      UnitsAgree(s[0]);
    }
  }

  lemma SurrogatePrints(u: unit)
    requires IsHigh(u) || IsLow(u)
    ensures PrintUnit(u) == [u]
  {
  }

  lemma UnitsAgree(u: unit)
    requires !IsHigh(u) && !IsLow(u)
    ensures PrintUnit(u) == EscapeUnit(u)
  {
    hide UnicodeEscape;
  }

  lemma StringsAgree(s: Str)
    requires WellFormed(s)
    ensures PrintString(s) == GoJsonString(s)
  {
    hide GoJsonString, Escape, PrintBody;
    ChainIsEscape(s);
    PrintersAgree(s);
  }

  predicate CleanEntry(f: (Str, FileEntry)) {
    WellFormed(f.0) && WellFormed(f.1.sha256)
  }

  lemma {:induction false} EntriesAgree(files: Files)
    requires forall f <- files :: CleanEntry(f)
    ensures PrintEntries(files) == Joined(files)
    decreases |files|
  {
    hide GoJsonString, PrintString, WellFormed, Ascii;
    if files != [] {
      assert files[0] in files;
      StringsAgree(files[0].0);
      StringsAgree(files[0].1.sha256);
      assert PrintEntry(files[0]) == EntryText(files[0]);
      assert forall f <- files[1..] :: f in files;
      EntriesAgree(files[1..]);
    }
  }

  // ----- bytes tell strings apart -----

  /** The first byte tells how many there are. */
  lemma LeadByte(c: nat)
    requires c < 0x11_0000
    ensures var b := EncodeRune(c);
      && (b[0] < 0x80 <==> c < 0x80) && (0xC0 <= b[0] < 0xE0 <==> 0x80 <= c < 0x800)
      && (0xE0 <= b[0] < 0xF0 <==> 0x800 <= c < 0x1_0000) && (0xF0 <= b[0] <==> 0x1_0000 <= c)
      && |b| == if c < 0x80 then 1 else if c < 0x800 then 2 else if c < 0x1_0000 then 3 else 4
  {
  }

  lemma SameBytesSameRune(c: nat, d: nat)
    requires c < 0x11_0000 && d < 0x11_0000 && EncodeRune(c) == EncodeRune(d)
    ensures c == d
  {
    LeadByte(c);
    LeadByte(d);
    var a, b := EncodeRune(c), EncodeRune(d);
    assert a[0] == b[0];
    assert |a| > 1 ==> a[1] == b[1];
    assert |a| > 2 ==> a[2] == b[2];
    assert |a| > 3 ==> a[3] == b[3];
    assert c / 0x40 / 0x40 == c / 0x1000 && d / 0x40 / 0x40 == d / 0x1000;
    assert c / 0x1000 / 0x40 == c / 0x4_0000 && d / 0x1000 / 0x40 == d / 0x4_0000;
  }

  lemma EncodedFirst(c: nat, d: nat, x: Str, y: Str)
    requires c < 0x11_0000 && d < 0x11_0000 && EncodeRune(c) + x == EncodeRune(d) + y
    ensures c == d && x == y
  {
    LeadByte(c);
    LeadByte(d);
    hide EncodeRune;
    var a, b := EncodeRune(c), EncodeRune(d);
    assert a[0] == (a + x)[0] == (b + y)[0] == b[0];
    assert |a| == |b|;
    assert a == (a + x)[..|a|] == (b + y)[..|b|] == b;
    assert x == (a + x)[|a|..] == (b + y)[|b|..] == y;
    SameBytesSameRune(c, d);
  }

  lemma SameRuneSameUnits(a: Str, b: Str)
    requires a != [] && b != [] && WellFormed(a) && WellFormed(b) && Rune(a).0 == Rune(b).0
    ensures Rune(a).1 == Rune(b).1 && a[..Rune(a).1] == b[..Rune(b).1]
  {
  }

  lemma RestWellFormed(a: Str)
    requires a != [] && WellFormed(a)
    ensures WellFormed(a[Rune(a).1..])
  {
  }

  /** Well-formed strings with the same bytes are the same. */
  lemma {:induction false} Utf8Injective(a: Str, b: Str)
    requires WellFormed(a) && WellFormed(b) && Utf8(a) == Utf8(b)
    ensures a == b
    decreases |a|
  {
    hide WellFormed, Rune, EncodeRune;
    if a != [] && b != [] {
      var m, n := Rune(a).1, Rune(b).1;
      EncodedFirst(Rune(a).0, Rune(b).0, Utf8(a[m..]), Utf8(b[n..]));
      SameRuneSameUnits(a, b);
      RestWellFormed(a);
      RestWellFormed(b);
      Utf8Injective(a[m..], b[n..]);
      assert a == a[..m] + a[m..] && b == b[..n] + b[n..];
    }
  }

  // ----- the parsed map -----

  lemma {:induction false} WithoutOnly(files: Files, name: Str)
    ensures forall f <- Without(files, name) :: f in files && f.0 != name
    decreases |files|
  {
    if files != [] {
      WithoutOnly(files[1..], name);
      assert forall f <- files[1..] :: f in files;
    }
  }

  lemma {:induction false} WithoutAbsent(files: Files, name: Str)
    requires forall f <- files :: f.0 != name
    ensures Without(files, name) == files
    decreases |files|
  {
    if files != [] {
      assert files[0] in files && forall f <- files[1..] :: f in files;
      WithoutAbsent(files[1..], name);
    }
  }

  lemma DistinctHead(f: (Str, FileEntry), rest: Files)
    ensures DistinctNames([f] + rest) <==> DistinctNames(rest) && forall g <- rest :: g.0 != f.0
  {
    var all := [f] + rest;
    assert forall i | 0 <= i < |rest| :: all[i + 1] == rest[i] && rest[i] in rest;
    if DistinctNames(all) {
      forall i, j | 0 <= i < j < |rest|
        ensures rest[i].0 != rest[j].0
      {
        assert all[i + 1].0 != all[j + 1].0;
      }
      forall g | g in rest
        ensures g.0 != f.0
      {
        var j :| 0 <= j < |rest| && rest[j] == g;
        assert all[0] == f && all[j + 1] == g;
      }
    }
  }

  lemma DistinctLast(front: Files, f: (Str, FileEntry))
    ensures DistinctNames(front + [f]) <==> DistinctNames(front) && forall g <- front :: g.0 != f.0
  {
    var all := front + [f];
    assert forall i | 0 <= i < |front| :: all[i] == front[i] && front[i] in front;
    assert all[|front|] == f;
  }

  lemma {:induction false} WithoutDistinct(files: Files, name: Str)
    requires DistinctNames(files)
    ensures DistinctNames(Without(files, name))
    decreases |files|
  {
    hide DistinctNames;
    if files == [] {
      NoNames();
    } else {
      var f, rest := files[0], files[1..];
      assert files == [f] + rest;
      DistinctHead(f, rest);
      WithoutDistinct(rest, name);
      WithoutOnly(rest, name);
      DistinctHead(f, Without(rest, name));
      assert [] + Without(rest, name) == Without(rest, name);
    }
  }

  lemma NoNames()
    ensures DistinctNames([])
  {
  }

  /** Parsed entries are well-formed, and no two have one name. */
  lemma {:induction false} SeenIsClean(files: Files)
    ensures DistinctNames(Seen(files)) && forall f <- Seen(files) :: CleanEntry(f)
    decreases |files|
  {
    hide Fixed, WellFormed, DistinctNames, Without;
    if files == [] {
      NoNames();
    } else {
      var front, last := files[..|files| - 1], files[|files| - 1];
      var f := SeenEntry(last);
      SeenIsClean(front);
      WithoutDistinct(Seen(front), f.0);
      WithoutOnly(Seen(front), f.0);
      DistinctLast(Without(Seen(front), f.0), f);
      FixedWellFormed(last.0);
      FixedWellFormed(last.1.sha256);
    }
  }

  lemma {:induction false} SeenSame(files: Files)
    requires DistinctNames(files) && forall f <- files :: CleanEntry(f)
    ensures Seen(files) == files
    decreases |files|
  {
    hide Fixed, WellFormed, DistinctNames, Without;
    if files != [] {
      var front, last := files[..|files| - 1], files[|files| - 1];
      assert files == front + [last];
      assert last in files && forall f <- front :: f in files;
      DistinctLast(front, last);
      SeenSame(front);
      FixedWellFormed(last.0);
      FixedWellFormed(last.1.sha256);
      assert SeenEntry(last) == last;
      WithoutAbsent(front, last.0);
    }
  }

  lemma CleanKeys(files: Files)
    requires DistinctNames(files) && forall f <- files :: CleanEntry(f)
    ensures DistinctKeys(files, Utf8)
  {
    hide WellFormed, Utf8;
    forall i, j | 0 <= i < j < |files|
      ensures Utf8(files[i].0) != Utf8(files[j].0)
    {
      assert files[i] in files && files[j] in files;
      if Utf8(files[i].0) == Utf8(files[j].0) {
        Utf8Injective(files[i].0, files[j].0);
      }
    }
  }

  // ----- when the two texts are one -----

  lemma AgentTextIs(version: Str, files: Files)
    requires SizesFit(files)
    ensures AgentText(version, files) == Some(ManifestText(Fixed(version), SortedBy(Seen(files), Utf8)))
  {
    hide PrintString, GoJsonString, PrintEntries, Joined, Ascii, WellFormed, CleanEntry;
    var order := SortedBy(Seen(files), Utf8);
    SeenIsClean(files);
    CleanKeys(Seen(files));
    SortedByKeeps(Seen(files), Utf8);
    EntriesAgree(order);
    FixedWellFormed(version);
    StringsAgree(Fixed(version));
  }

  /**
   * The agent rebuilds exactly the text the console signed if and only if every string of the manifest is
   * well-formed, every size is an `int64`, and the names in unit order are also in byte order.
   */
  lemma AgentRebuildsIff(version: Str, files: Files)
    requires DistinctNames(files)
    ensures AgentText(version, files) == Some(CanonicalManifest(version, files)) <==>
      && WellFormed(version) && (forall f <- files :: CleanEntry(f))
      && (forall f <- files :: f.1.size < 0x8000_0000_0000_0000) && InOrder(Sorted(files), Utf8)
  {
    hide AgentText, ManifestText, ReadManifest, WellFormed, CleanEntry, InOrder, Utf8, DistinctNames, SortedBy;
    if SizesFit(files) {
      var order := SortedBy(Seen(files), Utf8);
      AgentTextIs(version, files);
      TextBack(Fixed(version), order);
      TextBack(version, Sorted(files));
      SortedKeeps(files);
      SeenIsClean(files);
      CleanKeys(Seen(files));
      SortedByKeeps(Seen(files), Utf8);
      FixedWellFormed(version);
      if WellFormed(version) && (forall f <- files :: CleanEntry(f)) && InOrder(Sorted(files), Utf8) {
        SeenSame(files);
        OrderUnique(order, Sorted(files), Utf8);
      }
    } else {
      assert AgentText(version, files) == None by {
        NoText(version, files);
      }
    }
  }

  lemma NoText(version: Str, files: Files)
    requires !SizesFit(files)
    ensures AgentText(version, files) == None
  {
  }

  // ----- the two orders -----

  lemma AsciiFirst(s: Str)
    requires s != [] && s[0] < 0x80
    ensures Rune(s) == (s[0], 1) && EncodeRune(s[0]) == [s[0]]
    ensures WellFormed(s) <==> WellFormed(s[1..])
  {
  }

  lemma {:induction false} AsciiIsItsBytes(s: Str)
    requires forall u <- s :: u < 0x80
    ensures Utf8(s) == s && WellFormed(s)
    decreases |s|
  {
    hide Rune, EncodeRune;
    if s != [] {
      assert s[0] in s && forall u <- s[1..] :: u in s;
      AsciiFirst(s);
      AsciiIsItsBytes(s[1..]);
      assert s == [s[0]] + s[1..];
    }
  }

  predicate AllAscii(s: Str) {
    forall u <- s :: u < 0x80
  }

  predicate AsciiEntry(f: (Str, FileEntry)) {
    AllAscii(f.0) && AllAscii(f.1.sha256)
  }

  /** With names and digests in ASCII, the agent rebuilds the signed text exactly when the version is well-formed. */
  lemma AsciiFilesIff(version: Str, files: Files)
    requires DistinctNames(files) && SizesFit(files) && forall f <- files :: AsciiEntry(f)
    ensures AgentText(version, files) == Some(CanonicalManifest(version, files)) <==> WellFormed(version)
  {
    hide AgentText, CanonicalManifest, Utf8, Less, WellFormed, DistinctNames, Sorted;
    AgentRebuildsIff(version, files);
    SortedKeeps(files);
    forall f | f in files
      ensures CleanEntry(f)
    {
      AsciiIsItsBytes(f.0);
      AsciiIsItsBytes(f.1.sha256);
    }
    var fs := Sorted(files);
    forall i, j | 0 <= i < j < |fs|
      ensures Less(Utf8(fs[i].0), Utf8(fs[j].0))
    {
      assert fs[i] in fs && fs[j] in fs;
      AsciiIsItsBytes(fs[i].0);
      AsciiIsItsBytes(fs[j].0);
    }
  }

  /** A manifest all in ASCII is rebuilt exactly. */
  lemma AsciiNamesAgree(version: Str, files: Files)
    requires DistinctNames(files) && (forall u <- version :: u < 0x80) && SizesFit(files)
    requires forall f <- files :: (forall u <- f.0 :: u < 0x80) && forall u <- f.1.sha256 :: u < 0x80
    ensures AgentText(version, files) == Some(CanonicalManifest(version, files))
  {
    hide AgentText, CanonicalManifest, WellFormed, DistinctNames;
    AsciiIsItsBytes(version);
    AsciiFilesIff(version, files);
  }

  // ----- what the console signs -----

  predicate IsNameUnit(u: unit) {
    0x61 <= u <= 0x7A || 0x30 <= u <= 0x39 || u == 0x2E || u == 0x2D
  }

  const NAME_PREFIX := "f0-deception-agent-"

  /** The file names that are signed: the prefix, then small letters, digits, dots and dashes. */
  predicate IsReleaseName(name: Str) {
    |name| > |NAME_PREFIX| && name[..|NAME_PREFIX|] == Ascii(NAME_PREFIX)
    && forall i :: |NAME_PREFIX| <= i < |name| ==> IsNameUnit(name[i])
  }

  predicate IsHexDigest(s: Str) {
    |s| == 64 && forall u <- s :: 0x30 <= u <= 0x39 || 0x61 <= u <= 0x66
  }

  predicate IsReleaseEntry(f: (Str, FileEntry)) {
    IsReleaseName(f.0) && IsHexDigest(f.1.sha256) && f.1.size < 0x8000_0000_0000_0000
  }

  lemma ReleaseNameAscii(name: Str)
    requires IsReleaseName(name)
    ensures AllAscii(name)
  {
    hide Ascii;
    var n := |NAME_PREFIX|;
    AsciiBelow(NAME_PREFIX);
    forall u | u in name
      ensures u < 0x80
    {
      var i :| 0 <= i < |name| && name[i] == u;
      assert i < n ==> name[..n][i] == u;
    }
  }

  lemma AsciiBelow(s: string)
    ensures forall i :: 0 <= i < |s| ==> Ascii(s)[i] < 0x80
  {
  }

  /**
   * For every release the console can sign, the agent rebuilds the signed text if and only if the version an
   * operator gave is well-formed.
   */
  lemma ReleaseAcceptedIff(version: Str, files: Files)
    requires DistinctNames(files) && forall f <- files :: IsReleaseEntry(f)
    ensures AgentText(version, files) == Some(CanonicalManifest(version, files)) <==> WellFormed(version)
  {
    hide AgentText, CanonicalManifest, WellFormed, DistinctNames, IsReleaseName;
    forall f | f in files
      ensures AsciiEntry(f)
    {
      ReleaseNameAscii(f.0);
    }
    AsciiFilesIff(version, files);
  }

  /** A version of one lone surrogate is taken and signed, and the agent does not get the signed text. */
  lemma VersionRefused(files: Files)
    requires DistinctNames(files) && forall f <- files :: IsReleaseEntry(f)
    ensures AgentText([0xD800], files) != Some(CanonicalManifest([0xD800], files))
  {
    hide AgentText, CanonicalManifest, DistinctNames, IsReleaseEntry;
    ReleaseAcceptedIff([0xD800], files);
    assert !WellFormed([0xD800]);
  }
}
