/**
 The escape that puts a tracking URL into an XML attribute (`escapeXml` of `document-tokens.ts`, and the same
 function as `escapeHtml` in `artifacts.ts`), and a reader of attribute values (sections 2.2, 2.11, 3.3.3 and
 4.6 of XML 1.0). Text is UTF-16; a lone surrogate is no character and has no encoding of its own.
 */
module Xml {
  import opened Options
  import opened Units

  const AMP: unit := 0x26
  const LT: unit := 0x3C
  const GT: unit := 0x3E
  const QUOT: unit := 0x22
  const SPACE: unit := 0x20

  /** The chain of replacements of the source. */
  function EscapeXml(s: Str): Str {
    var s1 := Replace(s, AMP, Ascii("&amp;"));
    var s2 := Replace(s1, LT, Ascii("&lt;"));
    var s3 := Replace(s2, GT, Ascii("&gt;"));
    Replace(s3, QUOT, Ascii("&quot;"))
  }

  function EscUnit(u: unit): (r: Str)
    ensures r != []
  {
    if u == AMP then Ascii("&amp;")
    else if u == LT then Ascii("&lt;")
    else if u == GT then Ascii("&gt;")
    else if u == QUOT then Ascii("&quot;")
    else [u]
  }

  lemma EntitiesAreClean()
    ensures LT !in Ascii("&amp;") && GT !in Ascii("&amp;") && QUOT !in Ascii("&amp;")
    ensures GT !in Ascii("&lt;") && QUOT !in Ascii("&lt;") && QUOT !in Ascii("&gt;")
  {
  }

  lemma EscOfUnit(u: unit)
    ensures EscapeXml([u]) == EscUnit(u)
  {
    hide Replace, Ascii;
    EntitiesAreClean();
    ReplaceOne(u, AMP, Ascii("&amp;"));
    ReplaceOne(u, LT, Ascii("&lt;"));
    ReplaceOne(u, GT, Ascii("&gt;"));
    ReplaceOne(u, QUOT, Ascii("&quot;"));
    ReplaceAbsent(Ascii("&amp;"), LT, Ascii("&lt;"));
    ReplaceAbsent(Ascii("&amp;"), GT, Ascii("&gt;"));
    ReplaceAbsent(Ascii("&amp;"), QUOT, Ascii("&quot;"));
    ReplaceAbsent(Ascii("&lt;"), GT, Ascii("&gt;"));
    ReplaceAbsent(Ascii("&lt;"), QUOT, Ascii("&quot;"));
    ReplaceAbsent(Ascii("&gt;"), QUOT, Ascii("&quot;"));
  }

  lemma EscConcat(a: Str, b: Str)
    ensures EscapeXml(a + b) == EscapeXml(a) + EscapeXml(b)
  {
    hide Replace, Ascii;
    var a1, b1 := Replace(a, AMP, Ascii("&amp;")), Replace(b, AMP, Ascii("&amp;"));
    var a2, b2 := Replace(a1, LT, Ascii("&lt;")), Replace(b1, LT, Ascii("&lt;"));
    var a3, b3 := Replace(a2, GT, Ascii("&gt;")), Replace(b2, GT, Ascii("&gt;"));
    ReplaceConcat(a, b, AMP, Ascii("&amp;"));
    ReplaceConcat(a1, b1, LT, Ascii("&lt;"));
    ReplaceConcat(a2, b2, GT, Ascii("&gt;"));
    ReplaceConcat(a3, b3, QUOT, Ascii("&quot;"));
  }

  /** The chain escapes unit by unit: no later replacement touches what an earlier one wrote. */
  lemma EscFirst(s: Str)
    requires s != []
    ensures EscapeXml(s) == EscUnit(s[0]) + EscapeXml(s[1..])
  {
    hide EscapeXml;
    EscOfUnit(s[0]);
    EscConcat([s[0]], s[1..]);
    assert s == [s[0]] + s[1..];
  }

  // ----- the reader -----

  predicate Starts(s: Str, p: Str) {
    |p| <= |s| && s[..|p|] == p
  }

  /** A predefined entity at the front of `s`: the unit it stands for, and its length. */
  function Entity(s: Str): Option<(unit, nat)> {
    if Starts(s, Ascii("&amp;")) then Some((0x26, 5))
    else if Starts(s, Ascii("&lt;")) then Some((0x3C, 4))
    else if Starts(s, Ascii("&gt;")) then Some((0x3E, 4))
    else if Starts(s, Ascii("&quot;")) then Some((0x22, 6))
    else if Starts(s, Ascii("&apos;")) then Some((0x27, 6))
    else None
  }

  /** Tab, line feed and carriage return: an attribute value has a space in their place. */
  predicate IsBreak(u: unit) {
    u == 0x9 || u == 0xA || u == 0xD
  }

  /** Carriage return and line feed together are one line end. */
  function BreakLength(s: Str): (n: nat)
    requires s != []
    ensures 1 <= n <= |s|
  {
    if s[0] == 0xD && |s| > 1 && s[1] == 0xA then 2 else 1
  }

  /** A unit that is a character of XML by itself. */
  predicate IsChar(u: unit) {
    IsBreak(u) || 0x20 <= u < 0xD800 || 0xE000 <= u <= 0xFFFD
  }

  /** All of it characters of XML: no control characters, U+FFFE or U+FFFF, and every surrogate half of a pair. */
  predicate XmlText(s: Str) {
    if s == [] then true
    else if IsHigh(s[0]) then |s| > 1 && IsLow(s[1]) && XmlText(s[2..])
    else IsChar(s[0]) && XmlText(s[1..])
  }

  function Then(u: unit, r: Option<(Str, Str)>): Option<(Str, Str)> {
    if r.None? then None else Some(([u] + r.value.0, r.value.1))
  }

  /** An attribute value up to its closing quote, and what follows it; nothing else than characters is read. */
  function ReadAttribute(s: Str): Option<(Str, Str)>
    decreases |s|
  {
    if s == [] || s[0] == 0x3C then None
    else if s[0] == 0x22 then Some(([], s[1..]))
    else if s[0] == 0x26 then
      match Entity(s)
      case None => None
      case Some((u, n)) => if n <= |s| then Then(u, ReadAttribute(s[n..])) else None
    else if IsBreak(s[0]) then Then(0x20, ReadAttribute(s[BreakLength(s)..]))
    else if IsHigh(s[0]) then
      if |s| > 1 && IsLow(s[1]) then Then(s[0], Then(s[1], ReadAttribute(s[2..]))) else None
    else if IsChar(s[0]) then Then(s[0], ReadAttribute(s[1..]))
    else None
  }

  /** The value a reader sees in place of `s`. */
  function Normalized(s: Str): Str
    decreases |s|
  {
    if s == [] then []
    else if IsBreak(s[0]) then [SPACE] + Normalized(s[BreakLength(s)..])
    else [s[0]] + Normalized(s[1..])
  }

  lemma EntityBack(u: unit, rest: Str)
    requires u in {AMP, LT, GT, QUOT}
    ensures EscUnit(u)[0] == AMP && Entity(EscUnit(u) + rest) == Some((u, |EscUnit(u)|))
  {
    var s := EscUnit(u) + rest;
    assert s[..|EscUnit(u)|] == EscUnit(u);
    assert s[1] == EscUnit(u)[1];
    SecondUnit(s, Ascii("&amp;"));
    SecondUnit(s, Ascii("&lt;"));
    SecondUnit(s, Ascii("&gt;"));
  }

  lemma SecondUnit(s: Str, p: Str)
    requires |p| > 1
    ensures Starts(s, p) ==> s[1] == p[1]
  {
    if Starts(s, p) {
      assert s[1] == s[..|p|][1];
    }
  }

  lemma SpecialReads(u: unit, rest: Str)
    requires u in {AMP, LT, GT, QUOT}
    ensures ReadAttribute(EscUnit(u) + rest) == Then(u, ReadAttribute(rest))
  {
    EntityBack(u, rest);
    var s, n := EscUnit(u) + rest, |EscUnit(u)|;
    hide EscUnit, Entity, Then;
    assert s[0] == AMP && s[n..] == rest;
  }

  lemma EscEmpty()
    ensures EscapeXml([]) == []
  {
  }

  /** What follows a unit in the escaped text starts with a plain unit exactly when the text does. */
  lemma NextIs(s: Str, rest: Str)
    ensures var t := EscapeXml(s) + [QUOT] + rest;
      && (t[0] == 0xA <==> s != [] && s[0] == 0xA)
      && (IsLow(t[0]) <==> s != [] && IsLow(s[0]))
      && (IsLow(t[0]) ==> t[0] == s[0])
  {
    hide EscapeXml;
    if s == [] {
      EscEmpty();
    } else {
      EscFirst(s);
      if s[0] in {AMP, LT, GT, QUOT} {
        assert EscUnit(s[0])[0] == AMP;
      } else {
        PlainUnit(s[0]);
      }
    }
  }

  /** What a reader makes of an escaped text that its quote follows. */
  function Expected(s: Str, rest: Str): Option<(Str, Str)> {
    if XmlText(s) then Some((Normalized(s), rest)) else None
  }

  lemma ExpectedPair(s: Str, rest: Str)
    requires |s| > 1 && IsHigh(s[0]) && IsLow(s[1])
    ensures Expected(s, rest) == Then(s[0], Then(s[1], Expected(s[2..], rest)))
  {
    assert s[1..][1..] == s[2..] && s[1..][0] == s[1];
    assert Normalized(s) == [s[0]] + Normalized(s[1..]);
    assert Normalized(s[1..]) == [s[1]] + Normalized(s[2..]);
    assert XmlText(s) == XmlText(s[2..]);
  }

  lemma ExpectedBreak(s: Str, rest: Str)
    requires s != [] && IsBreak(s[0])
    ensures Expected(s, rest) == Then(SPACE, Expected(s[BreakLength(s)..], rest))
  {
    if BreakLength(s) == 2 {
      assert s[1..][1..] == s[2..] && s[1..][0] == s[1];
      assert XmlText(s[1..]) == XmlText(s[2..]);
    }
    assert XmlText(s) == XmlText(s[BreakLength(s)..]);
  }

  lemma ExpectedPlain(s: Str, rest: Str)
    requires s != [] && !IsBreak(s[0]) && !(IsHigh(s[0]) && |s| > 1 && IsLow(s[1]))
    ensures Expected(s, rest) == if IsChar(s[0]) then Then(s[0], Expected(s[1..], rest)) else None
  {
  }

  lemma EscTwo(s: Str, rest: Str)
    requires |s| > 1 && s[0] !in {AMP, LT, GT, QUOT} && s[1] !in {AMP, LT, GT, QUOT}
    ensures EscapeXml(s) + [QUOT] + rest == [s[0], s[1]] + (EscapeXml(s[2..]) + [QUOT] + rest)
  {
    hide EscapeXml, EscUnit;
    EscFirst(s);
    EscFirst(s[1..]);
    PlainUnit(s[0]);
    PlainUnit(s[1]);
    assert s[1..][1..] == s[2..];
  }

  /** An escaped value reads back up to its own quote, line breaks normalized, exactly when it is all characters. */
  lemma {:induction false} AttributeBack(s: Str, rest: Str)
    ensures ReadAttribute(EscapeXml(s) + [QUOT] + rest) == if XmlText(s) then Some((Normalized(s), rest)) else None
    decreases |s|
  {
    hide EscapeXml, EscUnit, Entity, XmlText, Normalized;
    if s == [] {
      EscEmpty();
      NothingRead(rest);
    } else {
      EscFirst(s);
      var tail := EscapeXml(s[1..]) + [QUOT] + rest;
      assert EscapeXml(s) + [QUOT] + rest == EscUnit(s[0]) + tail;
      AttributeBack(s[1..], rest);
      if s[0] in {AMP, LT, GT, QUOT} {
        SpecialReads(s[0], tail);
        ExpectedPlain(s, rest);
      } else {
        PlainUnit(s[0]);
        NextIs(s[1..], rest);
        assert ([s[0]] + tail)[1..] == tail;
        if |s| > 1 && (BreakLength(s) == 2 || (IsHigh(s[0]) && IsLow(s[1]))) {
          AttributeBack(s[2..], rest);
          EscTwo(s, rest);
          assert ([s[0], s[1]] + (EscapeXml(s[2..]) + [QUOT] + rest))[2..] == EscapeXml(s[2..]) + [QUOT] + rest;
        }
        if IsBreak(s[0]) {
          ExpectedBreak(s, rest);
        } else if IsHigh(s[0]) && |s| > 1 && IsLow(s[1]) {
          ExpectedPair(s, rest);
        } else {
          ExpectedPlain(s, rest);
        }
      }
    }
  }

  lemma NothingRead(rest: Str)
    ensures ReadAttribute([] + [QUOT] + rest) == Some(([], rest))
    ensures XmlText([]) && Normalized([]) == []
  {
    assert [] + [QUOT] + rest == [QUOT] + rest;
  }

  lemma PlainUnit(u: unit)
    requires u !in {AMP, LT, GT, QUOT}
    ensures EscUnit(u) == [u]
  {
  }

  lemma {:induction false} NormalizedSame(s: Str)
    ensures Normalized(s) == s <==> forall u <- s :: !IsBreak(u)
    decreases |s|
  {
    if s != [] {
      NormalizedSame(s[1..]);
      assert s == [s[0]] + s[1..];
    }
  }

  /** A value comes back unchanged exactly when it is all characters of XML and has no tab, LF or CR. */
  lemma RecoveredIff(s: Str, rest: Str)
    ensures ReadAttribute(EscapeXml(s) + [QUOT] + rest) == Some((s, rest)) <==>
      XmlText(s) && forall u <- s :: !IsBreak(u)
  {
    hide ReadAttribute, EscapeXml, Normalized, XmlText;
    AttributeBack(s, rest);
    NormalizedSame(s);
  }
}
