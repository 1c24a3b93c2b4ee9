/**
 The string operations of JavaScript that the models use. One `char` stands for one UTF-16 code
 unit; letters outside ASCII keep their case.
 */
module Text {

  function UpperChar(c: char): char {
    if 'a' <= c <= 'z' then c - 32 as char else c
  }

  function LowerChar(c: char): char {
    if 'A' <= c <= 'Z' then c + 32 as char else c
  }

  function ToUpper(s: string): (r: string)
    ensures |r| == |s|
  {
    seq(|s|, i requires 0 <= i < |s| => UpperChar(s[i]))
  }

  function ToLower(s: string): (r: string)
    ensures |r| == |s|
  {
    seq(|s|, i requires 0 <= i < |s| => LowerChar(s[i]))
  }

  /** The letters of ASCII, in both cases, and nothing else. */
  lemma CaseOfLetters(c: char)
    ensures ToLower("ABCDEFGHIJKLMNOPQRSTUVWXYZ") == "abcdefghijklmnopqrstuvwxyz"
    ensures ToUpper("abcdefghijklmnopqrstuvwxyz") == "ABCDEFGHIJKLMNOPQRSTUVWXYZ"
    ensures c !in "ABCDEFGHIJKLMNOPQRSTUVWXYZ" ==> LowerChar(c) == c
    ensures c !in "abcdefghijklmnopqrstuvwxyz" ==> UpperChar(c) == c
  {
    hide ToLower, ToUpper;
    InAlphabet(c, "ABCDEFGHIJKLMNOPQRSTUVWXYZ", 'A');
    InAlphabet(c, "abcdefghijklmnopqrstuvwxyz", 'a');
    LowerAlphabet();
    UpperAlphabet();
  }

  lemma InAlphabet(c: char, s: string, first: char)
    requires |s| == 26 && first <= 'a' && forall i | 0 <= i < 26 :: s[i] as int == first as int + i
    ensures first as int <= c as int < first as int + 26 ==> c in s
  {
    if first as int <= c as int < first as int + 26 {
      assert s[c as int - first as int] == c;
    }
  }

  lemma LowerAlphabet()
    ensures ToLower("ABCDEFGHIJKLMNOPQRSTUVWXYZ") == "abcdefghijklmnopqrstuvwxyz"
  {
    var upper, lower := "ABCDEFGHIJKLMNOPQRSTUVWXYZ", "abcdefghijklmnopqrstuvwxyz";
    assert forall i | 0 <= i < 26 :: upper[i] as int == 65 + i && lower[i] as int == 97 + i;
  }

  lemma UpperAlphabet()
    ensures ToUpper("abcdefghijklmnopqrstuvwxyz") == "ABCDEFGHIJKLMNOPQRSTUVWXYZ"
  {
    var upper, lower := "ABCDEFGHIJKLMNOPQRSTUVWXYZ", "abcdefghijklmnopqrstuvwxyz";
    assert forall i | 0 <= i < 26 :: upper[i] as int == 65 + i && lower[i] as int == 97 + i;
  }

  function Take(s: string, n: nat): string {
    if n <= |s| then s[..n] else s
  }

  predicate StartsWith(s: string, p: string) {
    |p| <= |s| && s[..|p|] == p
  }

  predicate EndsWith(s: string, p: string) {
    |p| <= |s| && s[|s| - |p|..] == p
  }

  /** `p`, given in upper case, starts `s` whatever the case of `s`. */
  predicate StartsWithNoCase(s: string, p: string) {
    |p| <= |s| && ToUpper(s[..|p|]) == p
  }

  /** Where `c` first occurs, or `|s|`. */
  function IndexOf(s: string, c: char): (i: nat)
    ensures i <= |s|
    ensures forall j :: 0 <= j < i ==> s[j] != c
    ensures i < |s| ==> s[i] == c
  {
    if s == "" || s[0] == c then 0 else 1 + IndexOf(s[1..], c)
  }

  function Before(s: string, c: char): string {
    s[..IndexOf(s, c)]
  }

  /** White space as `\s` and `trim` understand it. */
  predicate IsSpace(c: char) {
    c in "\t\n\U{B}\U{C}\r \U{A0}\U{1680}\U{2028}\U{2029}\U{202F}\U{205F}\U{3000}\U{FEFF}"
    || '\U{2000}' <= c <= '\U{200A}'
  }

  /** The characters `.` of a regular expression does not match. */
  predicate IsLineEnd(c: char) {
    c in "\n\r\U{2028}\U{2029}"
  }

  function TrimStart(s: string): (r: string)
    ensures |r| <= |s|
  {
    if s != "" && IsSpace(s[0]) then TrimStart(s[1..]) else s
  }

  function TrimEnd(s: string): string {
    if s != "" && IsSpace(s[|s| - 1]) then TrimEnd(s[..|s| - 1]) else s
  }

  function Trim(s: string): string {
    TrimEnd(TrimStart(s))
  }

  lemma {:induction false} TrimStartPast(spaces: string, t: string)
    requires (forall c <- spaces :: IsSpace(c)) && (t == "" || !IsSpace(t[0]))
    ensures TrimStart(spaces + t) == t
    decreases |spaces|
  {
    hide IsSpace;
    if spaces == "" {
      assert spaces + t == t;
    } else {
      TrimStartPast(spaces[1..], t);
      assert (spaces + t)[1..] == spaces[1..] + t;
    }
  }

  lemma {:induction false} TrimStartCut(s: string) returns (spaces: string)
    ensures s == spaces + TrimStart(s) && (forall c <- spaces :: IsSpace(c))
    ensures TrimStart(s) == "" || !IsSpace(TrimStart(s)[0])
    decreases |s|
  {
    hide IsSpace;
    spaces := "";
    if s != "" && IsSpace(s[0]) {
      spaces := TrimStartCut(s[1..]);
      spaces := [s[0]] + spaces;
    }
  }

  lemma {:induction false} TrimEndCut(s: string) returns (spaces: string)
    ensures s == TrimEnd(s) + spaces && (forall c <- spaces :: IsSpace(c))
    ensures TrimEnd(s) == "" || !IsSpace(TrimEnd(s)[|TrimEnd(s)| - 1])
    decreases |s|
  {
    hide IsSpace;
    spaces := "";
    if s != "" && IsSpace(s[|s| - 1]) {
      spaces := TrimEndCut(s[..|s| - 1]);
      spaces := spaces + [s[|s| - 1]];
    }
  }

  /** Trimming takes white space off both ends, and all of it. */
  lemma TrimCut(s: string) returns (before: string, after: string)
    ensures s == before + Trim(s) + after
    ensures forall c <- before + after :: IsSpace(c)
    ensures Trim(s) == "" || (!IsSpace(Trim(s)[0]) && !IsSpace(Trim(s)[|Trim(s)| - 1]))
  {
    hide IsSpace;
    before := TrimStartCut(s);
    after := TrimEndCut(TrimStart(s));
  }

  /** The white space of ASCII. */
  lemma AsciiSpaces(c: char)
    requires c < 128 as char
    ensures IsSpace(c) <==> c == ' ' || c == '\t' || c == '\n' || c == '\r' || c as int == 11 || c as int == 12
  {
  }

  /** `split`: the pieces between occurrences of `c`. */
  function Split(s: string, c: char): (r: seq<string>)
    ensures |r| > 0
  {
    var i := IndexOf(s, c);
    if i == |s| then [s] else [s[..i]] + Split(s[i + 1..], c)
  }
}
