/**
 What each command line does to a session, said of the characters of the line: the grammar of MAIL and RCPT,
 the answers, and a session that starts over after RSET.
 */
module SmtpCommands {
  import opened Options
  import opened Smtp
  import opened Text

  // ----- the grammar of MAIL and RCPT -----

  /** `line` is `verb` in any case, spaces, `a` in angle brackets, and `rest`. */
  ghost predicate Shaped(line: string, verb: string, a: string, rest: string) {
    exists head, spaces :: ShapedWith(line, verb, head, spaces, a, rest)
  }

  predicate ShapedWith(line: string, verb: string, head: string, spaces: string, a: string, rest: string) {
    && line == head + spaces + "<" + a + ">" + rest
    && |head| == |verb| && ToUpper(head) == verb && (forall c <- spaces :: IsSpace(c)) && '>' !in a
  }

  lemma BracketedBack(spaces: string, a: string, rest: string)
    requires (forall c <- spaces :: IsSpace(c)) && '>' !in a
    ensures Bracketed(spaces + "<" + a + ">" + rest) == Some((a, rest))
  {
    hide TrimStart, IndexOf, IsSpace;
    var t := "<" + a + ">" + rest;
    AngleIsNoSpace();
    TrimStartPast(spaces, t);
    assert spaces + t == spaces + "<" + a + ">" + rest;
    AngleEnds(a, rest);
    assert t[1..|a| + 1] == a && t[|a| + 2..] == rest;
  }

  lemma AngleIsNoSpace()
    ensures !IsSpace('<')
  {
  }

  lemma AngleEnds(a: string, rest: string)
    requires '>' !in a
    ensures IndexOf("<" + a + ">" + rest, '>') == |a| + 1
  {
    hide IndexOf;
    var t := "<" + a + ">" + rest;
    assert t[|a| + 1] == '>';
    assert forall k | 0 < k <= |a| :: t[k] == a[k - 1] && a[k - 1] in a;
  }

  lemma BracketedShape(s: string) returns (spaces: string)
    requires Bracketed(s).Some?
    ensures var (a, rest) := Bracketed(s).value;
      s == spaces + "<" + a + ">" + rest && (forall c <- spaces :: IsSpace(c)) && '>' !in a
  {
    hide IsSpace, TrimStart, IndexOf;
    spaces := TrimStartCut(s);
    var t := TrimStart(s);
    var i := IndexOf(t, '>');
    CutAt(t, i);
    var (a, rest) := Bracketed(s).value;
    assert '>' !in a by {
      assert forall k | 0 <= k < |a| :: a[k] == t[k + 1];
    }
    assert spaces + ("<" + a + ">" + rest) == spaces + "<" + a + ">" + rest;
  }

  lemma CutAt(t: string, i: nat)
    requires 1 <= i < |t| && t[0] == '<' && t[i] == '>'
    ensures t == "<" + t[1..i] + ">" + t[i + 1..]
  {
  }

  /** A command of the given verb has an argument exactly when it has the shape, and then that one. */
  lemma ArgumentIff(line: string, verb: string, a: string, rest: string)
    ensures Shaped(line, verb, a, rest) <==>
      StartsWithNoCase(line, verb) && Bracketed(line[|verb|..]) == Some((a, rest))
  {
    hide Bracketed, ToUpper, IsSpace;
    if StartsWithNoCase(line, verb) && Bracketed(line[|verb|..]) == Some((a, rest)) {
      var spaces := BracketedShape(line[|verb|..]);
      assert ShapedWith(line, verb, line[..|verb|], spaces, a, rest);
    }
    if Shaped(line, verb, a, rest) {
      var head, spaces :| ShapedWith(line, verb, head, spaces, a, rest);
      BracketedBack(spaces, a, rest);
      assert line[..|head|] == head && line[|head|..] == spaces + "<" + a + ">" + rest;
    }
  }

  lemma VerbOfShape(line: string, verb: string, a: string, rest: string)
    requires |verb| >= 4 && Shaped(line, verb, a, rest)
    ensures ToUpper(Take(line, 4)) == verb[..4]
  {
    var head, spaces :| ShapedWith(line, verb, head, spaces, a, rest);
    assert line[..4] == head[..4] && ToUpper(head[..4]) == ToUpper(head)[..4];
  }

  lemma VerbStarts(line: string)
    ensures ToUpper(Take(line, 4)) == "MAIL FROM:"[..4] ==> VerbOf(line) == Mail
    ensures ToUpper(Take(line, 4)) == "RCPT TO:"[..4] ==> VerbOf(line) == Rcpt
  {
    hide ToUpper, Take;
    assert "MAIL FROM:"[..4] == "MAIL";
    assert "RCPT TO:"[..4] == "RCPT";
  }

  // ----- what a line does between messages -----

  /** A sender is taken when none is pending; a bare line end after the bracket makes the whole line the sender. */
  lemma MailLine(d: Dialog, line: string, a: string, rest: string, domains: seq<string>)
    requires !d.inData && Shaped(line, "MAIL FROM:", a, rest)
    ensures Line(d, line, domains) ==
      if d.mailFrom != "" || d.rcptTo != [] then d.(replies := d.replies + ["503 Nested MAIL command"])
      else
        var whole := '\n' in rest || '\r' in rest || '\U{2028}' in rest || '\U{2029}' in rest;
        d.(mailFrom := if whole then line else a, replies := d.replies + ["250 OK"])
  {
    hide Bracketed, ToUpper, Shaped, Take;
    VerbOfShape(line, "MAIL FROM:", a, rest);
    ArgumentIff(line, "MAIL FROM:", a, rest);
    VerbStarts(line);
    hide VerbOf;
    assert Line(d, line, domains) == MailCommand(d, line);
    assert (exists c <- rest :: IsLineEnd(c))
      <==> '\n' in rest || '\r' in rest || '\U{2028}' in rest || '\U{2029}' in rest;
  }

  /**
   * Every well-formed RCPT line is counted; up to the eighth of a connection it is answered alike for any
   * address, and the address, in lower case, is pending exactly when it ends in one of the domains.
   */
  lemma RcptLine(d: Dialog, line: string, a: string, rest: string, domains: seq<string>)
    requires !d.inData && Shaped(line, "RCPT TO:", a, rest)
    ensures Line(d, line, domains) ==
      if d.rcptCount >= 8 then
        d.(rcptCount := d.rcptCount + 1, replies := d.replies + ["452 Too many recipients"])
      else
        var ours := exists name <- domains :: EndsWith(ToLower(a), "@" + name);
        d.(rcptCount := d.rcptCount + 1, rcptTo := if ours then d.rcptTo + [ToLower(a)] else d.rcptTo,
           replies := d.replies + ["250 OK"])
  {
    hide Bracketed, ToUpper, ToLower, Shaped, Take, EndsWith;
    VerbOfShape(line, "RCPT TO:", a, rest);
    ArgumentIff(line, "RCPT TO:", a, rest);
    VerbStarts(line);
    hide VerbOf;
    assert RcptAddress(line) == Some(ToLower(a));
    assert Line(d, line, domains) == RcptCommand(d, line, domains);
  }

  /** A MAIL or RCPT line of any other shape is a syntax error and changes nothing. */
  lemma MalformedLine(d: Dialog, line: string, verb: string, domains: seq<string>)
    requires verb == "MAIL FROM:" || verb == "RCPT TO:"
    requires !d.inData && ToUpper(Take(line, 4)) == verb[..4] && forall a, rest :: !Shaped(line, verb, a, rest)
    ensures Line(d, line, domains) == d.(replies := d.replies + ["501 Syntax error"])
  {
    hide Bracketed, ToUpper, ToLower, Shaped, Take;
    if StartsWithNoCase(line, verb) && Bracketed(line[|verb|..]).Some? {
      var (a, rest) := Bracketed(line[|verb|..]).value;
      ArgumentIff(line, verb, a, rest);
    }
    VerbStarts(line);
    hide VerbOf;
    assert VerbOf(line) == (if verb == "MAIL FROM:" then Mail else Rcpt);
  }

  /** A message is begun exactly when an address is pending. */
  lemma DataLineOf(d: Dialog, line: string, domains: seq<string>)
    requires !d.inData && ToUpper(Take(line, 4)) == "DATA"
    ensures Line(d, line, domains) ==
      if d.rcptTo == [] then d.(replies := d.replies + ["554 No valid recipients"])
      else d.(inData := true, replies := d.replies + ["354 End data with <CR><LF>.<CR><LF>"])
  {
    hide ToUpper, Take;
    assert VerbOf(line) == Data;
  }

  /** RSET drops the pending sender, addresses and lines, and keeps the count, the answers and the events. */
  lemma ResetLine(d: Dialog, line: string, domains: seq<string>)
    requires !d.inData && ToUpper(Take(line, 4)) == "RSET"
    ensures Line(d, line, domains)
      == Dialog(false, 0, [], [], "", d.rcptCount, d.destroyed, d.replies + ["250 OK"], d.events)
  {
    hide ToUpper, Take;
    assert VerbOf(line) == Rset;
  }

  /** Every other line is answered and changes nothing. */
  lemma OtherLine(d: Dialog, line: string, domains: seq<string>)
    requires !d.inData && ToUpper(Take(line, 4)) !in ["MAIL", "RCPT", "DATA", "RSET"]
    ensures var verb := ToUpper(Take(line, 4));
      var answer :=
        if verb == "HELO" || verb == "NOOP" then "250 OK"
        else if verb == "EHLO" then
          "250-" + (if domains == [] then "localhost" else domains[0]) + "\r\n250 SIZE 1048576"
        else if verb == "QUIT" then "221 Bye"
        else "502 Command not implemented";
      Line(d, line, domains) == d.(replies := d.replies + [answer])
  {
    hide ToUpper, Take;
  }
}
