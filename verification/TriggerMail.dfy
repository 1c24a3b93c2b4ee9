/**
 Mailing a token's address: from the characters of an SMTP session to the incident of the token.
 */
module TriggerMail {
  import opened Options
  import opened SmtpChunks
  import opened Text
  import opened TriggerPipeline
  import opened Triggers
  import Smtp
  import SmtpCommands
  import SmtpMessages

  // ----- the address -----

  lemma AddressLower(ctx: Context, domain: string)
    requires IsTokenId(ctx.tokenId) && MailAddress(ctx) == ctx.tokenId + "@" + domain
    ensures ToLower(MailAddress(ctx)) == ctx.tokenId + "@" + ToLower(domain)
    ensures Before(ToLower(MailAddress(ctx)), '@') == ctx.tokenId
  {
    var id := ctx.tokenId;
    LowerConcat(id + "@", domain);
    LowerConcat(id, "@");
    LowerId(id);
    IdFree(id, '@');
    BeforeSkip(id, "@" + ToLower(domain), '@');
    assert id + "@" + ToLower(domain) == id + ("@" + ToLower(domain));
    assert Before("@" + ToLower(domain), '@') == "";
  }

  function MailDomainOf(ctx: Context): string {
    if ctx.mailDomain.Some? && ctx.mailDomain.value != "" then ctx.mailDomain.value else ctx.baseDomain
  }

  lemma MailEventFires(ctx: Context, e: Smtp.Event, domains: seq<string>)
    requires IsTokenId(ctx.tokenId) && e.to == ToLower(MailAddress(ctx)) && e.tokenHint == Smtp.LocalPart(e.to)
    ensures Fires(MailEvent(e), Email, ctx.tokenId, domains)
  {
    hide IsTokenId, Fires, Before, MailAddress;
    var id := ctx.tokenId;
    MailIs(ctx);
    AddressLower(ctx, MailDomainOf(ctx));
    NotEmpty(id);
    assert StartsWith(id[0..], id) by {
      assert id[0..] == id;
    }
    FiresWhenMatched(MailEvent(e), Email, id, domains);
  }

  lemma MailIs(ctx: Context)
    ensures MailAddress(ctx) == ctx.tokenId + "@" + MailDomainOf(ctx)
  {
  }

  /** A message with a token's address among its recipients has an event for it that raises the token's incident. */
  lemma PendingAddressFires(ctx: Context, from: string, subject: Option<string>, rcpts: seq<string>,
                            mailDomains: seq<string>, domains: seq<string>)
    requires IsTokenId(ctx.tokenId) && ToLower(MailAddress(ctx)) in rcpts
    requires forall r <- rcpts :: Smtp.BelongsTo(r, mailDomains)
    ensures exists e <- Smtp.MessageEvents(from, subject, rcpts, mailDomains) ::
      e.to == ToLower(MailAddress(ctx)) && Fires(MailEvent(e), Email, ctx.tokenId, domains)
  {
    hide IsTokenId, Fires, MailAddress;
    SmtpMessages.OneEventPerRecipient(from, subject, rcpts, mailDomains);
    var i :| 0 <= i < |rcpts| && rcpts[i] == ToLower(MailAddress(ctx));
    var e := Smtp.MessageEvents(from, subject, rcpts, mailDomains)[i];
    MailEventFires(ctx, e, domains);
  }

  /** The address is one of ours exactly when its domain is a mail domain. */
  lemma AddressBelongs(ctx: Context, mailDomains: seq<string>)
    requires IsTokenId(ctx.tokenId) && forall d <- mailDomains :: '@' !in d
    requires '@' !in MailDomainOf(ctx)
    ensures Smtp.BelongsTo(ToLower(MailAddress(ctx)), mailDomains) <==> ToLower(MailDomainOf(ctx)) in mailDomains
  {
    MailIs(ctx);
    AddressLower(ctx, MailDomainOf(ctx));
    var addr, domain := ToLower(MailAddress(ctx)), ToLower(MailDomainOf(ctx));
    forall d <- mailDomains
      ensures EndsWith(addr, "@" + d) <==> d == domain
    {
      OneAt(ctx.tokenId, domain, d);
    }
  }

  lemma OneAt(id: string, domain: string, d: string)
    requires '@' !in d && '@' !in domain
    ensures EndsWith(id + "@" + domain, "@" + d) <==> d == domain
  {
    var addr := id + "@" + domain;
    assert addr[|id|..] == "@" + domain;
    if EndsWith(addr, "@" + d) {
      var at := |addr| - |d| - 1;
      assert addr[at..] == "@" + d;
      assert addr[at] == '@';
      assert addr[at + 1..] == d;
      assert forall k | |id| < k < |addr| :: addr[k] == domain[k - |id| - 1] && addr[k] in domain;
      assert at <= |id|;
      assert forall k | at < k < |addr| :: addr[k] == d[k - at - 1] && addr[k] in d;
      assert addr[|id|] == '@';
    }
  }
  // ----- the line that names the address -----

  lemma RcptLineParsed(addr: string)
    requires '>' !in addr
    ensures Smtp.RcptAddress("RCPT TO:<" + addr + ">") == Some(ToLower(addr))
  {
    hide IndexOf, ToLower;
    var line := "RCPT TO:<" + addr + ">";
    var rest := line[8..];
    assert rest == "<" + addr + ">";
    assert line[..8] == "RCPT TO:";
    assert ToUpper("RCPT TO:") == "RCPT TO:";
    assert TrimStart(rest) == rest by {
      assert !IsSpace('<');
    }
    IndexOfSkip("<" + addr, ">", '>');
    assert IndexOf(">", '>') == 0 by {
      assert ">"[0] == '>';
    }
    assert rest[1..|addr| + 1] == addr;
  }

  /** While fewer than eight recipients were named, the RCPT line of a token's address makes it pending. */
  lemma RcptLineAccepted(d: Smtp.Dialog, addr: string, mailDomains: seq<string>)
    requires !d.inData && d.rcptCount < 8 && '>' !in addr
    requires Smtp.BelongsTo(ToLower(addr), mailDomains)
    ensures Smtp.Line(d, "RCPT TO:<" + addr + ">", mailDomains)
      == Smtp.Say(d.(rcptCount := d.rcptCount + 1, rcptTo := d.rcptTo + [ToLower(addr)]), "250 OK")
  {
    hide Smtp.BelongsTo, Smtp.RcptAddress, ToLower;
    var line := "RCPT TO:<" + addr + ">";
    RcptLineParsed(addr);
    assert line[..4] == "RCPT" && ToUpper("RCPT") == "RCPT";
    assert Smtp.VerbOf(line) == Smtp.Rcpt;
  }

  lemma MailLineParsed(from: string)
    requires '>' !in from
    ensures Smtp.MailArgument("MAIL FROM:<" + from + ">") == Some((from, ""))
  {
    hide IndexOf;
    var line := "MAIL FROM:<" + from + ">";
    var rest := line[10..];
    assert rest == "<" + from + ">";
    assert line[..10] == "MAIL FROM:";
    assert ToUpper("MAIL FROM:") == "MAIL FROM:";
    assert TrimStart(rest) == rest by {
      assert !IsSpace('<');
    }
    IndexOfSkip("<" + from, ">", '>');
    assert IndexOf(">", '>') == 0 by {
      assert ">"[0] == '>';
    }
    assert rest[1..|from| + 1] == from && rest[|from| + 2..] == "";
  }

  /** A dialog between messages. */
  predicate Idle(d: Smtp.Dialog) {
    !d.destroyed && !d.inData && d.dataBytes == 0 && d.dataLines == [] && d.rcptTo == [] && d.mailFrom == ""
  }

  lemma MailLineAccepted(d: Smtp.Dialog, from: string, mailDomains: seq<string>)
    requires Idle(d) && '>' !in from
    ensures Smtp.Line(d, "MAIL FROM:<" + from + ">", mailDomains)
      == Smtp.Say(d.(mailFrom := from), "250 OK")
  {
    hide Smtp.MailArgument;
    var line := "MAIL FROM:<" + from + ">";
    MailLineParsed(from);
    assert line[..4] == "MAIL" && ToUpper("MAIL") == "MAIL";
    assert Smtp.VerbOf(line) == Smtp.Mail;
  }

  lemma DataLineAccepted(d: Smtp.Dialog, mailDomains: seq<string>)
    requires !d.inData && d.rcptTo != []
    ensures Smtp.Line(d, "DATA", mailDomains) == Smtp.Say(d.(inData := true), "354 End data with <CR><LF>.<CR><LF>")
  {
    assert "DATA"[..4] == "DATA" && ToUpper("DATA") == "DATA";
    assert Smtp.VerbOf("DATA") == Smtp.Data;
  }

  // ----- a whole message -----

  lemma {:induction false} NoCrFree(s: string)
    requires '\r' !in s
    ensures SmtpMessages.CrLfFree(s)
    decreases |s|
  {
    if s != "" {
      NoCrFree(s[1..]);
    }
  }

  lemma {:induction false} JoinFree(a: string, b: string)
    requires SmtpMessages.CrLfFree(a) && SmtpMessages.CrLfFree(b)
    requires a == "" || b == "" || a[|a| - 1] != '\r' || b[0] != '\n'
    ensures SmtpMessages.CrLfFree(a + b)
    decreases |a|
  {
    if a == "" {
      assert a + b == b;
    } else {
      JoinFree(a[1..], b);
      assert (a + b)[1..] == a[1..] + b;
    }
  }

  lemma CommandFree(verb: string, address: string)
    requires '\r' !in verb && SmtpMessages.CrLfFree(address)
    ensures SmtpMessages.CrLfFree(verb + address + ">")
  {
    NoCrFree(verb);
    NoCrFree(">");
    JoinFree(verb, address);
    JoinFree(verb + address, ">");
  }

  /** What a client sends for one message with one recipient, after its greeting. */
  function Session(from: string, addr: string, lines: seq<string>): string {
    "MAIL FROM:<" + from + ">" + Smtp.CRLF
    + ("RCPT TO:<" + addr + ">" + Smtp.CRLF
    + ("DATA" + Smtp.CRLF
    + (SmtpMessages.Wire(lines) + "." + Smtp.CRLF)))
  }

  /** The dialog when the body begins. */
  function Ready(d: Smtp.Dialog, from: string, addr: string): Smtp.Dialog {
    d.(mailFrom := from, rcptCount := d.rcptCount + 1, rcptTo := [ToLower(addr)], inData := true,
       replies := d.replies + ["250 OK"] + ["250 OK"] + ["354 End data with <CR><LF>.<CR><LF>"])
  }

  lemma EnvelopeHandled(d: Smtp.Dialog, from: string, addr: string, body: string, mailDomains: seq<string>)
    requires Idle(d) && d.rcptCount < 8 && Smtp.BelongsTo(ToLower(addr), mailDomains)
    requires '>' !in from && '>' !in addr && SmtpMessages.CrLfFree(from) && SmtpMessages.CrLfFree(addr)
    ensures Smtp.Drain(Smtp.State(d,
        "MAIL FROM:<" + from + ">" + Smtp.CRLF + ("RCPT TO:<" + addr + ">" + Smtp.CRLF + ("DATA" + Smtp.CRLF + body))),
        mailDomains)
      == Smtp.Drain(Smtp.State(Ready(d, from, addr), body), mailDomains)
  {
    hide Smtp.Drain, Smtp.Line, Smtp.BelongsTo, SmtpMessages.CrLfFree, ToLower;
    var mail, rcpt := "MAIL FROM:<" + from + ">", "RCPT TO:<" + addr + ">";
    var rest := "DATA" + Smtp.CRLF + body;
    CommandFree("MAIL FROM:<", from);
    CommandFree("RCPT TO:<", addr);
    NoCrFree("DATA");
    MailLineAccepted(d, from, mailDomains);
    var d1 := Smtp.Say(d.(mailFrom := from), "250 OK");
    RcptLineAccepted(d1, addr, mailDomains);
    var d2 := Smtp.Say(d1.(rcptCount := d.rcptCount + 1, rcptTo := [ToLower(addr)]), "250 OK");
    assert d1.rcptTo + [ToLower(addr)] == [ToLower(addr)];
    DataLineAccepted(d2, mailDomains);
    var second := rcpt + Smtp.CRLF + rest;
    SmtpMessages.DrainOneLine(Smtp.State(d, mail + Smtp.CRLF + second), mail, second, mailDomains);
    SmtpMessages.DrainOneLine(Smtp.State(d1, rcpt + Smtp.CRLF + rest), rcpt, rest, mailDomains);
    SmtpMessages.DrainOneLine(Smtp.State(d2, rest), "DATA", body, mailDomains);
  }

  lemma OneEvent(from: string, subject: Option<string>, to: string, mailDomains: seq<string>)
    requires Smtp.BelongsTo(to, mailDomains)
    ensures Smtp.MessageEvents(from, subject, [to], mailDomains) == [Smtp.Event(Smtp.LocalPart(to), from, to, subject)]
  {
    SmtpMessages.OneEventPerRecipient(from, subject, [to], mailDomains);
  }

  /** From `d` to `end` exactly one message from `from` was taken, and it raises the token's incident. */
  ghost predicate Taken(ctx: Context, d: Smtp.Dialog, end: Smtp.State, from: string, lines: seq<string>,
                        domains: seq<string>) {
    && Idle(end.dialog) && end.buffer == "" && end.dialog.rcptCount == d.rcptCount + 1
    && exists e ::
         && end.dialog.events == d.events + [e]
         && e.tokenHint == ctx.tokenId && e.from == from && e.to == ToLower(MailAddress(ctx))
         && e.subject == Smtp.Subject(lines)
         && Fires(MailEvent(e), Email, ctx.tokenId, domains)
  }

  lemma HintIsId(ctx: Context)
    requires IsTokenId(ctx.tokenId)
    ensures Smtp.LocalPart(ToLower(MailAddress(ctx))) == ctx.tokenId
  {
    MailIs(ctx);
    AddressLower(ctx, MailDomainOf(ctx));
  }

  lemma SessionTaken(ctx: Context, d: Smtp.Dialog, from: string, addr: string, lines: seq<string>,
                     mailDomains: seq<string>, domains: seq<string>)
    requires IsTokenId(ctx.tokenId) && ToLower(addr) == ToLower(MailAddress(ctx))
    requires Smtp.BelongsTo(ToLower(addr), mailDomains)
    requires Idle(d) && d.rcptCount < 8
    requires '>' !in from && '>' !in addr && SmtpMessages.CrLfFree(from) && SmtpMessages.CrLfFree(addr)
    requires SmtpMessages.WireSize(lines) <= 1_048_576 && forall l <- lines :: SmtpMessages.CrLfFree(l)
    ensures Taken(ctx, d, Smtp.Drain(Smtp.State(d, Session(from, addr, lines)), mailDomains), from, lines, domains)
  {
    hide Fires, IsTokenId, MailAddress, ToLower, Smtp.BelongsTo, Smtp.Drain, Smtp.Subject, Smtp.LocalPart,
         SmtpMessages.Wire, SmtpMessages.WireSize, SmtpMessages.CrLfFree;
    EnvelopeHandled(d, from, addr, SmtpMessages.Wire(lines) + "." + Smtp.CRLF, mailDomains);
    var ready := Ready(d, from, addr);
    SmtpMessages.BodyAndDot(ready, lines, mailDomains);
    assert ready.dataLines + lines == lines;
    OneEvent(from, Smtp.Subject(lines), ToLower(addr), mailDomains);
    var e := Smtp.Event(Smtp.LocalPart(ToLower(addr)), from, ToLower(addr), Smtp.Subject(lines));
    HintIsId(ctx);
    MailEventFires(ctx, e, domains);
    assert Smtp.Finish(SmtpMessages.WithBody(ready, lines), mailDomains).events == d.events + [e];
  }

  /**
   * Mailing a token's address, written in any letter case, with any body that fits, cut into chunks anyhow:
   * the session reports exactly one event more, that event raises the token's incident, and the session is
   * ready for the next message with one recipient more counted.
   */
  lemma MailFires(ctx: Context, d: Smtp.Dialog, from: string, addr: string, lines: seq<string>, chunks: seq<string>,
                  mailDomains: seq<string>, domains: seq<string>)
    requires IsTokenId(ctx.tokenId) && ToLower(addr) == ToLower(MailAddress(ctx))
    requires Smtp.BelongsTo(ToLower(addr), mailDomains)
    requires Idle(d) && d.rcptCount < 8
    requires '>' !in from && '>' !in addr && SmtpMessages.CrLfFree(from) && SmtpMessages.CrLfFree(addr)
    requires SmtpMessages.WireSize(lines) <= 1_048_576 && forall l <- lines :: SmtpMessages.CrLfFree(l)
    requires Concat(chunks) == Session(from, addr, lines) && UnderCap(Smtp.State(d, ""), chunks, mailDomains)
    ensures Taken(ctx, d, Smtp.Run(Smtp.State(d, ""), chunks, mailDomains), from, lines, domains)
  {
    hide IsTokenId, MailAddress, ToLower, Smtp.BelongsTo, Smtp.Drain, Smtp.Run, Smtp.Subject, UnderCap, Fires,
         SmtpMessages.WireSize, SmtpMessages.CrLfFree, Concat, Session;
    SmtpMessages.EmptyBufferDrains(d, mailDomains);
    RunIsOnePass(Smtp.State(d, ""), chunks, mailDomains);
    assert "" + Concat(chunks) == Session(from, addr, lines);
    SessionTaken(ctx, d, from, addr, lines, mailDomains, domains);
  }

  /** Whatever a session was told before, after RSET it is between messages and has nothing pending. */
  lemma IdleAfterReset(d: Smtp.Dialog, reset: string, mailDomains: seq<string>)
    requires !d.destroyed && !d.inData && ToUpper(Take(reset, 4)) == "RSET"
    ensures var d' := Smtp.Line(d, reset, mailDomains);
      Idle(d') && d'.rcptCount == d.rcptCount && d'.events == d.events && d'.replies == d.replies + ["250 OK"]
  {
    hide ToUpper, Take;
    SmtpCommands.ResetLine(d, reset, mailDomains);
  }

  /**
   * A session in which anything was said before, with a sender and addresses pending or not: after RSET a
   * message is taken as by a fresh one, and no address that was pending is reported.
   */
  lemma ResetThenMailFires(ctx: Context, d: Smtp.Dialog, reset: string, from: string, addr: string,
                           lines: seq<string>, chunks: seq<string>, mailDomains: seq<string>, domains: seq<string>)
    requires IsTokenId(ctx.tokenId) && ToLower(addr) == ToLower(MailAddress(ctx))
    requires Smtp.BelongsTo(ToLower(addr), mailDomains)
    requires !d.destroyed && !d.inData && d.rcptCount < 8
    requires ToUpper(Take(reset, 4)) == "RSET" && SmtpMessages.CrLfFree(reset)
    requires '>' !in from && '>' !in addr && SmtpMessages.CrLfFree(from) && SmtpMessages.CrLfFree(addr)
    requires SmtpMessages.WireSize(lines) <= 1_048_576 && forall l <- lines :: SmtpMessages.CrLfFree(l)
    requires Concat(chunks) == reset + Smtp.CRLF + Session(from, addr, lines)
    requires UnderCap(Smtp.State(d, ""), chunks, mailDomains)
    ensures Taken(ctx, d, Smtp.Run(Smtp.State(d, ""), chunks, mailDomains), from, lines, domains)
  {
    hide IsTokenId, MailAddress, ToLower, ToUpper, Smtp.BelongsTo, Smtp.Drain, Smtp.Run, Smtp.Line, Smtp.Subject,
         UnderCap, SmtpMessages.WireSize, SmtpMessages.CrLfFree, Concat, Session, Fires;
    SmtpMessages.EmptyBufferDrains(d, mailDomains);
    RunIsOnePass(Smtp.State(d, ""), chunks, mailDomains);
    assert "" + Concat(chunks) == reset + Smtp.CRLF + Session(from, addr, lines);
    SmtpMessages.DrainOneLine(Smtp.State(d, Concat(chunks)), reset, Session(from, addr, lines), mailDomains);
    IdleAfterReset(d, reset, mailDomains);
    SessionTaken(ctx, Smtp.Line(d, reset, mailDomains), from, addr, lines, mailDomains, domains);
  }

  // ----- the subject -----

  predicate IsSubject(line: string) {
    |line| >= 8 && ToLower(line[..8]) == "subject:"
  }

  /** The first line that starts with "subject:" in any case gives the subject: its rest, trimmed, at most 200 long. */
  lemma {:induction false} SubjectIs(lines: seq<string>, i: nat)
    requires i < |lines| && IsSubject(lines[i]) && forall j | 0 <= j < i :: !IsSubject(lines[j])
    ensures var text := Trim(lines[i][8..]);
      Smtp.Subject(lines) == Some(if |text| > 200 then text[..200] else text)
    decreases |lines|
  {
    hide Trim, IsSubject;
    SubjectCase(lines[0]);
    if i > 0 {
      assert forall j | 0 <= j < i - 1 :: lines[1..][j] == lines[j + 1];
      SubjectIs(lines[1..], i - 1);
    } else {
      var text := Trim(lines[0][8..]);
      assert |text| == 200 ==> text[..200] == text;
    }
  }

  lemma {:induction false} NoSubject(lines: seq<string>)
    ensures Smtp.Subject(lines).None? <==> forall l <- lines :: !IsSubject(l)
    decreases |lines|
  {
    hide Trim, IsSubject;
    if lines != [] {
      SubjectCase(lines[0]);
      NoSubject(lines[1..]);
    }
  }

  lemma SubjectCase(line: string)
    ensures StartsWithNoCase(line, "SUBJECT:") <==> IsSubject(line)
  {
    var upper, lower := "SUBJECT:", "subject:";
    if |line| >= 8 {
      var s := line[..8];
      assert forall i | 0 <= i < 8 :: UpperChar(s[i]) == upper[i] <==> LowerChar(s[i]) == lower[i];
      assert ToUpper(s) == upper <==> forall i | 0 <= i < 8 :: UpperChar(s[i]) == upper[i];
      assert ToLower(s) == lower <==> forall i | 0 <= i < 8 :: LowerChar(s[i]) == lower[i];
    }
  }
}
