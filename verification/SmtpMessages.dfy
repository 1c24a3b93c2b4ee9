/**
 What comes through the SMTP session: dot-stuffed bodies line for line, and never more recipients,
 events or held data than the limits allow.
 */
module SmtpMessages {
  import opened Options
  import opened Smtp
  import opened SmtpChunks
  import opened Text

  // ----- dot stuffing (section 4.5.2 of RFC 5321) -----

  predicate CrLfFree(line: string) {
    FindCrLf(line) < 0
  }

  /** The client puts one more dot in front of a line that starts with one. */
  function Stuff(line: string): string {
    if StartsWith(line, ".") then "." + line else line
  }

  function Wire(lines: seq<string>): string {
    if lines == [] then "" else Stuff(lines[0]) + CRLF + Wire(lines[1..])
  }

  /** What the session counts for a body. */
  function WireSize(lines: seq<string>): nat {
    if lines == [] then 0 else |Stuff(lines[0])| + 2 + WireSize(lines[1..])
  }

  lemma UnstuffStuff(line: string)
    ensures Unstuff(Stuff(line)) == line && Stuff(line) != "."
  {
    if StartsWith(line, ".") {
      assert Stuff(line)[1..] == line;
      assert Stuff(line)[..2] == "..";
    }
  }

  /** What section 4.5.2 of RFC 5321 has a receiver make of a line that is not a lone dot. */
  function UnstuffRfc(line: string): string {
    if StartsWith(line, ".") then line[1..] else line
  }

  /** The session departs from it exactly on lines that start with a single dot, which no client may send. */
  lemma UnstuffAgreesIff(line: string)
    requires line != "."
    ensures Unstuff(line) == UnstuffRfc(line) <==> (StartsWith(line, ".") ==> StartsWith(line, ".."))
  {
    if StartsWith(line, "..") {
      assert line[..1] == line[..2][..1] == ".";
    }
  }

  lemma SingleDotKept()
    ensures Unstuff(".x") == ".x" && UnstuffRfc(".x") == "x"
  {
    assert ".x"[..2][1] == 'x' && ".x"[1..] == "x";
  }

  lemma {:induction false} LineEndFound(line: string, rest: string)
    requires CrLfFree(line)
    ensures FindCrLf(line + CRLF + rest) == |line|
    decreases |line|
  {
    var b := line + CRLF + rest;
    if line != "" {
      assert b[1..] == line[1..] + CRLF + rest;
      if |line| == 1 {
        assert b[1] == '\r';
      }
      assert CrLfFree(line[1..]);
      LineEndFound(line[1..], rest);
    }
  }

  lemma StuffCrLfFree(line: string)
    requires CrLfFree(line)
    ensures CrLfFree(Stuff(line))
  {
    if StartsWith(line, ".") {
      assert Stuff(line)[1..] == line;
    }
  }

  /** One complete line at the front of the buffer is handled first. */
  lemma DrainOneLine(s: State, line: string, rest: string, domains: seq<string>)
    requires !s.dialog.destroyed && CrLfFree(line) && s.buffer == line + CRLF + rest
    ensures Drain(s, domains) == Drain(State(Line(s.dialog, line, domains), rest), domains)
  {
    hide Line, FindCrLf;
    LineEndFound(line, rest);
    assert s.buffer[..|line|] == line && s.buffer[|line| + 2..] == rest;
  }

  /** The dialog after a body that fits. */
  function WithBody(d: Dialog, lines: seq<string>): Dialog {
    d.(dataLines := d.dataLines + lines, dataBytes := d.dataBytes + WireSize(lines))
  }

  lemma {:induction false} BodyHandled(s: State, lines: seq<string>, rest: string, domains: seq<string>)
    requires s.dialog.inData && !s.dialog.destroyed
    requires forall l <- lines :: CrLfFree(l)
    requires s.buffer == Wire(lines) + rest
    ensures s.dialog.dataBytes + WireSize(lines) <= 1_048_576 ==>
      Drain(s, domains) == Drain(State(WithBody(s.dialog, lines), rest), domains)
    ensures s.dialog.dataBytes + WireSize(lines) > 1_048_576 && s.dialog.dataBytes <= 1_048_576 ==>
      var d := Drain(s, domains).dialog;
      d.destroyed && d.events == s.dialog.events && d.replies == s.dialog.replies + ["552 Message too large"]
    decreases |lines|
  {
    hide Drain, FindCrLf, Command, Finish, Stuff;
    if lines == [] {
      assert s.buffer == rest;
      assert WithBody(s.dialog, []) == s.dialog;
    } else {
      var line := Stuff(lines[0]);
      StuffCrLfFree(lines[0]);
      UnstuffStuff(lines[0]);
      assert s.buffer == line + CRLF + (Wire(lines[1..]) + rest);
      DrainOneLine(s, line, Wire(lines[1..]) + rest, domains);
      var d := Line(s.dialog, line, domains);
      if d.destroyed {
        DestroyedDrains(State(d, Wire(lines[1..]) + rest), domains);
      } else {
        BodyHandled(State(d, Wire(lines[1..]) + rest), lines[1..], rest, domains);
        assert s.dialog.dataLines + [lines[0]] + lines[1..] == s.dialog.dataLines + lines;
      }
    }
  }

  /** A body that fits and its lone dot, in one pass. */
  lemma BodyAndDot(d: Dialog, lines: seq<string>, domains: seq<string>)
    requires d.inData && !d.destroyed && d.dataBytes + WireSize(lines) <= 1_048_576
    requires forall l <- lines :: CrLfFree(l)
    ensures Drain(State(d, Wire(lines) + "." + CRLF), domains) == State(Finish(WithBody(d, lines), domains), "")
  {
    hide Finish, Wire, WireSize, CrLfFree, Line;
    var dot := "." + CRLF;
    assert Wire(lines) + "." + CRLF == Wire(lines) + dot;
    BodyHandled(State(d, Wire(lines) + dot), lines, dot, domains);
    var t := State(WithBody(d, lines), dot);
    assert dot == "." + CRLF + "";
    LoneDotFree();
    hide Drain;
    DrainOneLine(t, ".", "", domains);
    LoneDotEnds(t.dialog, domains);
    EmptyBufferDrains(Finish(t.dialog, domains), domains);
  }

  lemma LoneDotFree()
    ensures CrLfFree(".")
  {
    assert FindCrLf(".") == -1;
  }

  lemma LoneDotEnds(d: Dialog, domains: seq<string>)
    requires d.inData
    ensures Line(d, ".", domains) == Finish(d, domains)
  {
    hide Finish;
  }

  lemma EmptyBufferDrains(d: Dialog, domains: seq<string>)
    ensures Drain(State(d, ""), domains) == State(d, "")
  {
    assert FindCrLf("") == -1;
  }

  /**
   * A body and its lone dot, cut into chunks anyhow: if it fits the size cap every line is restored and
   * exactly one message ends; if it does not, nothing is reported and the session is over.
   */
  lemma MessageRestored(d: Dialog, lines: seq<string>, chunks: seq<string>, domains: seq<string>)
    requires d.inData && !d.destroyed && d.dataBytes <= 1_048_576
    requires forall l <- lines :: CrLfFree(l)
    requires Concat(chunks) == Wire(lines) + "." + CRLF && UnderCap(State(d, ""), chunks, domains)
    ensures d.dataBytes + WireSize(lines) <= 1_048_576 ==>
      && var end := Run(State(d, ""), chunks, domains);
      && end == State(Finish(WithBody(d, lines), domains), "")
      && end.dialog.events == d.events
           + MessageEvents(d.mailFrom, Subject(d.dataLines + lines), d.rcptTo, domains)
      && end.dialog.replies == d.replies + ["250 OK"]
    ensures d.dataBytes + WireSize(lines) > 1_048_576 ==>
      && var end := Run(State(d, ""), chunks, domains).dialog;
      && end.destroyed && end.events == d.events && end.replies == d.replies + ["552 Message too large"]
  {
    var s, dot := State(d, Wire(lines) + "." + CRLF), "." + CRLF;
    assert s.buffer == Wire(lines) + dot == "" + Concat(chunks);
    EmptyBufferDrains(d, domains);
    RunIsOnePass(State(d, ""), chunks, domains);
    if d.dataBytes + WireSize(lines) <= 1_048_576 {
      BodyAndDot(d, lines, domains);
    } else {
      BodyHandled(s, lines, dot, domains);
    }
  }

  /** With only addresses under our domains pending, a message reports each of them once, in order. */
  lemma {:induction false} OneEventPerRecipient(from: string, subject: Option<string>, rcpts: seq<string>,
                                                domains: seq<string>)
    requires forall r <- rcpts :: BelongsTo(r, domains)
    ensures var es := MessageEvents(from, subject, rcpts, domains);
      |es| == |rcpts| && forall i :: 0 <= i < |es| ==> es[i] == Event(LocalPart(rcpts[i]), from, rcpts[i], subject)
    decreases |rcpts|
  {
    hide BelongsTo, LocalPart;
    if rcpts != [] {
      OneEventPerRecipient(from, subject, rcpts[..|rcpts| - 1], domains);
    }
  }

  // ----- limits over a whole connection -----

  function Held(lines: seq<string>): nat {
    if lines == [] then 0 else Held(lines[..|lines| - 1]) + |lines[|lines| - 1]| + 2
  }

  function Min(a: nat, b: nat): nat { if a < b then a else b }

  /** What every line, every chunk and every run keeps. */
  ghost predicate Bounded(d: Dialog, domains: seq<string>) {
    && |d.events| + |d.rcptTo| <= Min(d.rcptCount, 8)
    && (forall r <- d.rcptTo :: BelongsTo(r, domains))
    && (forall e <- d.events :: BelongsTo(e.to, domains))
    && Held(d.dataLines) <= d.dataBytes
    && (!d.destroyed ==> d.dataBytes <= 1_048_576)
    && (!d.inData ==> d.dataLines == [])
  }

  lemma DataLineBounded(d: Dialog, line: string, domains: seq<string>)
    requires Bounded(d, domains) && !d.destroyed && d.inData
    ensures Bounded(DataLine(d, line, domains), domains)
  {
    hide BelongsTo, Subject, LocalPart;
    if line == "." {
      OneEventPerRecipient(d.mailFrom, Subject(d.dataLines), d.rcptTo, domains);
    } else {
      assert (d.dataLines + [Unstuff(line)])[..|d.dataLines|] == d.dataLines;
    }
  }

  lemma RcptBounded(d: Dialog, line: string, domains: seq<string>)
    requires Bounded(d, domains) && !d.inData
    ensures Bounded(RcptCommand(d, line, domains), domains)
  {
    hide BelongsTo, RcptAddress, Held;
  }

  lemma MailBounded(d: Dialog, line: string, domains: seq<string>)
    requires Bounded(d, domains) && !d.inData
    ensures Bounded(MailCommand(d, line), domains)
  {
    hide BelongsTo, MailArgument, SenderOf, Held;
  }

  lemma ResetBounded(d: Dialog, domains: seq<string>)
    requires Bounded(d, domains)
    ensures Bounded(Reset(d), domains)
  {
    hide BelongsTo;
  }

  lemma SayBounded(d: Dialog, text: string, domains: seq<string>)
    requires Bounded(d, domains)
    ensures Bounded(Say(d, text), domains)
  {
    hide BelongsTo, Held;
  }

  lemma CommandBounded(d: Dialog, line: string, domains: seq<string>)
    requires Bounded(d, domains) && !d.inData
    ensures Bounded(Command(d, line, domains), domains)
  {
    RcptBounded(d, line, domains);
    MailBounded(d, line, domains);
    ResetBounded(d, domains);
    assert d.rcptTo != [] ==> Bounded(d.(inData := true), domains);
    hide Bounded, VerbOf, HostName, MailCommand, RcptCommand, Reset, Say;
    match VerbOf(line) {
      case Ehlo => SayBounded(d, "250-" + HostName(domains) + "\r\n250 SIZE 1048576", domains);
      case Data =>
        if d.rcptTo == [] {
          SayBounded(d, "554 No valid recipients", domains);
        } else {
          SayBounded(d.(inData := true), "354 End data with <CR><LF>.<CR><LF>", domains);
        }
      case Rset => SayBounded(Reset(d), "250 OK", domains);
      case Quit => SayBounded(d, "221 Bye", domains);
      case Unknown => SayBounded(d, "502 Command not implemented", domains);
      case _ => SayBounded(d, "250 OK", domains);
    }
  }

  lemma {:induction false} DrainBounded(s: State, domains: seq<string>)
    requires Bounded(s.dialog, domains)
    ensures Bounded(Drain(s, domains).dialog, domains)
    decreases |s.buffer|
  {
    hide Bounded, FindCrLf, DataLine, Command;
    var i := FindCrLf(s.buffer);
    if !s.dialog.destroyed && i >= 0 {
      var line := s.buffer[..i];
      if s.dialog.inData {
        DataLineBounded(s.dialog, line, domains);
      } else {
        CommandBounded(s.dialog, line, domains);
      }
      DrainBounded(State(Line(s.dialog, line, domains), s.buffer[i + 2..]), domains);
    }
  }

  lemma {:induction false} RunBounded(s: State, chunks: seq<string>, domains: seq<string>)
    requires Bounded(s.dialog, domains)
    ensures Bounded(Run(s, chunks, domains).dialog, domains)
    decreases |chunks|
  {
    hide BelongsTo, Drain, Held;
    if chunks != [] {
      if !s.dialog.destroyed {
        DrainBounded(s.(buffer := s.buffer + chunks[0]), domains);
      }
      RunBounded(Feed(s, chunks[0], domains), chunks[1..], domains);
    }
  }

  /** Over any connection: at most 8 events, each under a mail domain, and a live session holds at most 1 MiB. */
  lemma ConnectionLimits(chunks: seq<string>, domains: seq<string>)
    ensures var d := Run(Start(domains), chunks, domains).dialog;
      && |d.events| <= 8
      && (forall e <- d.events :: BelongsTo(e.to, domains))
      && (!d.destroyed ==> Held(d.dataLines) <= 1_048_576)
  {
    RunBounded(Start(domains), chunks, domains);
  }

  // ----- every event was asked for -----

  /** The dialog after the given lines have been handled. */
  function After(lines: seq<string>, domains: seq<string>): Dialog {
    if lines == [] then Start(domains).dialog
    else
      var d := After(lines[..|lines| - 1], domains);
      if d.destroyed then d else Line(d, lines[|lines| - 1], domains)
  }

  /** `d` is where some handled lines led, perhaps with the socket gone since. */
  ghost predicate Reached(d: Dialog, lines: seq<string>, domains: seq<string>) {
    d == After(lines, domains) || d == After(lines, domains).(destroyed := true)
  }

  /** The characters that make up the given lines. */
  function Received(lines: seq<string>): string {
    if lines == [] then "" else Received(lines[..|lines| - 1]) + lines[|lines| - 1] + CRLF
  }

  /** Cutting `stream` at each CR LF yields `lines` first. */
  predicate LinesOf(lines: seq<string>, stream: string) {
    Received(lines) <= stream && forall l <- lines :: CrLfFree(l)
  }

  lemma {:induction false} FoundLine(b: string)
    requires FindCrLf(b) >= 0
    ensures var i := FindCrLf(b);
      b[i..i + 2] == CRLF && CrLfFree(b[..i])
    decreases |b|
  {
    if !(b[0] == '\r' && b[1] == '\n') {
      var i := FindCrLf(b[1..]);
      FoundLine(b[1..]);
      assert b[i + 1..i + 3] == b[1..][i..i + 2];
      assert b[..i + 1][1..] == b[1..][..i];
    }
  }

  lemma ReceivedMore(lines: seq<string>, line: string)
    ensures Received(lines + [line]) == Received(lines) + line + CRLF
  {
    assert (lines + [line])[..|lines|] == lines;
  }

  lemma ReachedMore(d: Dialog, lines: seq<string>, line: string, domains: seq<string>)
    requires Reached(d, lines, domains) && !d.destroyed
    ensures Reached(Line(d, line, domains), lines + [line], domains)
  {
    hide Line;
    assert (lines + [line])[..|lines|] == lines;
  }

  lemma {:induction false} DrainReaches(s: State, lines: seq<string>, domains: seq<string>) returns (all: seq<string>)
    requires Reached(s.dialog, lines, domains) && forall l <- lines :: CrLfFree(l)
    ensures Reached(Drain(s, domains).dialog, all, domains) && forall l <- all :: CrLfFree(l)
    ensures Received(all) + Drain(s, domains).buffer == Received(lines) + s.buffer
    decreases |s.buffer|
  {
    hide FindCrLf, Line, CrLfFree, Received, Reached, After;
    var i := FindCrLf(s.buffer);
    if s.dialog.destroyed || i < 0 {
      all := lines;
    } else {
      var line, rest := s.buffer[..i], s.buffer[i + 2..];
      FoundLine(s.buffer);
      ReceivedMore(lines, line);
      ReachedMore(s.dialog, lines, line, domains);
      assert s.buffer == line + CRLF + rest;
      all := DrainReaches(State(Line(s.dialog, line, domains), rest), lines + [line], domains);
    }
  }

  lemma {:induction false} RunReaches(s: State, chunks: seq<string>, lines: seq<string>, domains: seq<string>)
    returns (all: seq<string>)
    requires Reached(s.dialog, lines, domains) && forall l <- lines :: CrLfFree(l)
    ensures Reached(Run(s, chunks, domains).dialog, all, domains)
    ensures LinesOf(all, Received(lines) + s.buffer + Concat(chunks))
    decreases |chunks|
  {
    hide Drain, After, CrLfFree, Received;
    all := lines;
    if chunks != [] {
      var next := Feed(s, chunks[0], domains);
      if next.dialog.destroyed && (s.dialog.destroyed || |s.buffer + chunks[0]| > MAX_MESSAGE_BYTES) {
        DestroyedStays(next, chunks[1..], domains);
      } else {
        var seen := DrainReaches(s.(buffer := s.buffer + chunks[0]), lines, domains);
        all := RunReaches(next, chunks[1..], seen, domains);
        assert Received(seen) + next.buffer + Concat(chunks[1..]) == Received(lines) + s.buffer + Concat(chunks);
      }
    }
  }

  /**
   * Line `i` is a RCPT command naming `a`, which was not pending before it and has been ever since, up to
   * line `k`.
   */
  ghost predicate NamedSince(lines: seq<string>, i: nat, k: nat, a: string, domains: seq<string>) {
    && i < k <= |lines| && RcptAddress(lines[i]) == Some(a)
    && !After(lines[..i], domains).inData && a !in After(lines[..i], domains).rcptTo
    && forall j :: i < j <= k ==> a in After(lines[..j], domains).rcptTo
  }

  lemma NewRecipient(d: Dialog, line: string, a: string, domains: seq<string>)
    requires a in Line(d, line, domains).rcptTo && a !in d.rcptTo
    ensures RcptAddress(line) == Some(a) && !d.inData
  {
    hide VerbOf, RcptAddress, MailArgument, BelongsTo, SenderOf, HostName, MessageEvents, Subject, Unstuff;
  }

  lemma {:induction false} PendingWasNamed(lines: seq<string>, k: nat, a: string, domains: seq<string>)
    requires k <= |lines| && a in After(lines[..k], domains).rcptTo
    ensures exists i :: NamedSince(lines, i, k, a, domains)
    decreases k
  {
    hide Line, RcptAddress;
    if k > 0 {
      assert lines[..k][..k - 1] == lines[..k - 1];
      var d := After(lines[..k - 1], domains);
      if a in d.rcptTo {
        PendingWasNamed(lines, k - 1, a, domains);
        var i :| NamedSince(lines, i, k - 1, a, domains);
        assert NamedSince(lines, i, k, a, domains);
      } else {
        NewRecipient(d, lines[k - 1], a, domains);
        assert NamedSince(lines, k - 1, k, a, domains);
      }
    }
  }

  /** The message that reported `e` ended at line `k`, when the address of `e` was pending. */
  ghost predicate ReportedAt(lines: seq<string>, k: nat, e: Event, domains: seq<string>) {
    && k < |lines| && lines[k] == "." && After(lines[..k], domains).inData
    && e.to in After(lines[..k], domains).rcptTo
    && e in After(lines[..k + 1], domains).events
  }

  lemma {:induction false} MessageEventIsFor(from: string, subject: Option<string>, rcpts: seq<string>,
                                             domains: seq<string>, e: Event)
    requires e in MessageEvents(from, subject, rcpts, domains)
    ensures e.to in rcpts
    decreases |rcpts|
  {
    hide BelongsTo, LocalPart;
    if e in MessageEvents(from, subject, rcpts[..|rcpts| - 1], domains) {
      MessageEventIsFor(from, subject, rcpts[..|rcpts| - 1], domains, e);
    }
  }

  lemma NewEvent(d: Dialog, line: string, e: Event, domains: seq<string>)
    requires e in Line(d, line, domains).events && e !in d.events
    ensures line == "." && d.inData && e.to in d.rcptTo
  {
    hide VerbOf, RcptAddress, MailArgument, BelongsTo, SenderOf, HostName, MessageEvents, Subject, Unstuff;
    if d.inData && line == "." {
      MessageEventIsFor(d.mailFrom, Subject(d.dataLines), d.rcptTo, domains, e);
    }
  }

  lemma {:induction false} EventWasReported(lines: seq<string>, n: nat, e: Event, domains: seq<string>)
    requires n <= |lines| && e in After(lines[..n], domains).events
    ensures exists k :: ReportedAt(lines, k, e, domains)
    decreases n
  {
    hide Line, HostName;
    if n > 0 {
      assert lines[..n][..n - 1] == lines[..n - 1];
      var d := After(lines[..n - 1], domains);
      if e in d.events {
        EventWasReported(lines, n - 1, e, domains);
      } else {
        NewEvent(d, lines[n - 1], e, domains);
        assert ReportedAt(lines, n - 1, e, domains);
      }
    }
  }

  /**
   * Every event of a connection goes back to a line the client sent: a RCPT of its address, with no reset
   * from there to the lone dot that ended its message.
   */
  lemma EventWasAskedFor(chunks: seq<string>, e: Event, domains: seq<string>)
    requires e in Run(Start(domains), chunks, domains).dialog.events
    ensures exists lines, i, k ::
      && LinesOf(lines, Concat(chunks))
      && Reached(Run(Start(domains), chunks, domains).dialog, lines, domains)
      && ReportedAt(lines, k, e, domains) && NamedSince(lines, i, k, e.to, domains)
  {
    assert Reached(Start(domains).dialog, [], domains);
    var lines := RunReaches(Start(domains), chunks, [], domains);
    assert Received([]) + Start(domains).buffer + Concat(chunks) == Concat(chunks);
    hide Run, After, RcptAddress, LinesOf;
    assert lines[..|lines|] == lines;
    EventWasReported(lines, |lines|, e, domains);
    var k :| ReportedAt(lines, k, e, domains);
    PendingWasNamed(lines, k, e.to, domains);
  }
}
