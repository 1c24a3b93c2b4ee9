/**
 The SMTP ingest session of `apps/gateway/src/smtp.ts`: what one line does, what one chunk does,
 and the session object whose data handler is proved to do exactly that.
 */
module Smtp {
  import opened Options
  import opened Text

  const MAX_MESSAGE_BYTES := 1024 * 1024
  const MAX_RCPT := 8
  const CRLF := "\r\n"

  datatype Event = Event(tokenHint: string, from: string, to: string, subject: Option<string>)

  /** The variables of one dialog, and what the peer and the gateway have been told so far. */
  datatype Dialog = Dialog(
    inData: bool,
    dataBytes: nat,
    dataLines: seq<string>,
    rcptTo: seq<string>,
    mailFrom: string,
    rcptCount: nat,
    destroyed: bool,
    replies: seq<string>,
    events: seq<Event>)

  /** A connection: the dialog, and the characters received but not yet handled. */
  datatype State = State(dialog: Dialog, buffer: string)

  // ----- the pieces of a command line -----

  function HostName(domains: seq<string>): string {
    if domains == [] then "localhost" else domains[0]
  }

  predicate BelongsTo(addr: string, domains: seq<string>) {
    exists d <- domains :: EndsWith(addr, "@" + d)
  }

  function LocalPart(addr: string): string {
    Before(addr, '@')
  }

  /** `\s*<([^>]*)>` at the start of `s`: the bracketed text and what follows it. */
  function Bracketed(s: string): Option<(string, string)> {
    var t := TrimStart(s);
    if t == "" || t[0] != '<' then None
    else
      var i := IndexOf(t, '>');
      if i == |t| then None else Some((t[1..i], t[i + 1..]))
  }

  datatype Verb = Helo | Ehlo | Mail | Rcpt | Data | Rset | Noop | Quit | Unknown

  /** The first four characters, in any case, decide. */
  function VerbOf(line: string): Verb {
    var verb := ToUpper(Take(line, 4));
    if verb == "HELO" then Helo
    else if verb == "EHLO" then Ehlo
    else if verb == "MAIL" then Mail
    else if verb == "RCPT" then Rcpt
    else if verb == "DATA" then Data
    else if verb == "RSET" then Rset
    else if verb == "NOOP" then Noop
    else if verb == "QUIT" then Quit
    else Unknown
  }

  const MAIL_FROM := "MAIL FROM:"
  const RCPT_TO := "RCPT TO:"

  function MailArgument(line: string): Option<(string, string)> {
    if StartsWithNoCase(line, MAIL_FROM) then Bracketed(line[|MAIL_FROM|..]) else None
  }

  /**
   * The sender a MAIL line leaves behind. The replacement pattern ends in `.*$`, which stops at a
   * bare line end; then nothing is replaced and the whole line is kept.
   */
  function SenderOf(line: string, arg: (string, string)): string {
    if exists c <- arg.1 :: IsLineEnd(c) then line else arg.0
  }

  /** The address a RCPT line names. */
  function RcptAddress(line: string): Option<string> {
    if !StartsWithNoCase(line, RCPT_TO) then None
    else
      match Bracketed(line[|RCPT_TO|..])
      case None => None
      case Some(arg) => Some(ToLower(arg.0))
  }

  // ----- one line -----

  function Say(s: Dialog, text: string): Dialog {
    s.(replies := s.replies + [text])
  }

  /** `rcptCount` survives a reset: it counts over the whole connection. */
  function Reset(s: Dialog): Dialog {
    s.(inData := false, dataBytes := 0, dataLines := [], rcptTo := [], mailFrom := "")
  }

  function Subject(lines: seq<string>): Option<string> {
    if lines == [] then None
    else if StartsWithNoCase(lines[0], "SUBJECT:") then Some(Take(Trim(lines[0][8..]), 200))
    else Subject(lines[1..])
  }

  /** One event for every recipient under a mail domain, in order. */
  function MessageEvents(from: string, subject: Option<string>, rcpts: seq<string>, domains: seq<string>): seq<Event> {
    if rcpts == [] then []
    else
      var front, to := rcpts[..|rcpts| - 1], rcpts[|rcpts| - 1];
      MessageEvents(from, subject, front, domains) +
      (if BelongsTo(to, domains) then [Event(LocalPart(to), from, to, subject)] else [])
  }

  lemma NoRecipients(from: string, subject: Option<string>, domains: seq<string>)
    ensures MessageEvents(from, subject, [], domains) == []
  {
  }

  lemma NextRecipient(from: string, subject: Option<string>, rcpts: seq<string>, k: nat, domains: seq<string>)
    requires k < |rcpts|
    ensures MessageEvents(from, subject, rcpts[..k + 1], domains)
      == MessageEvents(from, subject, rcpts[..k], domains)
           + if BelongsTo(rcpts[k], domains) then [Event(LocalPart(rcpts[k]), from, rcpts[k], subject)] else []
  {
    hide BelongsTo, LocalPart;
    assert rcpts[..k + 1][..k] == rcpts[..k];
  }

  function Finish(s: Dialog, domains: seq<string>): Dialog {
    Say(Reset(s.(events := s.events + MessageEvents(s.mailFrom, Subject(s.dataLines), s.rcptTo, domains))), "250 OK")
  }

  function Unstuff(line: string): string {
    if StartsWith(line, "..") then line[1..] else line
  }

  function DataLine(s: Dialog, line: string, domains: seq<string>): Dialog {
    if line == "." then Finish(s, domains)
    else
      var s1 := s.(dataBytes := s.dataBytes + |line| + 2);
      if s1.dataBytes > MAX_MESSAGE_BYTES then Say(s1, "552 Message too large").(destroyed := true)
      else s1.(dataLines := s1.dataLines + [Unstuff(line)])
  }

  function MailCommand(s: Dialog, line: string): Dialog {
    match MailArgument(line)
    case None => Say(s, "501 Syntax error")
    case Some(arg) =>
      if s.mailFrom != "" || |s.rcptTo| > 0 then Say(s, "503 Nested MAIL command")
      else Say(s.(mailFrom := SenderOf(line, arg), rcptTo := []), "250 OK")
  }

  function RcptCommand(s: Dialog, line: string, domains: seq<string>): Dialog {
    match RcptAddress(line)
    case None => Say(s, "501 Syntax error")
    case Some(addr) =>
      var s1 := s.(rcptCount := s.rcptCount + 1);
      if s1.rcptCount > MAX_RCPT then Say(s1, "452 Too many recipients")
      else if !BelongsTo(addr, domains) then Say(s1, "250 OK")
      else Say(s1.(rcptTo := s1.rcptTo + [addr]), "250 OK")
  }

  function Command(s: Dialog, line: string, domains: seq<string>): Dialog {
    match VerbOf(line)
    case Helo => Say(s, "250 OK")
    case Ehlo => Say(s, "250-" + HostName(domains) + "\r\n250 SIZE 1048576")
    case Mail => MailCommand(s, line)
    case Rcpt => RcptCommand(s, line, domains)
    case Data =>
      if s.rcptTo == [] then Say(s, "554 No valid recipients")
      else Say(s.(inData := true), "354 End data with <CR><LF>.<CR><LF>")
    case Rset => Say(Reset(s), "250 OK")
    case Noop => Say(s, "250 OK")
    case Quit => Say(s, "221 Bye")
    case Unknown => Say(s, "502 Command not implemented")
  }

  function Line(s: Dialog, line: string, domains: seq<string>): Dialog {
    if s.inData then DataLine(s, line, domains) else Command(s, line, domains)
  }

  // ----- one chunk, and a whole connection -----

  /** Where the first CR LF starts, or -1. */
  function FindCrLf(b: string): (i: int)
    ensures -1 <= i && (i >= 0 ==> i + 2 <= |b|)
  {
    if |b| < 2 then -1
    else if b[0] == '\r' && b[1] == '\n' then 0
    else
      var i := FindCrLf(b[1..]);
      if i < 0 then -1 else i + 1
  }

  /** Every complete line in the buffer is handled, until none is left or the socket is gone. */
  function Drain(s: State, domains: seq<string>): State
    decreases |s.buffer|
  {
    var i := FindCrLf(s.buffer);
    if s.dialog.destroyed || i < 0 then s
    else Drain(State(Line(s.dialog, s.buffer[..i], domains), s.buffer[i + 2..]), domains)
  }

  function Feed(s: State, chunk: string, domains: seq<string>): State {
    if s.dialog.destroyed then s
    else
      var s1 := s.(buffer := s.buffer + chunk);
      if |s1.buffer| > MAX_MESSAGE_BYTES then s1.(dialog := s.dialog.(destroyed := true))
      else Drain(s1, domains)
  }

  function Run(s: State, chunks: seq<string>, domains: seq<string>): State
    decreases |chunks|
  {
    if chunks == [] then s else Run(Feed(s, chunks[0], domains), chunks[1..], domains)
  }

  function Start(domains: seq<string>): State {
    State(Dialog(false, 0, [], [], "", 0, false, ["220 " + HostName(domains) + " f0_deception SMTP ready"], []), "")
  }

  // ----- the session object -----

  class Session {
    const domains: seq<string>
    var buffer: string
    var inData: bool
    var dataBytes: nat
    var dataLines: seq<string>
    var rcptTo: seq<string>
    var mailFrom: string
    var rcptCount: nat
    var destroyed: bool
    /** What has been written to the socket and handed to `onEvent`. */
    var replies: seq<string>
    var events: seq<Event>

    function Talk(): Dialog
      reads this
    {
      Dialog(inData, dataBytes, dataLines, rcptTo, mailFrom, rcptCount, destroyed, replies, events)
    }

    function Now(): State
      reads this
    {
      State(Talk(), buffer)
    }

    constructor (domains: seq<string>)
      ensures Now() == Start(domains) && this.domains == domains
      ensures !destroyed && !inData && buffer == mailFrom == "" && dataLines == rcptTo == [] && events == []
      ensures var host := if domains == [] then "localhost" else domains[0];
        replies == ["220 " + host + " f0_deception SMTP ready"]
      ensures dataBytes == rcptCount == 0
    {
      this.domains := domains;
      buffer, inData, dataBytes, dataLines := "", false, 0, [];
      rcptTo, mailFrom, rcptCount, destroyed := [], "", 0, false;
      events := [];
      replies := ["220 " + HostName(domains) + " f0_deception SMTP ready"];
    }

    method Reply(text: string)
      modifies this`replies
      ensures Talk() == Say(old(Talk()), text)
    {
      replies := replies + [text];
    }

    method ResetMessage()
      modifies this
      ensures buffer == old(buffer) && Talk() == Reset(old(Talk()))
    {
      inData := false;
      dataBytes := 0;
      dataLines := [];
      rcptTo := [];
      mailFrom := "";
    }

    method FinishMessage()
      modifies this
      ensures buffer == old(buffer) && Talk() == Finish(old(Talk()), domains)
    {
      hide Subject, LocalPart, BelongsTo, MessageEvents;
      var subject := Subject(dataLines);
      ghost var s := Talk();
      NoRecipients(mailFrom, subject, domains);
      for k := 0 to |rcptTo|
        invariant buffer == old(buffer) && rcptTo == s.rcptTo
        invariant Talk() == s.(events := s.events + MessageEvents(mailFrom, subject, rcptTo[..k], domains))
      {
        var to := rcptTo[k];
        NextRecipient(mailFrom, subject, rcptTo, k, domains);
        if BelongsTo(to, domains) {
          events := events + [Event(LocalPart(to), mailFrom, to, subject)];
        }
      }
      assert rcptTo[..|rcptTo|] == rcptTo;
      ResetMessage();
      Reply("250 OK");
    }

    method OnDataLine(line: string)
      modifies this
      ensures buffer == old(buffer) && Talk() == DataLine(old(Talk()), line, domains)
    {
      if line == "." {
        FinishMessage();
        return;
      }
      dataBytes := dataBytes + |line| + 2;
      if dataBytes > MAX_MESSAGE_BYTES {
        Reply("552 Message too large");
        destroyed := true;
        return;
      }
      dataLines := dataLines + [if StartsWith(line, "..") then line[1..] else line];
    }

    method OnCommand(line: string)
      modifies this
      ensures buffer == old(buffer) && Talk() == Command(old(Talk()), line, domains)
    {
      hide VerbOf, HostName, MailArgument, RcptAddress, SenderOf, BelongsTo;
      match VerbOf(line) {
        case Helo =>
          Reply("250 OK");
        case Ehlo =>
          Reply("250-" + HostName(domains) + "\r\n250 SIZE 1048576");
        case Mail =>
          var arg := MailArgument(line);
          if arg.None? {
            Reply("501 Syntax error");
            return;
          }
          if mailFrom != "" || |rcptTo| > 0 {
            Reply("503 Nested MAIL command");
            return;
          }
          mailFrom := SenderOf(line, arg.value);
          rcptTo := [];
          Reply("250 OK");
        case Rcpt =>
          var addr := RcptAddress(line);
          if addr.None? {
            Reply("501 Syntax error");
            return;
          }
          rcptCount := rcptCount + 1;
          if rcptCount > MAX_RCPT {
            Reply("452 Too many recipients");
            return;
          }
          if !BelongsTo(addr.value, domains) {
            Reply("250 OK");
            return;
          }
          rcptTo := rcptTo + [addr.value];
          Reply("250 OK");
        case Data =>
          if |rcptTo| == 0 {
            Reply("554 No valid recipients");
            return;
          }
          inData := true;
          Reply("354 End data with <CR><LF>.<CR><LF>");
        case Rset =>
          ResetMessage();
          Reply("250 OK");
        case Noop =>
          Reply("250 OK");
        case Quit =>
          Reply("221 Bye");
        case Unknown =>
          Reply("502 Command not implemented");
      }
    }

    /** The data handler of the socket. */
    method OnData(chunk: string)
      modifies this
      ensures Now() == Feed(old(Now()), chunk, domains)
      // too much held without a line end, and the socket is gone without a word
      ensures !old(destroyed) && |old(buffer)| + |chunk| > 1_048_576 ==> Talk() == old(Talk()).(destroyed := true)
    {
      if destroyed {
        return;
      }
      buffer := buffer + chunk;
      if |buffer| > MAX_MESSAGE_BYTES {
        destroyed := true;
        return;
      }
      ghost var s := Now();
      while !destroyed
        invariant Drain(Now(), domains) == Drain(s, domains)
        decreases |buffer|
      {
        var idx := FindCrLf(buffer);
        if idx == -1 {
          break;
        }
        var line := buffer[..idx];
        buffer := buffer[idx + 2..];
        if inData {
          OnDataLine(line);
        } else {
          OnCommand(line);
        }
      }
    }
  }
}
