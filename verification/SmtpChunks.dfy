/**
 How the peer's characters are cut into chunks does not matter to the SMTP session exactly as long as no
 chunk trips the buffer cap.
 */
module SmtpChunks {
  import opened Smtp

  function Concat(chunks: seq<string>): string {
    if chunks == [] then "" else chunks[0] + Concat(chunks[1..])
  }

  /** No chunk of the run makes the buffer longer than the cap. */
  predicate UnderCap(s: State, chunks: seq<string>, domains: seq<string>)
    decreases |chunks|
  {
    chunks == [] || s.dialog.destroyed ||
    (|s.buffer + chunks[0]| <= MAX_MESSAGE_BYTES && UnderCap(Feed(s, chunks[0], domains), chunks[1..], domains))
  }

  /** What can still be observed: characters left over after the socket is gone are never looked at. */
  function Observed(s: State): State {
    if s.dialog.destroyed then s.(buffer := "") else s
  }

  // ----- chunking -----

  lemma {:induction false} FindCrLfInLonger(a: string, b: string)
    requires FindCrLf(a) >= 0
    ensures FindCrLf(a + b) == FindCrLf(a)
    decreases |a|
  {
    if !(a[0] == '\r' && a[1] == '\n') {
      FindCrLfInLonger(a[1..], b);
      assert (a + b)[1..] == a[1..] + b;
    }
  }

  /** Handling what is there first, and the rest when it comes, is handling everything at once. */
  lemma {:induction false} DrainInTwo(s: State, more: string, domains: seq<string>)
    ensures Drain(s.(buffer := s.buffer + more), domains)
         == Drain(Drain(s, domains).(buffer := Drain(s, domains).buffer + more), domains)
    decreases |s.buffer|
  {
    hide Line, FindCrLf;
    var i := FindCrLf(s.buffer);
    if !s.dialog.destroyed && i >= 0 {
      FindCrLfInLonger(s.buffer, more);
      var line, rest := s.buffer[..i], s.buffer[i + 2..];
      assert (s.buffer + more)[..i] == line && (s.buffer + more)[i + 2..] == rest + more;
      DrainInTwo(State(Line(s.dialog, line, domains), rest), more, domains);
    }
  }

  lemma {:induction false} DrainSettles(s: State, domains: seq<string>)
    ensures Drain(Drain(s, domains), domains) == Drain(s, domains)
    decreases |s.buffer|
  {
    hide Line, FindCrLf;
    var i := FindCrLf(s.buffer);
    if !s.dialog.destroyed && i >= 0 {
      DrainSettles(State(Line(s.dialog, s.buffer[..i], domains), s.buffer[i + 2..]), domains);
    }
  }

  /** A run over chunks observes what one pass over their concatenation observes. */
  lemma {:induction false} RunIsOnePass(s: State, chunks: seq<string>, domains: seq<string>)
    requires Drain(s, domains) == s && UnderCap(s, chunks, domains)
    ensures Observed(Run(s, chunks, domains)) == Observed(Drain(s.(buffer := s.buffer + Concat(chunks)), domains))
    decreases |chunks|
  {
    hide Drain;
    if chunks == [] {
      assert s.buffer + "" == s.buffer;
    } else if s.dialog.destroyed {
      DestroyedStays(s, chunks, domains);
      DestroyedDrains(s, domains);
      DestroyedDrains(s.(buffer := s.buffer + Concat(chunks)), domains);
    } else {
      var s1 := s.(buffer := s.buffer + chunks[0]);
      var s2 := Drain(s1, domains);
      DrainSettles(s1, domains);
      RunIsOnePass(s2, chunks[1..], domains);
      DrainInTwo(s1, Concat(chunks[1..]), domains);
      assert s1.buffer + Concat(chunks[1..]) == s.buffer + Concat(chunks);
    }
  }

  lemma DestroyedDrains(s: State, domains: seq<string>)
    requires s.dialog.destroyed
    ensures Drain(s, domains) == s
  {
  }

  lemma {:induction false} DestroyedStays(s: State, chunks: seq<string>, domains: seq<string>)
    requires s.dialog.destroyed
    ensures Run(s, chunks, domains) == s
    decreases |chunks|
  {
    if chunks != [] {
      DestroyedStays(s, chunks[1..], domains);
    }
  }

  /**
   * Same replies, same events and same final state for every way of cutting one character stream,
   * cuts inside CR LF included.
   */
  lemma ChunkingDoesNotMatter(xs: seq<string>, ys: seq<string>, domains: seq<string>)
    requires Concat(xs) == Concat(ys)
    requires UnderCap(Start(domains), xs, domains) && UnderCap(Start(domains), ys, domains)
    ensures Observed(Run(Start(domains), xs, domains)) == Observed(Run(Start(domains), ys, domains))
  {
    RunIsOnePass(Start(domains), xs, domains);
    RunIsOnePass(Start(domains), ys, domains);
  }

  lemma {:induction false} DrainShrinks(s: State, domains: seq<string>)
    ensures |Drain(s, domains).buffer| <= |s.buffer|
    decreases |s.buffer|
  {
    hide Line, FindCrLf;
    var i := FindCrLf(s.buffer);
    if !s.dialog.destroyed && i >= 0 {
      DrainShrinks(State(Line(s.dialog, s.buffer[..i], domains), s.buffer[i + 2..]), domains);
    }
  }

  /** A stream no longer than the cap can be cut in any way. */
  lemma {:induction false} ShortStreamUnderCap(s: State, chunks: seq<string>, domains: seq<string>)
    requires |s.buffer| + |Concat(chunks)| <= 1_048_576
    ensures UnderCap(s, chunks, domains)
    decreases |chunks|
  {
    hide Drain;
    if chunks != [] && !s.dialog.destroyed {
      DrainShrinks(s.(buffer := s.buffer + chunks[0]), domains);
      ShortStreamUnderCap(Feed(s, chunks[0], domains), chunks[1..], domains);
    }
  }

  /** `n` blank lines, one chunk each. */
  function BlankLines(n: nat): seq<string> {
    if n == 0 then [] else [CRLF] + BlankLines(n - 1)
  }

  lemma {:induction false} BlankLinesLength(n: nat)
    ensures |Concat(BlankLines(n))| == 2 * n
  {
    if n > 0 {
      BlankLinesLength(n - 1);
      assert BlankLines(n)[1..] == BlankLines(n - 1);
    }
  }

  lemma {:induction false} BlankLinesSurvive(s: State, n: nat, domains: seq<string>)
    requires s.buffer == "" && !s.dialog.destroyed && !s.dialog.inData
    ensures !Run(s, BlankLines(n), domains).dialog.destroyed
    decreases n
  {
    if n > 0 {
      var s1 := s.(buffer := s.buffer + CRLF);
      assert s1.buffer == CRLF;
      assert FindCrLf(CRLF) == 0;
      assert CRLF[..0] == "" && CRLF[2..] == "";
      var s2 := Feed(s, CRLF, domains);
      assert FindCrLf("") == -1;
      assert s2 == Drain(s1, domains) == Drain(State(Line(s.dialog, CRLF[..0], domains), CRLF[2..]), domains);
      assert s2 == State(Line(s.dialog, "", domains), "");
      assert VerbOf("") == Unknown;
      BlankLinesSurvive(s2, n - 1, domains);
      assert BlankLines(n)[1..] == BlankLines(n - 1);
    }
  }

  /** Past the cap the cutting does matter: blank lines one by one are answered, all at once they end the session. */
  lemma CappedChunkingMatters(domains: seq<string>)
    ensures exists xs, ys ::
      && Concat(xs) == Concat(ys)
      && Observed(Run(Start(domains), xs, domains)) != Observed(Run(Start(domains), ys, domains))
  {
    var n := 524289;
    var xs := BlankLines(n);
    var ys := [Concat(xs)];
    BlankLinesLength(n);
    BlankLinesSurvive(Start(domains), n, domains);
    hide Drain, BlankLines;
    var s := Start(domains);
    assert ys[1..] == [];
    assert Concat(ys) == Concat(xs) + "" == Concat(xs);
    assert |s.buffer + Concat(xs)| > MAX_MESSAGE_BYTES;
    assert Run(s, ys, domains) == Run(Feed(s, Concat(xs), domains), [], domains) == Feed(s, Concat(xs), domains);
    assert Feed(s, Concat(xs), domains).dialog.destroyed;
  }

  // ----- exactly when chunking matters -----

  lemma SayReplies(d: Dialog, text: string)
    ensures |Say(d, text).replies| == |d.replies| + 1 && Say(d, text).destroyed == d.destroyed
  {
  }

  lemma MailReplies(d: Dialog, line: string)
    ensures |MailCommand(d, line).replies| == |d.replies| + 1 && MailCommand(d, line).destroyed == d.destroyed
  {
    hide MailArgument, SenderOf;
  }

  lemma RcptReplies(d: Dialog, line: string, domains: seq<string>)
    ensures |RcptCommand(d, line, domains).replies| == |d.replies| + 1
    ensures RcptCommand(d, line, domains).destroyed == d.destroyed
  {
    hide RcptAddress, BelongsTo;
  }

  lemma CommandReplies(d: Dialog, line: string, domains: seq<string>)
    ensures |Command(d, line, domains).replies| == |d.replies| + 1
    ensures Command(d, line, domains).destroyed == d.destroyed
  {
    MailReplies(d, line);
    RcptReplies(d, line, domains);
    assert |Reset(d).replies| == |d.replies| && Reset(d).destroyed == d.destroyed;
    hide VerbOf, HostName, MailCommand, RcptCommand, Say, Reset;
    match VerbOf(line) {
      case Ehlo => SayReplies(d, "250-" + HostName(domains) + "\r\n250 SIZE 1048576");
      case Data =>
        if d.rcptTo == [] {
          SayReplies(d, "554 No valid recipients");
        } else {
          SayReplies(d.(inData := true), "354 End data with <CR><LF>.<CR><LF>");
        }
      case Rset => SayReplies(Reset(d), "250 OK");
      case Quit => SayReplies(d, "221 Bye");
      case Unknown => SayReplies(d, "502 Command not implemented");
      case _ => SayReplies(d, "250 OK");
    }
  }

  /** A line takes no reply back, and one that ends the session is answered. */
  lemma LineReplies(d: Dialog, line: string, domains: seq<string>)
    ensures |Line(d, line, domains).replies| >= |d.replies|
    ensures Line(d, line, domains).destroyed && !d.destroyed ==> |Line(d, line, domains).replies| > |d.replies|
  {
    hide Command, Subject, MessageEvents, Unstuff;
    CommandReplies(d, line, domains);
  }

  lemma {:induction false} DrainReplies(s: State, domains: seq<string>)
    ensures |Drain(s, domains).dialog.replies| >= |s.dialog.replies|
    ensures Drain(s, domains).dialog.destroyed && !s.dialog.destroyed ==>
      |Drain(s, domains).dialog.replies| > |s.dialog.replies|
    decreases |s.buffer|
  {
    hide Line, FindCrLf;
    var i := FindCrLf(s.buffer);
    if !s.dialog.destroyed && i >= 0 {
      LineReplies(s.dialog, s.buffer[..i], domains);
      DrainReplies(State(Line(s.dialog, s.buffer[..i], domains), s.buffer[i + 2..]), domains);
    }
  }

  /** A tripped cap ends the session without a word, which one pass over everything never does there. */
  lemma {:induction false} CapShows(s: State, chunks: seq<string>, domains: seq<string>)
    requires Drain(s, domains) == s && !UnderCap(s, chunks, domains)
    ensures Observed(Run(s, chunks, domains)) != Observed(Drain(s.(buffer := s.buffer + Concat(chunks)), domains))
    decreases |chunks|
  {
    hide Drain;
    var s1 := s.(buffer := s.buffer + chunks[0]);
    if |s1.buffer| > MAX_MESSAGE_BYTES {
      DestroyedStays(Feed(s, chunks[0], domains), chunks[1..], domains);
      DrainReplies(s.(buffer := s.buffer + Concat(chunks)), domains);
    } else {
      DrainSettles(s1, domains);
      CapShows(Drain(s1, domains), chunks[1..], domains);
      DrainInTwo(s1, Concat(chunks[1..]), domains);
      assert s1.buffer + Concat(chunks[1..]) == s.buffer + Concat(chunks);
    }
  }

  /** Against a cutting that stays under the cap, another one of the stream is told apart exactly when it trips it. */
  lemma ChunkingMattersIff(xs: seq<string>, ys: seq<string>, domains: seq<string>)
    requires Concat(xs) == Concat(ys) && UnderCap(Start(domains), xs, domains)
    ensures Observed(Run(Start(domains), xs, domains)) == Observed(Run(Start(domains), ys, domains))
      <==> UnderCap(Start(domains), ys, domains)
  {
    var s := Start(domains);
    assert FindCrLf("") == -1 && Drain(s, domains) == s;
    hide Drain, Run, UnderCap, Observed;
    RunIsOnePass(s, xs, domains);
    if UnderCap(s, ys, domains) {
      RunIsOnePass(s, ys, domains);
    } else {
      CapShows(s, ys, domains);
    }
  }
}
