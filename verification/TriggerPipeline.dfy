/**
 Every artifact a token hands out raises an incident of that token's own severity when it is used:
 generation, candidate search, coarse filter and the API's decision fit together.
 */
module TriggerPipeline {
  import opened Options
  import opened Text
  import opened Triggers

  /** The alphabet of `newTokenId`: digits and small letters that are not mistaken for one another. */
  predicate IsIdChar(c: char) {
    '2' <= c <= '9' || ('a' <= c <= 'z' && c !in "ilo")
  }

  predicate IsTokenId(id: string) {
    |id| == 12 && forall c <- id :: IsIdChar(c)
  }

  /**
   * `e` reaches the API as an incident of `id`, and whatever severity was forwarded with it, the API
   * records it with the severity of the token's own type.
   */
  ghost predicate Fires(e: TriggerEvent, t: TokenType, id: string, domains: seq<string>) {
    && id in Candidates(e, domains) && Accepted(e, id)
    && forall tokens: map<string, Token>, s ::
         id in tokens && tokens[id] == Token(t, Active) ==> Decide(tokens, Incident(id, s, e)) == Created(SeverityOf(t))
  }

  lemma FiresWhenMatched(e: TriggerEvent, t: TokenType, id: string, domains: seq<string>)
    requires id != "" && id in Candidates(e, domains) && e.sensor.None?
    requires MatchTrigger(t, e, id) == Some(SeverityOf(t))
    ensures Fires(e, t, id, domains)
  {
    hide MatchTrigger, Candidates;
  }

  // ----- strings -----

  lemma LowerConcat(a: string, b: string)
    ensures ToLower(a + b) == ToLower(a) + ToLower(b)
  {
  }

  lemma LowerId(id: string)
    requires IsTokenId(id)
    ensures ToLower(id) == id
  {
    assert forall c <- id :: LowerChar(c) == c;
  }

  lemma IdFree(id: string, c: char)
    requires IsTokenId(id) && !IsIdChar(c)
    ensures c !in id
  {
  }

  lemma {:induction false} IndexOfSkip(a: string, b: string, c: char)
    requires c !in a
    ensures IndexOf(a + b, c) == |a| + IndexOf(b, c)
    decreases |a|
  {
    if a == "" {
      assert a + b == b;
    } else {
      assert (a + b)[1..] == a[1..] + b;
      IndexOfSkip(a[1..], b, c);
    }
  }

  lemma BeforeSkip(a: string, b: string, c: char)
    requires c !in a
    ensures Before(a + b, c) == a + Before(b, c)
  {
    IndexOfSkip(a, b, c);
  }

  lemma SplitOne(a: string, c: char)
    requires c !in a
    ensures Split(a, c) == [a]
  {
    IndexOfSkip(a, "", c);
    assert a + "" == a;
  }

  lemma SplitHead(a: string, b: string, c: char)
    requires c !in a
    ensures Split(a + [c] + b, c) == [a] + Split(b, c)
  {
    var s := a + [c] + b;
    assert s == a + ([c] + b);
    IndexOfSkip(a, [c] + b, c);
    assert IndexOf([c] + b, c) == 0;
    assert s[..|a|] == a && s[|a| + 1..] == b;
  }

  lemma {:induction false} SplitConcat(a: string, b: string, c: char)
    ensures Split(a + [c] + b, c) == Split(a, c) + Split(b, c)
    decreases |a|
  {
    hide Split, IndexOf;
    var i := IndexOf(a, c);
    if i == |a| {
      SplitOne(a, c);
      SplitHead(a, b, c);
    } else {
      var head, tail := a[..i], a[i + 1..];
      assert a == head + [c] + tail;
      assert a + [c] + b == head + [c] + (tail + [c] + b);
      SplitHead(head, tail + [c] + b, c);
      SplitHead(head, tail, c);
      SplitConcat(tail, b, c);
    }
  }

  // ----- names -----

  /** `s` itself, or `s` with labels in front. */
  predicate Under(name: string, s: string) {
    name == s || DotSuffix(name, s)
  }

  /** Of two names that one name lies under, one lies under the other. */
  lemma DotSuffixes(name: string, s: string, d: string)
    requires Under(name, s)
    ensures DotSuffix(name, d) ==> DotSuffix(s, d) || Under(d, s)
  {
    var n := |name|;
    if DotSuffix(name, d) {
      assert name[n - |s|..] == s;
      if |d| < |s| {
        assert s[|s| - |d| - 1..] == name[n - |d| - 1..];
      } else {
        assert name[n - |d|..] == d;
        assert d[|d| - |s|..] == name[n - |s|..];
        if |d| > |s| {
          assert d[|d| - |s| - 1..] == name[n - |s| - 1..];
        }
      }
    }
  }

  /** The first base domain that has to do with `s` has `s` under it, and is not itself under `s`. */
  predicate OwnedFirst(s: string, domains: seq<string>) {
    if domains == [] then false
    else if DotSuffix(s, domains[0]) then true
    else if Under(domains[0], s) then false
    else OwnedFirst(s, domains[1..])
  }

  lemma LabelFirst(id: string, back: string)
    requires '.' !in id && (back == "" || back[0] == '.')
    ensures id in Split(id + back, '.')
  {
    hide Split;
    if back == "" {
      assert id + back == id;
      SplitOne(id, '.');
    } else {
      assert id + back == id + ['.'] + back[1..];
      SplitHead(id, back[1..], '.');
    }
  }

  lemma LabelFound(front: string, id: string, back: string)
    requires '.' !in id && (front == "" || front[|front| - 1] == '.') && (back == "" || back[0] == '.')
    ensures id in Split(front + id + back, '.')
  {
    hide Split;
    var x := id + back;
    LabelFirst(id, back);
    assert front + id + back == front + x;
    if front == "" {
      assert front + x == x;
    } else {
      assert front + x == front[..|front| - 1] + ['.'] + x;
      SplitConcat(front[..|front| - 1], x, '.');
    }
  }

  lemma NoDotInside(id: string, base: string, d: string)
    requires '.' !in id && DotSuffix(id + "." + base, d)
    ensures |d| <= |base|
  {
    var s := id + "." + base;
    var at := |s| - |d| - 1;
    assert s[at] == s[at..][0] == '.';
    assert forall k | 0 <= k < |id| :: s[k] == id[k] && id[k] in id;
  }

  /** The id is a label in front of whatever domain its own name lies under. */
  lemma IdBeforeDomain(name: string, id: string, base: string, d: string)
    requires '.' !in id && Under(name, id + "." + base) && DotSuffix(id + "." + base, d)
    ensures DotSuffix(name, d) && id in Split(name[..|name| - |d| - 1], '.')
  {
    hide Split;
    var s := id + "." + base;
    var n := |name|;
    NoDotInside(id, base, d);
    assert name[n - |s|..] == s;
    assert name[n - |d| - 1..] == s[|s| - |d| - 1..];
    var at := |s| - |d| - 1;
    var front, back := name[..n - |s|], s[|id|..at];
    assert front != "" ==> name[n - |s| - 1] == name[n - |s| - 1..][0];
    assert s[..at] == id + back;
    assert name[..n - |d| - 1] == front + s[..at];
    assert name[..n - |d| - 1] == front + id + back;
    LabelFound(front, id, back);
  }

  lemma {:induction false} OwnedFound(name: string, id: string, base: string, domains: seq<string>)
    requires '.' !in id && Under(name, id + "." + base) && OwnedFirst(id + "." + base, domains)
    ensures id in Hints(name, domains) && IsOurs(name, domains)
    decreases |domains|
  {
    hide DotSuffix, Under, Split;
    var s, d := id + "." + base, domains[0];
    DotSuffixes(name, s, d);
    if DotSuffix(s, d) {
      IdBeforeDomain(name, id, base, d);
    } else {
      OwnedFound(name, id, base, domains[1..]);
      OursMore(name, domains);
    }
  }

  lemma OursMore(name: string, domains: seq<string>)
    requires domains != [] && IsOurs(name, domains[1..])
    ensures IsOurs(name, domains)
  {
    var d :| d in domains[1..] && (name == d || DotSuffix(name, d));
    assert d in domains;
  }

  /** Where some other base domain gets in first, a name under `s` exists for which the id is not found. */
  lemma {:induction false} NotOwned(id: string, s: string, domains: seq<string>) returns (name: string)
    requires |id| > 1 && !OwnedFirst(s, domains)
    ensures Under(name, s) && id !in Hints(name, domains)
    ensures name == s || exists d <- domains :: name == "x." + d
    decreases |domains|
  {
    hide DotSuffix, Split;
    if domains == [] {
      name := s;
    } else if Under(domains[0], s) {
      name := "x." + domains[0];
      UnderX(domains[0], s);
    } else {
      name := NotOwned(id, s, domains[1..]);
      DotSuffixes(name, s, domains[0]);
    }
  }

  lemma UnderX(d: string, s: string)
    requires Under(d, s)
    ensures Under("x." + d, s) && DotSuffix("x." + d, d)
    ensures Split(("x." + d)[..|"x." + d| - |d| - 1], '.') == ["x"]
  {
    var name := "x." + d;
    assert name[1..] == "." + d;
    assert name[..1] == "x";
    SplitOne("x", '.');
    if d != s {
      assert name[|name| - |s| - 1..] == d[|d| - |s| - 1..];
    }
  }

  /** The id is found under every name below its own exactly when no base domain gets in first. */
  lemma FoundIff(id: string, base: string, domains: seq<string>)
    requires IsTokenId(id)
    ensures (forall name | Under(name, id + "." + base) :: id in Hints(name, domains))
      <==> OwnedFirst(id + "." + base, domains)
  {
    hide Under, Hints, OwnedFirst;
    var s := id + "." + base;
    if OwnedFirst(s, domains) {
      forall name | Under(name, s)
        ensures id in Hints(name, domains)
      {
        OwnedFound(name, id, base, domains);
      }
    } else {
      var name := NotOwned(id, s, domains);
    }
  }

  // ----- resolving the host name -----

  lemma QueryFires(name: string, ctx: Context, t: TokenType, domains: seq<string>)
    requires IsTokenId(ctx.tokenId) && t in {Dns, WindowsFolder}
    requires ctx.tokenId in Hints(QueryName(name), domains) && IsOurs(QueryName(name), domains)
    requires ctx.tokenId in Split(QueryName(name), '.')
    ensures QueryEvent(name, domains).Some? && Fires(QueryEvent(name, domains).value, t, ctx.tokenId, domains)
  {
    hide Hints, QueryName, IsOurs, Fires, IsTokenId, Split;
    NotEmpty(ctx.tokenId);
    FiresWhenMatched(QueryEvent(name, domains).value, t, ctx.tokenId, domains);
  }

  lemma NotEmpty(id: string)
    requires IsTokenId(id)
    ensures id != ""
  {
  }

  lemma LabelOfName(name: string, id: string, base: string)
    requires '.' !in id && Under(name, id + "." + base)
    ensures id in Split(name, '.')
  {
    var s := id + "." + base;
    var front := name[..|name| - |s|];
    assert name[|name| - |s|..] == s;
    assert front != "" ==> name[|name| - |s| - 1] == name[|name| - |s| - 1..][0];
    assert name == front + id + ("." + base);
    LabelFound(front, id, "." + base);
  }

  /** The name the token hands out, as the gateway spells it. */
  function TriggerName(ctx: Context): string {
    ToLower(DefaultHostname(ctx))
  }

  lemma TriggerNameIs(ctx: Context)
    requires IsTokenId(ctx.tokenId)
    ensures TriggerName(ctx) == ctx.tokenId + "." + ToLower(ctx.baseDomain)
  {
    LowerConcat(ctx.tokenId + ".", ctx.baseDomain);
    LowerConcat(ctx.tokenId, ".");
    LowerId(ctx.tokenId);
  }

  predicate IsLower(s: string) {
    ToLower(s) == s
  }

  /**
   * Resolving the host name of a token, in any letter case and with any labels in front, raises its
   * incident: for every such name exactly when no base domain gets in first.
   */
  lemma ResolveFires(t: TokenType, ctx: Context, domains: seq<string>)
    requires IsTokenId(ctx.tokenId) && t in {Dns, WindowsFolder} && forall d <- domains :: IsLower(d)
    ensures Generate(t, ctx)[0] == Artifact(Hostname, DefaultHostname(ctx))
    ensures
      (forall name | Under(QueryName(name), TriggerName(ctx)) ::
        QueryEvent(name, domains).Some? && Fires(QueryEvent(name, domains).value, t, ctx.tokenId, domains))
      <==> OwnedFirst(TriggerName(ctx), domains)
  {
    hide Under, QueryName, TriggerName, OwnedFirst, Fires, QueryEvent, DefaultHostname, IsLower, IsTokenId;
    var id, base := ctx.tokenId, ToLower(ctx.baseDomain);
    TriggerNameIs(ctx);
    IdFree(id, '.');
    if OwnedFirst(TriggerName(ctx), domains) {
      forall name | Under(QueryName(name), TriggerName(ctx))
        ensures QueryEvent(name, domains).Some? && Fires(QueryEvent(name, domains).value, t, id, domains)
      {
        OwnedFound(QueryName(name), id, base, domains);
        LabelOfName(QueryName(name), id, base);
        QueryFires(name, ctx, t, domains);
      }
    } else {
      var name := MissedQuery(ctx, domains);
      assert QueryEvent(name, domains).Some? ==> !Fires(QueryEvent(name, domains).value, t, id, domains) by {
        MissedSilent(name, t, id, domains);
      }
    }
  }

  lemma MissedSilent(name: string, t: TokenType, id: string, domains: seq<string>)
    requires id !in Hints(QueryName(name), domains)
    ensures QueryEvent(name, domains).Some? ==> !Fires(QueryEvent(name, domains).value, t, id, domains)
  {
    hide Hints, QueryName, Accepted, Decide;
  }

  lemma MissedQuery(ctx: Context, domains: seq<string>) returns (query: string)
    requires IsTokenId(ctx.tokenId) && !OwnedFirst(TriggerName(ctx), domains) && forall d <- domains :: IsLower(d)
    ensures Under(QueryName(query), TriggerName(ctx)) && ctx.tokenId !in Hints(QueryName(query), domains)
  {
    hide OwnedFirst, Under, Hints;
    var name := NotOwned(ctx.tokenId, TriggerName(ctx), domains);
    query := name + ".";
    LowerTwice(DefaultHostname(ctx));
    assert IsLower(name) by {
      if name != TriggerName(ctx) {
        var d :| d in domains && name == "x." + d;
        LowerConcat("x.", d);
      }
    }
    DotStripped(name);
  }

  lemma LowerTwice(s: string)
    ensures ToLower(ToLower(s)) == ToLower(s)
  {
  }

  lemma DotStripped(name: string)
    requires IsLower(name)
    ensures QueryName(name + ".") == name
  {
    LowerConcat(name, ".");
    assert ToLower(name + ".") == name + ".";
  }

  // ----- fetching the link -----

  function AfterScheme(url: string): string {
    if IndexOf(url, ':') + 3 <= |url| then url[IndexOf(url, ':') + 3..] else ""
  }

  /** What a client sends for `scheme://authority/target`: the Host header and the request target. */
  function SentFor(url: string): (string, string) {
    var rest := AfterScheme(url);
    (Before(rest, '/'), rest[IndexOf(rest, '/')..])
  }

  /** `scheme://authority` where the authority, whatever its port and letter case, is a base domain. */
  predicate ApexOrigin(origin: string, domains: seq<string>) {
    && StartsWith(origin[IndexOf(origin, ':')..], "://")
    && '/' !in AfterScheme(origin)
    && HostOf(Some(AfterScheme(origin))) in domains
  }

  lemma AfterSchemeLink(origin: string, target: string)
    requires StartsWith(origin[IndexOf(origin, ':')..], "://")
    ensures AfterScheme(origin + target) == AfterScheme(origin) + target
  {
    hide IndexOf;
    var i := IndexOf(origin, ':');
    var scheme, rest := origin[..i], origin[i..];
    assert origin + target == scheme + (rest + target);
    IndexOfSkip(scheme, rest + target, ':');
    assert IndexOf(rest + target, ':') == 0 by {
      assert (rest + target)[0] == ':';
    }
    assert rest[..3] == "://";
    assert (origin + target)[i + 3..] == origin[i + 3..] + target;
  }

  lemma SentForLink(origin: string, target: string, domains: seq<string>)
    requires ApexOrigin(origin, domains) && target != "" && target[0] == '/'
    ensures SentFor(origin + target) == (AfterScheme(origin), target)
  {
    AfterSchemeLink(origin, target);
    var host := AfterScheme(origin);
    hide AfterScheme, HostOf, IndexOf;
    IndexOfSkip(host, target, '/');
    assert IndexOf(target, '/') == 0;
    assert (host + target)[..|host|] == host && (host + target)[|host|..] == target;
  }

  /** The part of a type's link after the id that does not depend on the configuration. */
  function Root(t: TokenType): string {
    match t
    case CustomImage => "image"
    case FastRedirect => "r"
    case QrCode => "qr"
    case SensitiveCmd => "cmd/"
    case SqlInjection => "sqli"
    case ClonedWebsite => "site"
    case AwsKeys => "aws"
    case AzureConfig => "azure"
    case _ => "pixel.gif"
  }

  predicate HandsOutLink(t: TokenType) {
    t !in {Dns, WindowsFolder, Email, Honeypot}
  }

  lemma LinkRoot(t: TokenType, ctx: Context, a: Artifact) returns (tail: string)
    requires HandsOutLink(t) && a in Generate(t, ctx) && a.kind == Url
    ensures a == Link(ctx, Root(t) + tail)
  {
    tail := if t == SensitiveCmd then ctx.cmdName else "";
    hide Link;
    assert a == Generate(t, ctx)[0];
    assert Root(t) + "" == Root(t);
  }

  lemma RuleMatches(t: TokenType, e: TriggerEvent, id: string)
    requires HandsOutLink(t) && PathStarts(e, id, Root(t))
    ensures MatchTrigger(t, e, id) == Some(SeverityOf(t))
  {
    hide PathStarts;
  }

  lemma PathParts(id: string, more: string)
    requires IsTokenId(id)
    ensures FirstSegment("/" + id + "/" + more) == id
    ensures id in Split(Before("/" + id + "/" + more, '?'), '/')
  {
    hide Split, IndexOf;
    IdFree(id, '/');
    IdFree(id, '?');
    NotEmpty(id);
    hide IsTokenId;
    var front := "/" + id + "/";
    BeforeSkip(front, more, '?');
    var cut := Before(more, '?');
    var whole := "" + ['/'] + (id + ['/'] + cut);
    assert front + cut == whole;
    SplitHead("", id + ['/'] + cut, '/');
    SplitHead(id, cut, '/');
    var parts := Split(whole, '/');
    assert parts == ["", id] + Split(cut, '/');
    assert parts[0] == "" && parts[1..][0] == id;
    assert FirstNonEmpty(parts) == FirstNonEmpty(parts[1..]) == id;
  }

  lemma CutPath(id: string, root: string, rest: string) returns (more: string)
    requires IsTokenId(id) && |root| <= 100
    ensures Take("/" + id + "/" + root + rest, 2048) == "/" + id + "/" + root + more
  {
    var front := "/" + id + "/" + root;
    more := Take(rest, 2048 - |front|);
    assert front + rest == "/" + id + "/" + root + rest;
  }

  lemma PathFires(t: TokenType, ctx: Context, host: string, rest: string, domains: seq<string>)
    requires HandsOutLink(t) && IsTokenId(ctx.tokenId) && HostOf(Some(host)) in domains
    ensures var e := RequestEvent(Some(host), "/" + ctx.tokenId + "/" + Root(t) + rest, domains);
      e.Some? && Fires(e.value, t, ctx.tokenId, domains)
  {
    hide HostOf, Hints, Fires, IsTokenId, FirstSegment, Split, MatchTrigger, Before, DotSuffix, HandsOutLink;
    var id, root := ctx.tokenId, Root(t);
    var more := CutPath(id, root, rest);
    PathParts(id, root + more);
    assert "/" + id + "/" + root + more == "/" + id + "/" + (root + more);
    var e := RequestEvent(Some(host), "/" + id + "/" + root + rest, domains).value;
    assert e.http.value.path == "/" + id + "/" + (root + more);
    assert StartsWith(e.http.value.path, "/" + id + "/" + root);
    RuleMatches(t, e, id);
    NotEmpty(id);
    FiresWhenMatched(e, t, id, domains);
  }

  lemma LinkAppended(ctx: Context, root: string, tail: string, appended: string)
    ensures Link(ctx, root + tail).value + appended
      == ctx.gatewayOrigin + ("/" + ctx.tokenId + "/" + root + (tail + appended))
  {
  }

  /** Fetching the link of a token, with any text appended, raises its incident. */
  lemma FetchFires(t: TokenType, ctx: Context, a: Artifact, appended: string, domains: seq<string>)
    requires HandsOutLink(t) && IsTokenId(ctx.tokenId) && ApexOrigin(ctx.gatewayOrigin, domains)
    requires a in Generate(t, ctx) && a.kind == Url
    ensures var (host, target) := SentFor(a.value + appended);
      && RequestEvent(Some(host), target, domains).Some?
      && Fires(RequestEvent(Some(host), target, domains).value, t, ctx.tokenId, domains)
  {
    hide SentFor, RequestEvent, Fires, IsTokenId, HandsOutLink, Generate, Root, Link, AfterScheme, HostOf, IndexOf;
    var tail := LinkRoot(t, ctx, a);
    LinkAppended(ctx, Root(t), tail, appended);
    var target := "/" + ctx.tokenId + "/" + Root(t) + (tail + appended);
    assert target[0] == '/';
    SentForLink(ctx.gatewayOrigin, target, domains);
    PathFires(t, ctx, AfterScheme(ctx.gatewayOrigin), tail + appended, domains);
  }

  /** On any host of ours, a path below an id makes that id a candidate only at the apex or by a host label. */
  lemma CandidateIffApexOrLabel(id: string, more: string, header: string, domains: seq<string>)
    requires IsTokenId(id) && IsOurs(HostOf(Some(header)), domains)
    ensures var e := RequestEvent(Some(header), "/" + id + "/" + more, domains);
      e.Some? && (id in Candidates(e.value, domains) <==>
        HostOf(Some(header)) in domains || id in Hints(HostOf(Some(header)), domains))
  {
    hide HostOf, Hints, IsTokenId, IsOurs, FirstSegment;
    NotEmpty(id);
    var cut := CutPath(id, "", more);
    assert "/" + id + "/" + "" + more == "/" + id + "/" + more;
    assert "/" + id + "/" + "" + cut == "/" + id + "/" + cut;
    PathParts(id, cut);
  }
}
