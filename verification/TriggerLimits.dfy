/**
 What the trigger pipeline rests on and where it stops: the severity an incident can get, what each rule comes
 down to, two programs reading one setting, and one path that is served in silence.
 */
module TriggerLimits {
  import opened Options
  import opened Text
  import opened TriggerPipeline
  import opened Triggers
  import Smtp

  // ----- severities -----

  lemma RuleSeverity(t: TokenType, e: TriggerEvent, id: string)
    ensures MatchTrigger(t, e, id).Some? ==> t != Honeypot && MatchTrigger(t, e, id).value == SeverityOf(t)
  {
    hide PathStarts, PathIs, EventMentionsToken, Split, Includes, Before;
  }

  /** An incident made from a gateway event has the severity of the token's own type, whatever was forwarded. */
  lemma GatewaySeverityIsOwn(tokens: map<string, Token>, i: Incident, s: Severity)
    requires i.event.sensor.None? || i.event.sensor.value == ""
    ensures Decide(tokens, i.(severity := s)) == Decide(tokens, i)
    ensures Decide(tokens, i).Created? ==>
      && i.tokenId in tokens && tokens[i.tokenId].status == Active
      && tokens[i.tokenId].kind != Honeypot
      && Decide(tokens, i).severity
           == if tokens[i.tokenId].kind in {WebBug, CustomImage, FastRedirect} then Medium else High
  {
    hide MatchTrigger;
    if i.tokenId in tokens {
      RuleSeverity(tokens[i.tokenId].kind, i.event, i.tokenId);
    }
  }

  // ----- what each rule comes down to -----

  lemma {:induction false} HintsAreLabels(name: string, domains: seq<string>, id: string)
    requires id in Hints(name, domains)
    ensures id in Split(name, '.')
    decreases |domains|
  {
    hide Split;
    var d := domains[0];
    if DotSuffix(name, d) {
      var front := name[..|name| - |d| - 1];
      assert name[|name| - |d| - 1..] == "." + d;
      assert name == front + ['.'] + d;
      SplitConcat(front, d, '.');
    } else {
      HintsAreLabels(name, domains[1..], id);
    }
  }

  /** A lookup raises the incident of a host name exactly when the id is a label of the name. */
  lemma NameRuleExact(t: TokenType, name: string, id: string, domains: seq<string>)
    requires t in {Dns, WindowsFolder} && IsTokenId(id) && IsOurs(QueryName(name), domains)
    ensures MatchTrigger(t, QueryEvent(name, domains).value, id).Some? <==> id in Split(QueryName(name), '.')
  {
    hide Split, QueryName, IsOurs, Hints, IsTokenId;
    NotEmpty(id);
    var hints := Hints(QueryName(name), domains);
    if FirstOf(hints) == id {
      assert id == hints[0];
      HintsAreLabels(QueryName(name), domains, id);
    }
  }

  /** A message raises the incident of an address exactly when the id is all of its local part. */
  lemma MailRuleExact(e: Smtp.Event, id: string)
    requires IsTokenId(id) && e.tokenHint == Smtp.LocalPart(e.to)
    ensures MatchTrigger(Email, MailEvent(e), id).Some? <==> Smtp.LocalPart(e.to) == id
  {
    assert id[0..] == id;
    assert StartsWith(id[0..], id);
  }

  /** A request raises the incident of a link exactly when its path starts like the link. */
  lemma LinkRuleExact(t: TokenType, e: TriggerEvent, id: string)
    requires HandsOutLink(t) && IsTokenId(id) && HttpOf(e).Some?
    ensures var path, front := HttpOf(e).value.path, "/" + id + "/";
      MatchTrigger(t, e, id).Some? <==>
        || StartsWith(path, front + Root(t))
        || (t == ClonedWebsite && StartsWith(path, front + "pixel.gif"))
        || (t == SensitiveCmd && path == front + "cmd")
  {
    hide IsTokenId, EventMentionsToken;
    MentionedByPath(e, id, Root(t));
    MentionedByPath(e, id, "pixel.gif");
    MentionedByPath(e, id, "cmd");
    var path := HttpOf(e).value.path;
    assert path == "/" + id + "/" + "cmd" ==> StartsWith(path, "/" + id + "/" + "cmd") by {
      assert path[..|path|] == path;
    }
  }

  /** A path that starts with the id names it, so that test of the rule decides nothing. */
  lemma MentionedByPath(e: TriggerEvent, id: string, action: string)
    requires IsTokenId(id) && HttpOf(e).Some?
    ensures StartsWith(HttpOf(e).value.path, "/" + id + "/" + action) ==> EventMentionsToken(e, id)
  {
    hide IsTokenId, Split, Before;
    var path, front := HttpOf(e).value.path, "/" + id + "/";
    if StartsWith(path, front + action) {
      assert (front + action)[..|front|] == front;
      assert path == front + path[|front|..];
      PathParts(id, path[|front|..]);
    }
  }

  // ----- one setting, two readers -----

  lemma {:induction false} NoEmptyDomain(parts: seq<string>)
    ensures "" !in CleanDomains(parts)
    decreases |parts|
  {
    hide ToLower, Trim;
    if parts != [] {
      NoEmptyDomain(parts[1..]);
    }
  }

  lemma DefaultLower()
    ensures ToLower(DEFAULT_DOMAIN) == DEFAULT_DOMAIN
  {
    LowerConcat("tokens.", "example.com");
    LowerConcat("example", ".com");
    assert ToLower("tokens.") == "tokens." && ToLower("example") == "example" && ToLower(".com") == ".com";
  }

  lemma DefaultTrimmed()
    ensures Trim(DEFAULT_DOMAIN) == DEFAULT_DOMAIN
  {
    hide IsSpace;
    LettersAreNoSpace();
    assert DEFAULT_DOMAIN[0] == 't' && DEFAULT_DOMAIN[|DEFAULT_DOMAIN| - 1] == 'm';
  }

  lemma LettersAreNoSpace()
    ensures !IsSpace('t') && !IsSpace('m')
  {
  }

  lemma DefaultClean()
    ensures Split(DEFAULT_DOMAIN, ',') == [DEFAULT_DOMAIN]
    ensures Trim(DEFAULT_DOMAIN) == DEFAULT_DOMAIN && ToLower(DEFAULT_DOMAIN) == DEFAULT_DOMAIN
  {
    hide Trim, ToLower, Split;
    DefaultLower();
    DefaultTrimmed();
    SplitOne(DEFAULT_DOMAIN, ',');
  }

  /** The API's base domain is one of the gateway's, the first one, exactly when it is not empty. */
  lemma DomainsAgree(setting: Option<string>)
    ensures ToLower(ApiDomain(setting)) in GatewayDomains(setting) <==> ApiDomain(setting) != ""
    ensures ApiDomain(setting) != "" ==> ToLower(ApiDomain(setting)) == FirstOf(GatewayDomains(setting))
  {
    hide Trim, Split;
    DefaultClean();
    var parts := Split(if setting.Some? then setting.value else DEFAULT_DOMAIN, ',');
    NoEmptyDomain(parts);
    assert ApiDomain(setting) == Trim(parts[0]);
    hide ToLower, ApiDomain;
    assert |ToLower(ApiDomain(setting))| == |ApiDomain(setting)|;
  }

  /** Without a gateway origin set, the links the API builds lead to the gateway's apex. */
  lemma DefaultOriginIsApex(setting: Option<string>)
    requires ApiDomain(setting) != "" && '/' !in ApiDomain(setting) && ':' !in ApiDomain(setting)
    ensures ApexOrigin("https://" + ApiDomain(setting), GatewayDomains(setting))
  {
    var d := ApiDomain(setting);
    DomainsAgree(setting);
    hide ApiDomain, GatewayDomains, IndexOf;
    var origin := "https://" + d;
    IndexOfSkip("https", "://" + d, ':');
    assert origin == "https" + ("://" + d);
    assert IndexOf("://" + d, ':') == 0 by {
      assert ("://" + d)[0] == ':';
    }
    assert origin[5..][..3] == "://" && origin[8..] == d;
    NoColonLower(d);
    BeforeSkip(ToLower(d), "", ':');
    assert ToLower(d) + "" == ToLower(d);
  }

  lemma NoColonLower(d: string)
    requires ':' !in d
    ensures ':' !in ToLower(d)
  {
    forall c <- ToLower(d)
      ensures c != ':'
    {
      var i :| 0 <= i < |d| && LowerChar(d[i]) == c;
      assert d[i] in d;
    }
  }

  /** So with one setting and no origin of its own, every link of every token fires. */
  lemma SettingSuffices(t: TokenType, ctx: Context, a: Artifact, appended: string, setting: Option<string>)
    requires HandsOutLink(t) && IsTokenId(ctx.tokenId) && a in Generate(t, ctx) && a.kind == Url
    requires ApiDomain(setting) != "" && '/' !in ApiDomain(setting) && ':' !in ApiDomain(setting)
    requires ctx.gatewayOrigin == "https://" + ApiDomain(setting)
    ensures var (host, target) := SentFor(a.value + appended);
      var domains := GatewayDomains(setting);
      && RequestEvent(Some(host), target, domains).Some?
      && Fires(RequestEvent(Some(host), target, domains).value, t, ctx.tokenId, domains)
  {
    hide ApiDomain, GatewayDomains, ApexOrigin, Generate, SentFor, RequestEvent, Fires;
    DefaultOriginIsApex(setting);
    FetchFires(t, ctx, a, appended, GatewayDomains(setting));
  }

  // ----- served in silence -----

  function NonEmpty(parts: seq<string>): seq<string> {
    if parts == [] then [] else (if parts[0] == "" then [] else [parts[0]]) + NonEmpty(parts[1..])
  }

  /** The responder answers a request for `action` of `id`. */
  predicate Serves(path: string, id: string, action: string) {
    var segments := NonEmpty(Split(Before(path, '?'), '/'));
    |segments| >= 2 && segments[0] == id && segments[1] == action
  }

  lemma BeforeNothing(s: string, c: char)
    ensures Before(s, c) == "" <==> s == "" || s[0] == c
  {
  }

  lemma FirstPart(s: string, c: char)
    ensures Split(s, c)[0] == Before(s, c)
  {
  }

  lemma ServesCommand(id: string, rest: string)
    requires IsTokenId(id)
    ensures Serves("/" + id + "/cmd" + rest, id, "cmd") <==> rest == "" || rest[0] == '/' || rest[0] == '?'
  {
    hide Split, IndexOf, Before;
    IdFree(id, '/');
    IdFree(id, '?');
    NotEmpty(id);
    hide IsTokenId;
    var front := "/" + id + "/cmd";
    BeforeSkip(front, rest, '?');
    var cut := Before(rest, '?');
    BeforeNothing(rest, '?');
    var tail := "cmd" + cut;
    assert front + cut == "" + ['/'] + (id + ['/'] + tail);
    SplitHead("", id + ['/'] + tail, '/');
    SplitHead(id, tail, '/');
    var parts := Split(front + cut, '/');
    assert parts == ["", id] + Split(tail, '/');
    FirstPart(tail, '/');
    BeforeSkip("cmd", cut, '/');
    BeforeNothing(cut, '/');
    var named := "cmd" + Before(cut, '/');
    SegmentsOf(parts, id, named);
    CutStart(rest);
    assert named == "cmd" <==> Before(cut, '/') == "";
  }

  lemma SegmentsOf(parts: seq<string>, id: string, named: string)
    requires |parts| >= 3 && parts[0] == "" && parts[1] == id != "" && parts[2] == named != ""
    ensures |NonEmpty(parts)| >= 2 && NonEmpty(parts)[0] == id && NonEmpty(parts)[1] == named
  {
    var one, two := parts[1..], parts[1..][1..];
    assert NonEmpty(parts) == NonEmpty(one) && NonEmpty(one) == [id] + NonEmpty(two) && two[0] == named;
    assert NonEmpty(two) == [named] + NonEmpty(two[1..]);
  }

  lemma CutStart(rest: string)
    ensures var cut := Before(rest, '?');
      (cut == "" || cut[0] == '/') <==> rest == "" || rest[0] == '/' || rest[0] == '?'
  {
  }

  /**
   * The bare command path with a query is answered and raises nothing: the one gap, at the apex, among paths
   * that start with the command link.
   */
  lemma CommandGap(id: string, rest: string, header: string, domains: seq<string>)
    requires IsTokenId(id) && HostOf(Some(header)) in domains && |rest| <= 2000
    ensures var path := "/" + id + "/cmd" + rest;
      var e := RequestEvent(Some(header), path, domains);
      && e.Some?
      && (MatchTrigger(SensitiveCmd, e.value, id).Some? <==> rest == "" || rest[0] == '/')
      && (Serves(path, id, "cmd") && MatchTrigger(SensitiveCmd, e.value, id).None? <==> rest != "" && rest[0] == '?')
  {
    hide HostOf, Hints, Split, IndexOf, Before, Serves, DotSuffix;
    ServesCommand(id, rest);
    PathParts(id, "cmd" + rest);
    var path := "/" + id + "/cmd" + rest;
    assert path == "/" + id + "/" + ("cmd" + rest);
    var front := "/" + id + "/cmd";
    assert path[..|front|] == front && path[|front|..] == rest;
    assert path == front <==> rest == "";
    var deeper := "/" + id + "/" + "cmd/";
    assert deeper == front + "/";
    assert StartsWith(path, deeper) <==> rest != "" && rest[0] == '/' by {
      if |path| >= |deeper| {
        assert path[..|deeper|] == front + [rest[0]];
      }
    }
  }
}
