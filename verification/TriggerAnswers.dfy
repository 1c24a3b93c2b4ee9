/**
 What the API answers and what the gateway makes of a request, each with its exact condition: who can raise
 which token with which severity, which hosts and names are served, and what every type hands out.
 */
module TriggerAnswers {
  import opened Options
  import opened Text
  import opened TriggerPipeline
  import opened TriggerLimits
  import opened Triggers

  // ----- incidents -----

  /** What an agent reports is recorded as reported exactly for an active token, whatever its type. */
  lemma AgentReportedIff(tokens: map<string, Token>, i: Incident)
    requires i.event.sensor.Some? && i.event.sensor.value != ""
    ensures Decide(tokens, i) == Created(i.severity)
      <==> i.tokenId != "" && i.tokenId in tokens && tokens[i.tokenId].status == Active
    ensures Decide(tokens, i).Created? ==> Decide(tokens, i).severity == i.severity
  {
  }

  /** A honeypot token has incidents exactly of what agents report. */
  lemma HoneypotIff(tokens: map<string, Token>, i: Incident)
    requires i.tokenId != "" && i.tokenId in tokens && tokens[i.tokenId] == Token(Honeypot, Active)
    ensures Decide(tokens, i).Created? <==> i.event.sensor.Some? && i.event.sensor.value != ""
    ensures Decide(tokens, i) in {NotFound, Created(i.severity)}
  {
  }

  /** A token that is paused, revoked or unknown has none, and a request without an id is malformed. */
  lemma Refused(tokens: map<string, Token>, i: Incident)
    ensures Decide(tokens, i) == BadRequest <==> i.tokenId == ""
    ensures i.tokenId != "" && (i.tokenId !in tokens || tokens[i.tokenId].status != Active)
      ==> Decide(tokens, i) == NotFound
  {
    hide MatchTrigger;
  }

  /** Host names are raised by lookups only, addresses by mail, links by requests, and honeypots by no rule. */
  lemma KindDecides(t: TokenType, e: TriggerEvent, id: string)
    requires MatchTrigger(t, e, id).Some?
    ensures t != Honeypot
    ensures e.kind == DnsKind <==> t in {Dns, WindowsFolder}
    ensures e.kind == SmtpKind <==> t == Email
    ensures e.kind == HttpKind <==> HandsOutLink(t)
  {
    hide EventMentionsToken, Split, Includes, Before;
  }

  /**
   * The web bug comes first in the registry, so whatever token a pixel belongs to, the gateway forwards its
   * request as of medium severity.
   */
  lemma PixelForwardedMedium(e: TriggerEvent, id: string, severity: Severity)
    requires PathStarts(e, id, "pixel.gif")
    ensures IsFirstSeverity(e, id, severity) <==> severity == Medium
  {
    hide PathStarts;
    assert MatchTrigger(WebBug, e, id) == Some(Medium);
    hide MatchTrigger;
    assert DEFINITIONS[0] == WebBug;
    if IsFirstSeverity(e, id, severity) {
      var t :| IsFirstMatch(DEFINITIONS, t, e, id) && MatchTrigger(t, e, id) == Some(severity);
      assert t == WebBug;
    } else {
      assert IsFirstMatch(DEFINITIONS, WebBug, e, id);
    }
  }

  // ----- hosts and names -----

  /** A request makes an event exactly when its host, without port and in lower case, is served. */
  lemma RequestServedIff(host: string, port: string, url: string, domains: seq<string>)
    requires ':' !in host && (port == "" || port[0] == ':')
    ensures var e := RequestEvent(Some(host + port), url, domains);
      && (e.Some? <==> exists d <- domains :: ToLower(host) == d || EndsWith(ToLower(host), "." + d))
      && (e.Some? ==>
            && e.value.kind == HttpKind && e.value.sensor.None? && e.value.queryName.None? && e.value.mailTo.None?
            && e.value.http == Some(Http(ToLower(host), if |url| > 2048 then url[..2048] else url)))
  {
    hide ToLower, IndexOf, Hints, EndsWith;
    LowerConcat(host, port);
    NoColonLower(host);
    BeforeSkip(ToLower(host), ToLower(port), ':');
    LowerColon(port);
    assert ToLower(host) + "" == ToLower(host);
    assert HostOf(Some(host + port)) == ToLower(host);
    assert |url| == 2048 ==> url[..2048] == url;
  }

  lemma LowerColon(port: string)
    requires port == "" || port[0] == ':'
    ensures Before(ToLower(port), ':') == ""
  {
  }

  /** Without a host header the request is of the empty name. */
  lemma NoHost(url: string, domains: seq<string>)
    ensures RequestEvent(None, url, domains).Some? <==> "" in domains
  {
    hide Hints;
  }

  /** A lookup makes an event exactly when its name, in lower case, is served; one trailing dot means nothing. */
  lemma QueryServedIff(name: string, domains: seq<string>)
    requires name == "" || name[|name| - 1] != '.'
    ensures QueryEvent(name + ".", domains) == QueryEvent(name, domains)
    ensures var e := QueryEvent(name, domains);
      && (e.Some? <==> exists d <- domains :: ToLower(name) == d || EndsWith(ToLower(name), "." + d))
      && (e.Some? ==>
            && e.value.kind == DnsKind && e.value.sensor.None? && e.value.http.None? && e.value.mailTo.None?
            && e.value.queryName == Some(ToLower(name)))
  {
    NameKept(name);
    hide ToLower, QueryName, Hints, EndsWith;
  }

  lemma NameKept(name: string)
    requires name == "" || name[|name| - 1] != '.'
    ensures QueryName(name) == QueryName(name + ".") == ToLower(name)
  {
    LowerConcat(name, ".");
    assert ToLower(".") == ".";
    assert (ToLower(name) + ".")[..|name|] == ToLower(name);
    assert (ToLower(name) + ".")[|name|..] == ".";
    if name != "" {
      assert ToLower(name)[|name| - 1] == LowerChar(name[|name| - 1]) != '.';
    }
  }

  // ----- what a token hands out -----

  /** Every type hands out one thing that can be triggered, and then its files, numbered from 0. */
  lemma HandsOutFiles(t: TokenType, ctx: Context)
    ensures var files :=
        if t in {QrCode, WordDoc, ExcelDoc, SqlInjection, PdfDoc} then 1
        else if t in {WindowsFolder, AwsKeys, AzureConfig} then 2
        else 0;
      var path := "/api/v1/tokens/" + ctx.tokenId + "/files/";
      && |Generate(t, ctx)| == 1 + files
      && (files >= 1 ==> Generate(t, ctx)[1] == Artifact(FileDownload, path + "0"))
      && (files >= 2 ==> Generate(t, ctx)[2] == Artifact(FileDownload, path + "1"))
  {
    hide Link, DefaultHostname, MailAddress;
  }

  lemma HandsOut(t: TokenType, ctx: Context)
    ensures |Generate(t, ctx)| > 0
    ensures t in {Dns, WindowsFolder} ==> Generate(t, ctx)[0] == Artifact(Hostname, ctx.tokenId + "." + ctx.baseDomain)
    ensures t == Email ==>
      var domain := if ctx.mailDomain.None? || ctx.mailDomain.value == "" then ctx.baseDomain else ctx.mailDomain.value;
      Generate(t, ctx)[0] == Artifact(Url, ctx.tokenId + "@" + domain)
    ensures t == Honeypot ==> Generate(t, ctx)[0] == Artifact(Url, "token_id=" + ctx.tokenId)
    ensures HandsOutLink(t) ==>
      var action :=
        if t in {WebBug, WordDoc, ExcelDoc, PdfDoc} then "pixel.gif"
        else if t == CustomImage then "image"
        else if t == FastRedirect then "r"
        else if t == QrCode then "qr"
        else if t == SensitiveCmd then "cmd/" + ctx.cmdName
        else if t == SqlInjection then "sqli"
        else if t == ClonedWebsite then "site"
        else if t == AwsKeys then "aws"
        else "azure";
      Generate(t, ctx)[0] == Artifact(Url, ctx.gatewayOrigin + "/" + ctx.tokenId + "/" + action)
  {
    hide File;
  }

  // ----- the gateway's domains -----

  /** `d` is one of the parts, trimmed and in lower case. */
  predicate IsPart(parts: seq<string>, d: string) {
    exists part <- parts :: d == ToLower(Trim(part))
  }

  lemma {:induction false} CleanIff(parts: seq<string>, d: string)
    ensures d in CleanDomains(parts) <==> d != "" && IsPart(parts, d)
    decreases |parts|
  {
    hide ToLower, Trim;
    if parts != [] {
      CleanIff(parts[1..], d);
    }
  }

  /** The gateway serves the trimmed, lower-case parts of the setting, all but the empty ones. */
  lemma DomainsIff(setting: string, d: string)
    ensures d in GatewayDomains(Some(setting)) <==> d != "" && IsPart(Split(setting, ','), d)
  {
    hide IsPart, Split, CleanDomains;
    CleanIff(Split(setting, ','), d);
  }

  lemma DefaultDomains()
    ensures ApiDomain(None) == "tokens.example.com" && GatewayDomains(None) == ["tokens.example.com"]
  {
    hide ToLower, Trim, Split;
    DefaultClean();
    var parts := Split(DEFAULT_DOMAIN, ',');
    assert GatewayDomains(None) == CleanDomains(parts);
    assert parts == [DEFAULT_DOMAIN] && parts[1..] == [];
    assert CleanDomains(parts) == [DEFAULT_DOMAIN] + CleanDomains([]);
  }
}
