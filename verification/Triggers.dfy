/**
 From a request to a recorded incident: the gateway's candidate search and coarse filter
 (`apps/gateway/src/server.ts`, `dns.ts`, `http.ts`), the trigger rules of `packages/tokens-core`, and the
 API's decision (`apps/api/src/routes/tokens.ts`).
 */
module Triggers {
  import opened Options
  import opened Text
  import Smtp

  datatype Severity = Low | Medium | High

  datatype TokenType =
    | WebBug | CustomImage | Dns | FastRedirect | QrCode | Email | SensitiveCmd | WordDoc | ExcelDoc
    | WindowsFolder | SqlInjection | PdfDoc | ClonedWebsite | AwsKeys | AzureConfig | Honeypot

  /** The registry, in the order it is searched. */
  const DEFINITIONS: seq<TokenType> := [
    WebBug, CustomImage, Dns, FastRedirect, QrCode, Email, SensitiveCmd, WordDoc, ExcelDoc,
    WindowsFolder, SqlInjection, PdfDoc, ClonedWebsite, AwsKeys, AzureConfig, Honeypot]

  datatype Kind = DnsKind | HttpKind | SmtpKind

  datatype Http = Http(host: string, path: string)

  /** `sensor` is the `detail.sensor` an agent reports; no gateway event has one. */
  datatype TriggerEvent = TriggerEvent(
    kind: Kind, tokenHint: string, queryName: Option<string>, http: Option<Http>, mailTo: Option<string>,
    sensor: Option<string>)

  // ----- the rules of the token types -----

  function HttpOf(e: TriggerEvent): Option<Http> {
    if e.kind == HttpKind then e.http else None
  }

  predicate EventMentionsToken(e: TriggerEvent, id: string) {
    || e.tokenHint == id
    || (e.queryName.Some? && id in Split(e.queryName.value, '.'))
    || (HttpOf(e).Some? && id in Split(HttpOf(e).value.host, '.'))
    || (HttpOf(e).Some? && id in Split(Before(HttpOf(e).value.path, '?'), '/'))
  }

  predicate PathStarts(e: TriggerEvent, id: string, action: string) {
    && HttpOf(e).Some?
    && EventMentionsToken(e, id)
    && StartsWith(HttpOf(e).value.path, "/" + id + "/" + action)
  }

  predicate PathIs(e: TriggerEvent, id: string, action: string) {
    && HttpOf(e).Some?
    && EventMentionsToken(e, id)
    && HttpOf(e).value.path == "/" + id + "/" + action
  }

  /** `sub` occurs in `s`. */
  predicate Includes(s: string, sub: string) {
    exists i | 0 <= i <= |s| :: StartsWith(s[i..], sub)
  }

  function When(matched: bool, severity: Severity): Option<Severity> {
    if matched then Some(severity) else None
  }

  function MatchTrigger(t: TokenType, e: TriggerEvent, id: string): Option<Severity> {
    match t
    case WebBug => When(PathStarts(e, id, "pixel.gif"), Medium)
    case CustomImage => When(PathStarts(e, id, "image"), Medium)
    case Dns => When(e.kind == DnsKind && EventMentionsToken(e, id), High)
    case FastRedirect => When(PathStarts(e, id, "r"), Medium)
    case QrCode => When(PathStarts(e, id, "qr"), High)
    case Email =>
      When(e.kind == SmtpKind && EventMentionsToken(e, id) && e.mailTo.Some?
           && Includes(Before(e.mailTo.value, '@'), id), High)
    case SensitiveCmd =>
      When(PathStarts(e, id, "cmd/") || PathIs(e, id, "cmd"), High)
    case WordDoc => When(PathStarts(e, id, "pixel.gif"), High)
    case ExcelDoc => When(PathStarts(e, id, "pixel.gif"), High)
    case WindowsFolder => When(e.kind == DnsKind && e.queryName.Some? && id in Split(e.queryName.value, '.'), High)
    case SqlInjection => When(PathStarts(e, id, "sqli"), High)
    case PdfDoc => When(PathStarts(e, id, "pixel.gif"), High)
    case ClonedWebsite => When(PathStarts(e, id, "site") || PathStarts(e, id, "pixel.gif"), High)
    case AwsKeys => When(PathStarts(e, id, "aws"), High)
    case AzureConfig => When(PathStarts(e, id, "azure"), High)
    case Honeypot => None
  }

  /** `t` is the first type in `defs` whose rule matches. */
  predicate IsFirstMatch(defs: seq<TokenType>, t: TokenType, e: TriggerEvent, id: string) {
    exists i | 0 <= i < |defs| ::
      && defs[i] == t && MatchTrigger(t, e, id).Some?
      && forall j | 0 <= j < i :: MatchTrigger(defs[j], e, id).None?
  }

  method MatchEventToType(e: TriggerEvent, id: string) returns (r: Option<TokenType>)
    ensures r.Some? ==> IsFirstMatch(DEFINITIONS, r.value, e, id)
    ensures r.None? ==> forall t :: MatchTrigger(t, e, id).None?
  {
    hide MatchTrigger;
    for i := 0 to |DEFINITIONS|
      invariant forall j | 0 <= j < i :: MatchTrigger(DEFINITIONS[j], e, id).None?
    {
      if MatchTrigger(DEFINITIONS[i], e, id).Some? {
        return Some(DEFINITIONS[i]);
      }
    }
    r := None;
    forall t
      ensures MatchTrigger(t, e, id).None?
    {
      var k := IndexInRegistry(t);
    }
  }

  lemma IndexInRegistry(t: TokenType) returns (k: nat)
    ensures k < |DEFINITIONS| && DEFINITIONS[k] == t
  {
    k := match t
      case WebBug => 0
      case CustomImage => 1
      case Dns => 2
      case FastRedirect => 3
      case QrCode => 4
      case Email => 5
      case SensitiveCmd => 6
      case WordDoc => 7
      case ExcelDoc => 8
      case WindowsFolder => 9
      case SqlInjection => 10
      case PdfDoc => 11
      case ClonedWebsite => 12
      case AwsKeys => 13
      case AzureConfig => 14
      case Honeypot => 15;
  }

  // ----- what the gateway makes of a request -----

  predicate DotSuffix(name: string, d: string) {
    EndsWith(name, "." + d)
  }

  predicate IsOurs(name: string, domains: seq<string>) {
    exists d <- domains :: name == d || DotSuffix(name, d)
  }

  /** Every label in front of the first base domain the name lies under. */
  function Hints(name: string, domains: seq<string>): seq<string> {
    if domains == [] then []
    else if DotSuffix(name, domains[0]) then Split(name[..|name| - |domains[0]| - 1], '.')
    else Hints(name, domains[1..])
  }

  function FirstOf(ss: seq<string>): string {
    if ss == [] then "" else ss[0]
  }

  function HostOf(header: Option<string>): string {
    match header
    case None => ""
    case Some(h) => Before(ToLower(h), ':')
  }

  function RequestEvent(header: Option<string>, url: string, domains: seq<string>): Option<TriggerEvent> {
    var host := HostOf(header);
    if !IsOurs(host, domains) then None
    else
      var http := Http(host, Take(url, 2048));
      Some(TriggerEvent(HttpKind, FirstOf(Hints(host, domains)), None, Some(http), None, None))
  }

  /** Lower case, without one trailing dot. */
  function QueryName(name: string): string {
    var lower := ToLower(name);
    if EndsWith(lower, ".") then lower[..|lower| - 1] else lower
  }

  function QueryEvent(name: string, domains: seq<string>): Option<TriggerEvent> {
    var q := QueryName(name);
    if !IsOurs(q, domains) then None
    else Some(TriggerEvent(DnsKind, FirstOf(Hints(q, domains)), Some(q), None, None, None))
  }

  function MailEvent(e: Smtp.Event): TriggerEvent {
    TriggerEvent(SmtpKind, e.tokenHint, None, None, Some(e.to), None)
  }

  // ----- candidates -----

  function FirstNonEmpty(ss: seq<string>): string {
    if ss == [] then "" else if ss[0] != "" then ss[0] else FirstNonEmpty(ss[1..])
  }

  function FirstSegment(path: string): string {
    FirstNonEmpty(Split(Before(path, '?'), '/'))
  }

  function MentionedIds(e: TriggerEvent, domains: seq<string>): seq<string> {
    match e.kind
    case DnsKind => Hints(if e.queryName.Some? then e.queryName.value else "", domains)
    case HttpKind =>
      if e.http.None? then []
      else
        var host := e.http.value.host;
        Hints(host, domains) + if host in domains then [FirstSegment(e.http.value.path)] else []
    case SmtpKind => [if e.mailTo.Some? then Before(e.mailTo.value, '@') else ""]
  }

  /** The ids an event may be about. */
  ghost function Candidates(e: TriggerEvent, domains: seq<string>): set<string> {
    (set c <- MentionedIds(e, domains)) - {""}
  }

  datatype Incident = Incident(tokenId: string, severity: Severity, event: TriggerEvent)

  ghost predicate Accepted(e: TriggerEvent, id: string) {
    exists t :: MatchTrigger(t, e, id).Some?
  }

  /** `severity` is what the first type whose rule accepts `e` gives. */
  ghost predicate IsFirstSeverity(e: TriggerEvent, id: string, severity: Severity) {
    exists t :: IsFirstMatch(DEFINITIONS, t, e, id) && MatchTrigger(t, e, id) == Some(severity)
  }

  /** What the gateway sends for `e`: one incident for each candidate that some type's rule accepts. */
  ghost predicate IsForwardOf(out: seq<Incident>, e: TriggerEvent, ids: set<string>) {
    && (forall i, j | 0 <= i < j < |out| :: out[i].tokenId != out[j].tokenId)
    && (forall f <- out :: f.event == e && f.tokenId in ids && IsFirstSeverity(e, f.tokenId, f.severity))
    && (forall id <- ids | Accepted(e, id) :: exists f <- out :: f.tokenId == id)
  }

  class Gateway {
    const baseDomains: seq<string>
    var forwarded: seq<Incident>

    constructor (domains: seq<string>)
      ensures baseDomains == domains && forwarded == []
    {
      baseDomains, forwarded := domains, [];
    }

    method OnEvent(e: TriggerEvent)
      modifies this
      ensures |forwarded| >= |old(forwarded)| && forwarded[..|old(forwarded)|] == old(forwarded)
      ensures IsForwardOf(forwarded[|old(forwarded)|..], e, Candidates(e, baseDomains))
    {
      hide MatchTrigger, IsFirstMatch, Accepted, IsFirstSeverity, IsForwardOf, MentionedIds;
      var candidates := Collect(e);
      candidates := candidates - {""};
      ghost var all, sent, out := candidates, forwarded, [];
      ForwardNone(e);
      assert all - candidates == {};
      while candidates != {}
        invariant candidates <= all && forwarded == sent + out
        invariant IsForwardOf(out, e, all - candidates)
        decreases candidates
      {
        var id :| id in candidates;
        ghost var done := all - candidates;
        candidates := candidates - {id};
        assert all - candidates == done + {id};
        var def := MatchEventToType(e, id);
        if def.None? {
          ForwardNoMore(out, e, done, id);
          continue;
        }
        MatchOfFirst(def.value, e, id);
        var incident := Incident(id, MatchTrigger(def.value, e, id).value, e);
        ForwardOne(out, e, done, incident, def.value);
        forwarded := forwarded + [incident];
        out := out + [incident];
      }
      assert all - {} == all;
    }

    /** The ids gathered from the event, each once. */
    method Collect(e: TriggerEvent) returns (candidates: set<string>)
      ensures candidates == set c <- MentionedIds(e, baseDomains)
    {
      candidates := {};
      match e.kind {
        case DnsKind =>
          candidates := AddAll(candidates, Hints(if e.queryName.Some? then e.queryName.value else "", baseDomains));
        case HttpKind =>
          if e.http.Some? {
            candidates := AddAll(candidates, Hints(e.http.value.host, baseDomains));
            if e.http.value.host in baseDomains {
              candidates := candidates + {FirstSegment(e.http.value.path)};
            }
          }
        case SmtpKind =>
          candidates := candidates + {if e.mailTo.Some? then Before(e.mailTo.value, '@') else ""};
      }
    }
  }

  method AddAll(s: set<string>, hints: seq<string>) returns (r: set<string>)
    ensures r == s + set c <- hints
  {
    r := s;
    for i := 0 to |hints|
      invariant r == s + set c <- hints[..i]
    {
      r := r + {hints[i]};
      assert hints[..i + 1] == hints[..i] + [hints[i]];
    }
    assert hints[..|hints|] == hints;
  }

  lemma MatchOfFirst(t: TokenType, e: TriggerEvent, id: string)
    requires IsFirstMatch(DEFINITIONS, t, e, id)
    ensures MatchTrigger(t, e, id).Some?
  {
  }

  lemma ForwardNone(e: TriggerEvent)
    ensures IsForwardOf([], e, {})
  {
  }

  lemma ForwardNoMore(out: seq<Incident>, e: TriggerEvent, ids: set<string>, id: string)
    requires IsForwardOf(out, e, ids) && forall t :: MatchTrigger(t, e, id).None?
    ensures IsForwardOf(out, e, ids + {id})
  {
    hide MatchTrigger, IsFirstSeverity;
  }

  lemma ForwardOne(out: seq<Incident>, e: TriggerEvent, ids: set<string>, f: Incident, t: TokenType)
    requires IsForwardOf(out, e, ids) && f.event == e && f.tokenId !in ids
    requires IsFirstMatch(DEFINITIONS, t, e, f.tokenId) && MatchTrigger(t, e, f.tokenId) == Some(f.severity)
    ensures IsForwardOf(out + [f], e, ids + {f.tokenId})
  {
    hide MatchTrigger, IsFirstMatch, Accepted;
    assert IsFirstSeverity(e, f.tokenId, f.severity);
    hide IsFirstSeverity;
    forall id <- ids + {f.tokenId} | Accepted(e, id)
      ensures exists g <- out + [f] :: g.tokenId == id
    {
      if id == f.tokenId {
        assert f in out + [f];
      } else {
        var g :| g in out && g.tokenId == id;
        assert g in out + [f];
      }
    }
  }

  // ----- the API -----

  datatype Status = Active | Paused | Revoked

  datatype Token = Token(kind: TokenType, status: Status)

  datatype Answer = BadRequest | NotFound | Created(severity: Severity)

  function Decide(tokens: map<string, Token>, i: Incident): Answer {
    if i.tokenId == "" then BadRequest
    else if i.tokenId !in tokens || tokens[i.tokenId].status != Active then NotFound
    else if i.event.sensor.Some? && i.event.sensor.value != "" then Created(i.severity)
    else
      match MatchTrigger(tokens[i.tokenId].kind, i.event, i.tokenId)
      case None => NotFound
      case Some(severity) => Created(severity)
  }

  class Api {
    var tokens: map<string, Token>
    var incidents: seq<Incident>

    method PostIncident(i: Incident) returns (answer: Answer)
      modifies this`incidents
      ensures answer == Decide(tokens, i)
      ensures incidents == old(incidents)
        + if answer.Created? then [Incident(i.tokenId, answer.severity, i.event)] else []
      ensures answer.BadRequest? <==> i.tokenId == ""
      ensures answer.Created? ==> i.tokenId in tokens && tokens[i.tokenId].status == Active
      ensures i.event.sensor.Some? && i.event.sensor.value != "" ==>
        (answer == Created(i.severity) <==>
          i.tokenId != "" && i.tokenId in tokens && tokens[i.tokenId].status == Active)
      ensures i.event.sensor.None? || i.event.sensor.value == "" ==>
        (answer.Created? <==>
          && i.tokenId != "" && i.tokenId in tokens && tokens[i.tokenId].status == Active
          && MatchTrigger(tokens[i.tokenId].kind, i.event, i.tokenId).Some?)
    {
      hide MatchTrigger;
      if i.tokenId == "" {
        return BadRequest;
      }
      if i.tokenId !in tokens || tokens[i.tokenId].status != Active {
        return NotFound;
      }
      var agentReported := i.event.sensor.Some? && i.event.sensor.value != "";
      var severity;
      if agentReported {
        severity := i.severity;
      } else {
        var found := MatchTrigger(tokens[i.tokenId].kind, i.event, i.tokenId);
        if found.None? {
          return NotFound;
        }
        severity := found.value;
      }
      incidents := incidents + [i.(severity := severity)];
      answer := Created(severity);
    }
  }

  // ----- what a token hands out -----

  datatype Context = Context(
    tokenId: string, baseDomain: string, gatewayOrigin: string, cmdName: string, mailDomain: Option<string>)

  datatype ArtifactKind = Url | Hostname | FileDownload

  datatype Artifact = Artifact(kind: ArtifactKind, value: string)

  function Link(ctx: Context, action: string): Artifact {
    Artifact(Url, ctx.gatewayOrigin + "/" + ctx.tokenId + "/" + action)
  }

  function File(ctx: Context, index: string): Artifact {
    Artifact(FileDownload, "/api/v1/tokens/" + ctx.tokenId + "/files/" + index)
  }

  function DefaultHostname(ctx: Context): string {
    ctx.tokenId + "." + ctx.baseDomain
  }

  function MailAddress(ctx: Context): string {
    var chosen := ctx.mailDomain.Some? && ctx.mailDomain.value != "";
    ctx.tokenId + "@" + if chosen then ctx.mailDomain.value else ctx.baseDomain
  }

  function Generate(t: TokenType, ctx: Context): seq<Artifact> {
    match t
    case WebBug => [Link(ctx, "pixel.gif")]
    case CustomImage => [Link(ctx, "image")]
    case Dns => [Artifact(Hostname, DefaultHostname(ctx))]
    case FastRedirect => [Link(ctx, "r")]
    case QrCode => [Link(ctx, "qr"), File(ctx, "0")]
    case Email => [Artifact(Url, MailAddress(ctx))]
    case SensitiveCmd => [Link(ctx, "cmd/" + ctx.cmdName)]
    case WordDoc => [Link(ctx, "pixel.gif"), File(ctx, "0")]
    case ExcelDoc => [Link(ctx, "pixel.gif"), File(ctx, "0")]
    case WindowsFolder => [Artifact(Hostname, DefaultHostname(ctx)), File(ctx, "0"), File(ctx, "1")]
    case SqlInjection => [Link(ctx, "sqli"), File(ctx, "0")]
    case PdfDoc => [Link(ctx, "pixel.gif"), File(ctx, "0")]
    case ClonedWebsite => [Link(ctx, "site")]
    case AwsKeys => [Link(ctx, "aws"), File(ctx, "0"), File(ctx, "1")]
    case AzureConfig => [Link(ctx, "azure"), File(ctx, "0"), File(ctx, "1")]
    case Honeypot => [Artifact(Url, "token_id=" + ctx.tokenId)]
  }

  /** The severity each type's own rule gives. */
  function SeverityOf(t: TokenType): Severity {
    if t in {WebBug, CustomImage, FastRedirect} then Medium else High
  }

  // ----- one setting, read by two programs -----

  const DEFAULT_DOMAIN := "tokens.example.com"

  /** The API's base domain: the first of `F0_TOKEN_DOMAINS`, trimmed. */
  function ApiDomain(setting: Option<string>): string {
    match setting
    case None => DEFAULT_DOMAIN
    case Some(s) => Trim(Split(s, ',')[0])
  }

  function CleanDomains(parts: seq<string>): seq<string> {
    if parts == [] then []
    else
      var d := ToLower(Trim(parts[0]));
      (if d == "" then [] else [d]) + CleanDomains(parts[1..])
  }

  /** The gateway's base domains: all of them, trimmed, in lower case, without empty ones. */
  function GatewayDomains(setting: Option<string>): seq<string> {
    CleanDomains(Split(if setting.Some? then setting.value else DEFAULT_DOMAIN, ','))
  }
}
