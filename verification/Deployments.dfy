/**
 One-shot deployments: the console's heartbeat handler (`apps/api/src/routes/agents.ts`), and the agent
 that plants what it is given and reports on a later beat (`agent/main.go`, `internal/deploy/deploy.go`).
 */
module Deployments {
  import opened Options
  import opened Text

  type Id = string

  datatype Deployment = Deployment(
    id: Id, kind: string, targetDir: string, filename: string, payload: Option<string>, url: Option<string>)

  /** What an agent says about a deployment it was given. */
  datatype Report = Report(id: Id, ok: bool, error: Option<string>)

  // ----- the agent -----

  /** The calls into the operating system and the libraries, each an error text or none. */
  datatype Host = Host(
    baseName: string -> string,
    quote: string -> string,
    mkdir: string -> Option<string>,
    decode: string -> Option<string>,
    write: string -> Option<string>)

  function Fail(d: Deployment, error: string): Report {
    Report(d.id, false, Some(error))
  }

  function ExecuteOne(d: Deployment, h: Host): (r: Report)
    ensures r.id == d.id
  {
    var dest := d.targetDir + "/" + d.filename;
    if d.id == "" || d.filename == "" || d.targetDir == "" then Fail(d, "incomplete deployment descriptor")
    else if h.baseName(d.filename) != d.filename then Fail(d, "unsafe filename " + h.quote(d.filename))
    else if h.mkdir(d.targetDir).Some? then Fail(d, "mkdir " + d.targetDir + ": " + h.mkdir(d.targetDir).value)
    else if d.kind == "file" then
      if d.payload.None? then Fail(d, "file deployment without payload")
      else if h.decode(d.payload.value).Some? then Fail(d, "decode payload: " + h.decode(d.payload.value).value)
      else if h.write(dest).Some? then Fail(d, "write " + dest + ": " + h.write(dest).value)
      else Report(d.id, true, None)
    else if d.kind == "shortcut" then
      if d.url.None? then Fail(d, "shortcut deployment without url")
      else if h.write(dest).Some? then Fail(d, "write " + dest + ": " + h.write(dest).value)
      else Report(d.id, true, None)
    else Fail(d, "unknown deployment kind " + h.quote(d.kind))
  }

  /**
   * Success is reported exactly for a complete descriptor of a known kind and a plain file name, on a host that
   * can do what is asked; and every failure has a text.
   */
  lemma PlantedIff(d: Deployment, h: Host)
    ensures ExecuteOne(d, h).ok <==>
      && d.id != "" && d.filename != "" && d.targetDir != ""
      && (d.kind == "file" || d.kind == "shortcut")
      && (d.kind == "file" ==> d.payload.Some? && h.decode(d.payload.value).None?)
      && (d.kind == "shortcut" ==> d.url.Some?)
      && h.baseName(d.filename) == d.filename
      && h.mkdir(d.targetDir).None? && h.write(d.targetDir + "/" + d.filename).None?
    ensures ExecuteOne(d, h).error.None? <==> ExecuteOne(d, h).ok
  {
  }

  /** One report for each deployment, in order. */
  function Executed(ds: seq<Deployment>, h: Host): (rs: seq<Report>)
    ensures |rs| == |ds|
  {
    seq(|ds|, i requires 0 <= i < |ds| => ExecuteOne(ds[i], h))
  }

  class Agent {
    /** Reports not yet known to have reached the console. */
    var pendingResults: seq<Report>

    constructor ()
      ensures pendingResults == []
    {
      pendingResults := [];
    }

    method Execute(ds: seq<Deployment>, h: Host) returns (results: seq<Report>)
      ensures results == Executed(ds, h)
      ensures |results| == |ds| && forall i :: 0 <= i < |ds| ==> results[i] == ExecuteOne(ds[i], h)
    {
      results := [];
      for i := 0 to |ds|
        invariant results == Executed(ds, h)[..i]
      {
        results := results + [ExecuteOne(ds[i], h)];
      }
    }

    /** A heartbeat was answered: what it carried is acknowledged, and the new work is done at once. */
    method OnAnswer(ds: seq<Deployment>, h: Host)
      modifies this
      ensures pendingResults == Executed(ds, h)
      ensures |pendingResults| == |ds| && forall i :: 0 <= i < |ds| ==> pendingResults[i] == ExecuteOne(ds[i], h)
    {
      pendingResults := [];
      if |ds| > 0 {
        pendingResults := Execute(ds, h);
      }
    }
  }

  // ----- the console -----

  datatype Status = Pending | Done | Failed

  datatype Row = Row(agent: string, spec: Deployment, status: Status, error: Option<string>)

  type Table = map<Id, Row>

  const MAX_ERROR := 500
  const MAX_RESULTS := 100
  const BATCH := 20

  /** The schema of the request body. */
  predicate Acceptable(results: seq<Report>) {
    |results| <= MAX_RESULTS
    && forall r <- results :: r.id != "" && (r.error.Some? ==> |r.error.value| <= MAX_ERROR)
  }

  function Settle(row: Row, r: Report): Row {
    if r.ok then row.(status := Done, error := None)
    else row.(status := Failed, error := Some(if r.error.Some? then r.error.value else "agent reported failure"))
  }

  /** Only a pending row of the reporting agent is touched. */
  function ApplyOne(rows: Table, agent: string, r: Report): Table {
    if r.id in rows && rows[r.id].agent == agent && rows[r.id].status == Pending
    then rows[r.id := Settle(rows[r.id], r)]
    else rows
  }

  function Apply(rows: Table, agent: string, results: seq<Report>): Table {
    if results == [] then rows
    else ApplyOne(Apply(rows, agent, results[..|results| - 1]), agent, results[|results| - 1])
  }

  function PendingOf(rows: Table, agent: string): set<Id> {
    set id | id in rows && rows[id].agent == agent && rows[id].status == Pending
  }

  function Ids(ds: seq<Deployment>): set<Id> {
    set d <- ds :: d.id
  }

  /** At most twenty pending deployments of the agent, each once; which twenty is up to the database. */
  ghost predicate Selected(rows: Table, agent: string, ds: seq<Deployment>) {
    && (forall d <- ds :: d.id in PendingOf(rows, agent) && d == rows[d.id].spec)
    && (forall i, j :: 0 <= i < j < |ds| ==> ds[i].id != ds[j].id)
    && |ds| == Min(BATCH, |PendingOf(rows, agent)|)
  }

  function Min(a: nat, b: nat): nat { if a < b then a else b }

  lemma IdsOneMore(ds: seq<Deployment>, d: Deployment)
    ensures Ids(ds + [d]) == Ids(ds) + {d.id}
  {
    assert forall x :: x in ds + [d] <==> x in ds || x == d;
    forall id | id in Ids(ds) + {d.id}
      ensures id in Ids(ds + [d])
    {
      if id == d.id {
        assert d in ds + [d];
      } else {
        var x :| x in ds && x.id == id;
        assert x in ds + [d];
      }
    }
  }

  /** `ds` are the rows of `all` taken so far, `left` the ids not yet taken. */
  ghost predicate Picked(rows: Table, all: set<Id>, left: set<Id>, ds: seq<Deployment>) {
    && left <= all <= rows.Keys
    && Ids(ds) == all - left
    && |ds| + |left| == |all|
    && (forall d <- ds :: d.id in rows && d == rows[d.id].spec)
    && (forall i, j :: 0 <= i < j < |ds| ==> ds[i].id != ds[j].id)
  }

  lemma PickOne(rows: Table, all: set<Id>, left: set<Id>, ds: seq<Deployment>, id: Id)
    requires Picked(rows, all, left, ds) && id in left && rows[id].spec.id == id
    ensures Picked(rows, all, left - {id}, ds + [rows[id].spec])
  {
    IdsOneMore(ds, rows[id].spec);
    assert forall d <- ds :: d.id in Ids(ds);
    hide Ids;
    assert all - (left - {id}) == all - left + {id};
  }

  /** The `limit(20)` query. */
  method Select(rows: Table, agent: string) returns (ds: seq<Deployment>)
    requires forall id <- rows :: rows[id].spec.id == id
    ensures Selected(rows, agent, ds)
  {
    hide PendingOf, Ids, Picked, Selected;
    var all := PendingOf(rows, agent);
    var left := all;
    ds := [];
    PickedNone(rows, agent);
    while left != {} && |ds| < BATCH
      invariant Picked(rows, all, left, ds) && |ds| <= BATCH
      decreases left
    {
      var id :| id in left;
      PickedIds(rows, all, left, ds);
      PickOne(rows, all, left, ds, id);
      left, ds := left - {id}, ds + [rows[id].spec];
    }
    PickedEnough(rows, agent, left, ds);
  }

  lemma PickedNone(rows: Table, agent: string)
    ensures Picked(rows, PendingOf(rows, agent), PendingOf(rows, agent), [])
  {
    assert PendingOf(rows, agent) <= rows.Keys;
  }

  lemma PickedEnough(rows: Table, agent: string, left: set<Id>, ds: seq<Deployment>)
    requires Picked(rows, PendingOf(rows, agent), left, ds) && |ds| <= BATCH
    requires left == {} || |ds| == BATCH
    ensures Selected(rows, agent, ds)
  {
    hide PendingOf;
    assert forall d <- ds :: d.id in Ids(ds);
  }

  lemma SelectedIs(rows: Table, agent: string, ds: seq<Deployment>)
    requires Selected(rows, agent, ds)
    ensures
      var pending := set id | id in rows && rows[id].agent == agent && rows[id].status == Pending;
      && |ds| == (if |pending| < 20 then |pending| else 20)
      && (forall d <- ds :: d.id in pending && d == rows[d.id].spec)
      && (forall i, j :: 0 <= i < j < |ds| ==> ds[i].id != ds[j].id)
  {
  }

  lemma PickedIds(rows: Table, all: set<Id>, left: set<Id>, ds: seq<Deployment>)
    requires Picked(rows, all, left, ds)
    ensures left <= rows.Keys
  {
  }

  datatype Answer = Unauthorized | Gone | Work(deployments: seq<Deployment>)

  const BEARER := "Bearer "

  /** The key of an authorization header, empty when there is none. */
  function KeyOf(auth: Option<string>): string {
    if auth.Some? && StartsWith(auth.value, BEARER) then auth.value[|BEARER|..] else ""
  }

  const MAX_VERSION := 32

  predicate AcceptableBody(agent: string, version: Option<string>, results: seq<Report>) {
    agent != "" && (version.Some? ==> |version.value| <= MAX_VERSION) && Acceptable(results)
  }

  /** What a heartbeat is answered before anything is done: nothing, for a registered agent with its own key. */
  function Refusal(agents: map<string, string>, auth: Option<string>, agent: string, version: Option<string>,
                   results: seq<Report>, verify: (string, string) -> bool): Option<Answer> {
    if KeyOf(auth) == "" || !AcceptableBody(agent, version, results) then Some(Unauthorized)
    else if agent !in agents then Some(Gone)
    else if !verify(KeyOf(auth), agents[agent]) then Some(Unauthorized)
    else None
  }

  lemma KeyIs(auth: Option<string>, key: string)
    requires key != ""
    ensures KeyOf(auth) == key <==> auth == Some("Bearer " + key)
  {
    if auth.Some? && |auth.value| >= 7 {
      assert auth.value == auth.value[..7] + auth.value[7..];
    }
  }

  lemma RefusalIs(agents: map<string, string>, auth: Option<string>, agent: string, version: Option<string>,
                  results: seq<Report>, verify: (string, string) -> bool)
    ensures var refusal := Refusal(agents, auth, agent, version, results, verify);
      var fits :=
        && agent != "" && (version.Some? ==> |version.value| <= 32) && |results| <= 100
        && forall r <- results :: r.id != "" && (r.error.Some? ==> |r.error.value| <= 500);
      var keyed := exists key :: key != "" && auth == Some("Bearer " + key);
      var known := exists key ::
        key != "" && auth == Some("Bearer " + key) && agent in agents && verify(key, agents[agent]);
      && (refusal.None? <==> fits && known)
      && (refusal == Some(Gone) <==> fits && keyed && agent !in agents)
      && (refusal.Some? ==> refusal.value in {Unauthorized, Gone})
  {
    hide KeyOf;
    forall key | key != ""
      ensures KeyOf(auth) == key <==> auth == Some("Bearer " + key)
    {
      KeyIs(auth, key);
    }
    var key := KeyOf(auth);
    assert key != "" ==> auth == Some("Bearer " + key);
  }

  /** A pending row of the reporting agent is settled by the first report on it; no other row changes. */
  lemma {:induction false} ApplySettles(rows: Table, agent: string, results: seq<Report>, id: Id)
    ensures Apply(rows, agent, results).Keys == rows.Keys
    ensures id in rows && (rows[id].agent != agent || rows[id].status != Pending || forall r <- results :: r.id != id)
      ==> Apply(rows, agent, results)[id] == rows[id]
    ensures id in rows && rows[id].agent == agent && rows[id].status == Pending ==>
      forall i | 0 <= i < |results| && results[i].id == id && forall j | 0 <= j < i :: results[j].id != id ::
        var r := results[i];
        Apply(rows, agent, results)[id] == Row(agent, rows[id].spec, if r.ok then Done else Failed,
          if r.ok then None else if r.error.None? then Some("agent reported failure") else r.error)
    decreases |results|
  {
    if results != [] {
      var front := results[..|results| - 1];
      ApplySettles(rows, agent, front, id);
      assert forall j | 0 <= j < |front| :: results[j] == front[j];
    }
  }

  class Console {
    /** The hash of each registered agent's key. */
    var agents: map<string, string>
    /** The version each agent last reported. */
    var versions: map<string, string>
    var rows: Table

    /** Every row is kept under the id of its work. */
    ghost predicate Valid()
      reads this
    {
      forall id <- rows :: rows[id].spec.id == id
    }

    constructor ()
      ensures Valid() && agents == map[] && versions == map[] && rows == map[]
    {
      agents, versions, rows := map[], map[], map[];
    }

    /** A heartbeat: credentials, then results, then the selection. `verify` compares a key with a hash. */
    method Heartbeat(auth: Option<string>, agent: string, version: Option<string>, results: seq<Report>,
                     verify: (string, string) -> bool)
      returns (a: Answer)
      requires Valid()
      modifies this`rows, this`versions
      ensures Valid()
      ensures var refusal := Refusal(agents, auth, agent, version, results, verify);
        if refusal.Some? then a == refusal.value && rows == old(rows) && versions == old(versions)
        else
          && a.Work? && rows == Apply(old(rows), agent, results) && Selected(rows, agent, a.deployments)
          && versions == old(versions)
               + if version.Some? && version.value != "" then map[agent := version.value] else map[]
      // the same answers, said of the request
      ensures var fits :=
          && agent != "" && (version.Some? ==> |version.value| <= 32) && |results| <= 100
          && forall r <- results :: r.id != "" && (r.error.Some? ==> |r.error.value| <= 500);
        var keyed := exists key :: key != "" && auth == Some("Bearer " + key);
        var known := exists key ::
          key != "" && auth == Some("Bearer " + key) && agent in agents && verify(key, agents[agent]);
        && (a.Work? <==> fits && known)
        && (a.Gone? <==> fits && keyed && agent !in agents)
        && (!a.Work? ==> rows == old(rows) && versions == old(versions))
      ensures a.Work? ==>
        var pending := set id | id in rows && rows[id].agent == agent && rows[id].status == Pending;
        && |a.deployments| == (if |pending| < 20 then |pending| else 20)
        && (forall d <- a.deployments :: d.id in pending && d == rows[d.id].spec)
        && (forall i, j :: 0 <= i < j < |a.deployments| ==> a.deployments[i].id != a.deployments[j].id)
    {
      RefusalIs(agents, auth, agent, version, results, verify);
      hide KeyOf, AcceptableBody, Apply, Selected;
      var key := KeyOf(auth);
      if key == "" || !AcceptableBody(agent, version, results) {
        return Unauthorized;
      }
      if agent !in agents {
        return Gone;
      }
      if !verify(key, agents[agent]) {
        return Unauthorized;
      }
      if version.Some? && version.value != "" {
        versions := versions[agent := version.value];
      }
      ApplyResults(agent, results);
      var ds := Select(rows, agent);
      SelectedIs(rows, agent, ds);
      return Work(ds);
    }

    method ApplyResults(agent: string, results: seq<Report>)
      requires Valid()
      modifies this`rows
      ensures Valid() && rows == Apply(old(rows), agent, results)
    {
      for i := 0 to |results|
        invariant rows == Apply(old(rows), agent, results[..i])
        invariant Valid()
      {
        var r := results[i];
        if r.id in rows && rows[r.id].agent == agent && rows[r.id].status == Pending {
          rows := rows[r.id := Settle(rows[r.id], r)];
        }
        assert results[..i + 1][..i] == results[..i];
      }
      assert results[..|results|] == results;
    }

    /** An operator queues a deployment under a fresh id: it is pending for that agent, and nothing else changes. */
    method Queue(agent: string, spec: Deployment)
      requires Valid() && spec.id != "" && spec.id !in rows
      modifies this`rows
      ensures Valid()
      ensures rows == old(rows)[spec.id := Row(agent, spec, Pending, None)]
      ensures PendingOf(rows, agent) == old(PendingOf(rows, agent)) + {spec.id}
      ensures forall other | other != agent :: PendingOf(rows, other) == old(PendingOf(rows, other))
      ensures forall id <- old(rows) :: id in rows && rows[id] == old(rows)[id]
    {
      rows := rows[spec.id := Row(agent, spec, Pending, None)];
    }
  }
}
