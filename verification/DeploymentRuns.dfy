/**
 The heartbeat protocol over a network that loses, delays and repeats messages: one agent process
 plants each deployment at most once, and the console's table only moves forward.
 */
module DeploymentRuns {
  import opened Deployments
  import opened Options

  datatype Reply = Reply(no: nat, work: seq<Deployment>)

  /**
   * The console's table, every heartbeat ever sent and every answer ever given, and one agent process.
   * A message that was sent may be handled at any later time, any number of times, or never.
   */
  datatype World = World(
    rows: Table,
    sent: map<nat, seq<Report>>,
    replies: set<Reply>,
    next: nat,
    waiting: Option<nat>,
    pending: seq<Report>,
    planted: seq<Report>,
    history: seq<Report>,
    trips: nat)

  datatype Step =
    | Queue(agent: string, spec: Deployment)
    | Foreign(other: string, results: seq<Report>)
    | Send
    | Process(no: nat, work: seq<Deployment>)
    | Deliver(work: seq<Deployment>, host: Host)
    | GiveUp
    | Restart

  function Start(): World {
    World(map[], map[], {}, 0, None, [], [], [], 0)
  }

  ghost predicate Enabled(w: World, me: string, step: Step) {
    match step
    case Queue(agent, spec) => spec.id != "" && spec.id !in w.rows
    case Foreign(other, results) => other != me
    case Send => w.waiting.None?
    case Process(no, work) =>
      no in w.sent && Acceptable(w.sent[no]) && Selected(Apply(w.rows, me, w.sent[no]), me, work)
    case Deliver(work, host) => w.waiting.Some? && Reply(w.waiting.value, work) in w.replies
    case GiveUp => w.waiting.Some?
    case Restart => true
  }

  /** What the agent and the console do; the network only decides which step comes next. */
  function Next(w: World, me: string, step: Step): World
    requires Enabled(w, me, step)
  {
    match step
    case Queue(agent, spec) => w.(rows := w.rows[spec.id := Row(agent, spec, Pending, None)])
    case Foreign(other, results) =>
      if Acceptable(results) then w.(rows := Apply(w.rows, other, results)) else w
    case Send => w.(waiting := Some(w.next), sent := w.sent[w.next := w.pending], next := w.next + 1)
    case Process(no, work) =>
      w.(rows := Apply(w.rows, me, w.sent[no]), replies := w.replies + {Reply(no, work)})
    case Deliver(work, host) =>
      var rs := Executed(work, host);
      w.(waiting := None, pending := rs, planted := w.planted + rs, history := w.history + rs, trips := w.trips + 1)
    case GiveUp => w.(waiting := None)
    case Restart => w.(waiting := None, pending := [], planted := [])
  }

  // ----- the invariant -----

  predicate Reported(rs: seq<Report>, id: Id) {
    exists r <- rs :: r.id == id
  }

  predicate ReportedAs(rs: seq<Report>, id: Id, ok: bool) {
    exists r <- rs :: r.id == id && r.ok == ok
  }

  predicate Distinct(rs: seq<Report>) {
    forall i, j :: 0 <= i < j < |rs| ==> rs[i].id != rs[j].id
  }

  predicate DistinctWork(ds: seq<Deployment>) {
    forall i, j :: 0 <= i < j < |ds| ==> ds[i].id != ds[j].id
  }

  predicate Mine(rows: Table, me: string, id: Id) {
    id in rows && rows[id].agent == me
  }

  predicate Settled(rows: Table, me: string, id: Id) {
    Mine(rows, me, id) && rows[id].status != Pending
  }

  /** Rows are keyed by id, and a settled row of ours says what one of our processes really reported. */
  ghost predicate RowsHonest(rows: Table, me: string, history: seq<Report>) {
    && (forall id <- rows :: rows[id].spec.id == id && id != "")
    && (forall id <- rows :: rows[id].agent == me && rows[id].status == Done ==> ReportedAs(history, id, true))
    && (forall id <- rows :: rows[id].agent == me && rows[id].status == Failed ==> ReportedAs(history, id, false))
  }

  /** What this process planted is no longer pending at the console, or is still to be reported. */
  ghost predicate PlantedAccounted(rows: Table, me: string, planted: seq<Report>, pending: seq<Report>) {
    forall r <- planted :: Mine(rows, me, r.id) && (Settled(rows, me, r.id) || r in pending)
  }

  /** An answer the agent still waits for carries only deployments this process has never planted. */
  ghost predicate WorkIsFresh(rows: Table, me: string, planted: seq<Report>, work: seq<Deployment>) {
    && DistinctWork(work) && |work| <= BATCH
    && (forall d <- work :: Mine(rows, me, d.id) && !Reported(planted, d.id))
    && (forall r <- planted :: Settled(rows, me, r.id))
  }

  ghost predicate SentHonest(w: World) {
    && (forall no <- w.sent :: no < w.next && |w.sent[no]| <= BATCH && forall r <- w.sent[no] :: r in w.history)
    && (forall p <- w.replies :: p.no in w.sent && Acceptable(w.sent[p.no]))
  }

  ghost predicate Inv(w: World, me: string) {
    && RowsHonest(w.rows, me, w.history)
    && PlantedAccounted(w.rows, me, w.planted, w.pending)
    && Distinct(w.planted) && |w.pending| <= BATCH
    && (forall r <- w.pending :: r in w.planted && r.id != "")
    && (forall r <- w.planted :: r in w.history)
    && SentHonest(w)
    && (w.waiting.Some? ==> w.waiting.value in w.sent && w.sent[w.waiting.value] == w.pending)
    && (forall p <- w.replies :: w.waiting == Some(p.no) ==> WorkIsFresh(w.rows, me, w.planted, p.work))
  }

  // ----- applying results -----

  /** The row stays as it is, or was a pending row of the agent and becomes what some result says. */
  ghost predicate ChangedBy(row: Row, row': Row, agent: string, id: Id, results: seq<Report>) {
    row' == row ||
    (row.agent == agent && row.status == Pending && exists r <- results :: r.id == id && row' == Settle(row, r))
  }

  ghost predicate AppliedOnly(rows: Table, rows': Table, agent: string, results: seq<Report>) {
    rows'.Keys == rows.Keys && forall id <- rows :: ChangedBy(rows[id], rows'[id], agent, id, results)
  }

  lemma ChangedByMore(row: Row, mid: Row, row': Row, agent: string, id: Id, front: seq<Report>, r: Report)
    requires ChangedBy(row, mid, agent, id, front)
    requires row' == mid || (r.id == id && mid.agent == agent && mid.status == Pending && row' == Settle(mid, r))
    ensures ChangedBy(row, row', agent, id, front + [r])
  {
    assert r in front + [r];
    if mid != row {
      var x :| x in front && x.id == id && mid == Settle(row, x);
      assert x in front + [r];
    }
  }

  lemma {:induction false} ApplyOnly(rows: Table, agent: string, results: seq<Report>)
    ensures AppliedOnly(rows, Apply(rows, agent, results), agent, results)
    decreases |results|
  {
    hide Settle, ChangedBy;
    if results == [] {
      assert forall id <- rows :: ChangedBy(rows[id], rows[id], agent, id, []) by {
        Unchanged(agent);
      }
    } else {
      var front, r := results[..|results| - 1], results[|results| - 1];
      ApplyOnly(rows, agent, front);
      var mid, end := Apply(rows, agent, front), Apply(rows, agent, results);
      assert results == front + [r];
      forall id | id in rows
        ensures ChangedBy(rows[id], end[id], agent, id, results)
      {
        ChangedByMore(rows[id], mid[id], end[id], agent, id, front, r);
      }
    }
  }

  lemma Unchanged(agent: string)
    ensures forall row: Row, id: Id :: ChangedBy(row, row, agent, id, [])
  {
  }

  /** After `Apply` nothing that was reported is pending. */
  lemma {:induction false} ApplySettles(rows: Table, agent: string, results: seq<Report>)
    ensures forall r <- results :: Mine(rows, agent, r.id) ==> Settled(Apply(rows, agent, results), agent, r.id)
    decreases |results|
  {
    if results != [] {
      var front, r := results[..|results| - 1], results[|results| - 1];
      ApplySettles(rows, agent, front);
      ApplyOnly(rows, agent, front);
      var mid := Apply(rows, agent, front);
      forall x | x in results && Mine(rows, agent, x.id)
        ensures Settled(Apply(rows, agent, results), agent, x.id)
      {
        assert Mine(mid, agent, x.id);
        assert x in front || x == r;
      }
    }
  }

  lemma SettledStays(rows: Table, rows': Table, agent: string, results: seq<Report>, me: string, id: Id)
    requires AppliedOnly(rows, rows', agent, results)
    ensures Mine(rows, me, id) <==> Mine(rows', me, id)
    ensures Settled(rows, me, id) ==> Settled(rows', me, id)
  {
  }

  // ----- every step keeps the invariant -----

  lemma HonestAfterApply(rows: Table, agent: string, results: seq<Report>, me: string, history: seq<Report>)
    requires RowsHonest(rows, me, history)
    requires agent == me ==> forall r <- results :: r in history
    ensures RowsHonest(Apply(rows, agent, results), me, history)
  {
    ApplyOnly(rows, agent, results);
    hide Apply;
    var rows' := Apply(rows, agent, results);
    forall id | id in rows'
      ensures rows'[id].spec.id == id && id != ""
      ensures rows'[id].agent == me && rows'[id].status == Done ==> ReportedAs(history, id, true)
      ensures rows'[id].agent == me && rows'[id].status == Failed ==> ReportedAs(history, id, false)
    {
      assert ChangedBy(rows[id], rows'[id], agent, id, results);
    }
  }

  lemma AccountedAfterApply(rows: Table, agent: string, results: seq<Report>, me: string,
                            planted: seq<Report>, pending: seq<Report>)
    requires PlantedAccounted(rows, me, planted, pending)
    ensures PlantedAccounted(Apply(rows, agent, results), me, planted, pending)
  {
    ApplyOnly(rows, agent, results);
    hide Apply, AppliedOnly;
    var rows' := Apply(rows, agent, results);
    forall r | r in planted
      ensures Mine(rows', me, r.id) && (Settled(rows', me, r.id) || r in pending)
    {
      SettledStays(rows, rows', agent, results, me, r.id);
    }
  }

  lemma FreshAfterApply(rows: Table, agent: string, results: seq<Report>, me: string,
                        planted: seq<Report>, work: seq<Deployment>)
    requires WorkIsFresh(rows, me, planted, work)
    ensures WorkIsFresh(Apply(rows, agent, results), me, planted, work)
  {
    ApplyOnly(rows, agent, results);
    hide Apply, AppliedOnly, Reported;
    var rows' := Apply(rows, agent, results);
    forall d | d in work
      ensures Mine(rows', me, d.id)
    {
      SettledStays(rows, rows', agent, results, me, d.id);
    }
    forall r | r in planted
      ensures Settled(rows', me, r.id)
    {
      SettledStays(rows, rows', agent, results, me, r.id);
    }
  }

  lemma InvAfterApply(w: World, agent: string, results: seq<Report>, me: string)
    requires Inv(w, me)
    requires agent == me ==> forall r <- results :: r in w.history
    ensures Inv(w.(rows := Apply(w.rows, agent, results)), me)
  {
    hide RowsHonest, PlantedAccounted, WorkIsFresh, Apply;
    HonestAfterApply(w.rows, agent, results, me, w.history);
    AccountedAfterApply(w.rows, agent, results, me, w.planted, w.pending);
    forall p | p in w.replies && w.waiting == Some(p.no)
      ensures WorkIsFresh(Apply(w.rows, agent, results), me, w.planted, p.work)
    {
      FreshAfterApply(w.rows, agent, results, me, w.planted, p.work);
    }
  }

  /** The answer to the heartbeat the agent waits for: its results went in first, so nothing planted is selected. */
  lemma SelectionIsFresh(w: World, me: string, no: nat, work: seq<Deployment>)
    requires Inv(w, me) && Enabled(w, me, Process(no, work)) && w.waiting == Some(no)
    ensures WorkIsFresh(Apply(w.rows, me, w.sent[no]), me, w.planted, work)
  {
    var rows' := Apply(w.rows, me, w.sent[no]);
    ApplySettles(w.rows, me, w.pending);
    AccountedAfterApply(w.rows, me, w.pending, me, w.planted, w.pending);
    hide Apply;
    forall r | r in w.planted
      ensures Settled(rows', me, r.id)
    {
      assert Mine(rows', me, r.id);
      if r in w.pending {
        assert Mine(w.rows, me, r.id);
      }
    }
    forall d | d in work
      ensures Mine(rows', me, d.id) && !Reported(w.planted, d.id)
    {
      assert d.id in PendingOf(rows', me);
    }
  }

  lemma SentInHistory(w: World, me: string, no: nat)
    requires Inv(w, me) && no in w.sent
    ensures forall r <- w.sent[no] :: r in w.history
  {
    hide RowsHonest, PlantedAccounted, WorkIsFresh, Distinct;
  }

  lemma ReplyKeeps(w: World, me: string, no: nat, work: seq<Deployment>)
    requires Inv(w, me) && no in w.sent && Acceptable(w.sent[no])
    requires w.waiting == Some(no) ==> WorkIsFresh(w.rows, me, w.planted, work)
    ensures Inv(w.(replies := w.replies + {Reply(no, work)}), me)
  {
    hide RowsHonest, PlantedAccounted, WorkIsFresh, Distinct, Acceptable;
  }

  lemma ProcessKeeps(w: World, me: string, no: nat, work: seq<Deployment>)
    requires Inv(w, me) && Enabled(w, me, Process(no, work))
    ensures Inv(Next(w, me, Process(no, work)), me)
  {
    hide Inv, WorkIsFresh, Apply, Selected, Acceptable;
    SentInHistory(w, me, no);
    InvAfterApply(w, me, w.sent[no], me);
    if w.waiting == Some(no) {
      SelectionIsFresh(w, me, no, work);
    }
    ReplyKeeps(w.(rows := Apply(w.rows, me, w.sent[no])), me, no, work);
  }

  lemma QueueKeeps(w: World, me: string, agent: string, spec: Deployment)
    requires Inv(w, me) && Enabled(w, me, Queue(agent, spec))
    ensures Inv(Next(w, me, Queue(agent, spec)), me)
  {
    hide ReportedAs, Reported, Distinct, DistinctWork;
    var w' := Next(w, me, Queue(agent, spec));
    assert forall id :: Mine(w.rows, me, id) ==> Mine(w'.rows, me, id) && w'.rows[id] == w.rows[id];
    forall p | p in w'.replies && w'.waiting == Some(p.no)
      ensures WorkIsFresh(w'.rows, me, w'.planted, p.work)
    {
      assert WorkIsFresh(w.rows, me, w.planted, p.work);
    }
  }

  lemma SendKeeps(w: World, me: string)
    requires Inv(w, me) && Enabled(w, me, Send)
    ensures Inv(Next(w, me, Send), me)
  {
    hide RowsHonest, PlantedAccounted, WorkIsFresh, Distinct;
  }

  lemma MoreHistory(history: seq<Report>, more: seq<Report>)
    ensures forall id, ok :: ReportedAs(history, id, ok) ==> ReportedAs(history + more, id, ok)
  {
    forall id, ok | ReportedAs(history, id, ok)
      ensures ReportedAs(history + more, id, ok)
    {
      var r :| r in history && r.id == id && r.ok == ok;
      assert r in history + more;
    }
  }

  /** New work is planted for the first time. */
  lemma DistinctAfterPlanting(planted: seq<Report>, work: seq<Deployment>, h: Host)
    requires Distinct(planted) && DistinctWork(work) && forall d <- work :: !Reported(planted, d.id)
    ensures Distinct(planted + Executed(work, h))
  {
    var rs := Executed(work, h);
    hide ExecuteOne;
    forall i, j | 0 <= i < j < |planted + rs|
      ensures (planted + rs)[i].id != (planted + rs)[j].id
    {
      if j >= |planted| {
        var d := work[j - |planted|];
        assert d in work && rs[j - |planted|] == ExecuteOne(d, h);
        if i < |planted| {
          assert planted[i] in planted;
        } else {
          assert rs[i - |planted|] == ExecuteOne(work[i - |planted|], h);
        }
      }
    }
  }

  lemma DeliverKeeps(w: World, me: string, work: seq<Deployment>, h: Host)
    requires Inv(w, me) && Enabled(w, me, Deliver(work, h))
    ensures Inv(Next(w, me, Deliver(work, h)), me)
  {
    hide ExecuteOne, Reported, ReportedAs;
    var rs := Executed(work, h);
    assert WorkIsFresh(w.rows, me, w.planted, work);
    DistinctAfterPlanting(w.planted, work, h);
    MoreHistory(w.history, rs);
    forall r | r in rs
      ensures Mine(w.rows, me, r.id) && r.id != ""
    {
      var i :| 0 <= i < |rs| && r == rs[i];
      assert r == ExecuteOne(work[i], h) && work[i] in work;
    }
    hide Executed, Distinct, WorkIsFresh;
    assert forall r :: r in w.planted + rs <==> r in w.planted || r in rs;
    assert forall r :: r in w.history + rs <==> r in w.history || r in rs;
  }

  lemma RestartKeeps(w: World, me: string)
    requires Inv(w, me)
    ensures Inv(Next(w, me, Restart), me)
  {
    hide RowsHonest, WorkIsFresh;
  }

  lemma GiveUpKeeps(w: World, me: string)
    requires Inv(w, me) && w.waiting.Some?
    ensures Inv(Next(w, me, GiveUp), me)
  {
    hide RowsHonest, WorkIsFresh, PlantedAccounted;
  }

  lemma StepKeeps(w: World, me: string, step: Step)
    requires Inv(w, me) && Enabled(w, me, step)
    ensures Inv(Next(w, me, step), me)
  {
    match step
    case Queue(agent, spec) => QueueKeeps(w, me, agent, spec);
    case Foreign(other, results) => InvAfterApply(w, other, results, me);
    case Send => SendKeeps(w, me);
    case Process(no, work) => ProcessKeeps(w, me, no, work);
    case Deliver(work, host) => DeliverKeeps(w, me, work, host);
    case GiveUp => GiveUpKeeps(w, me);
    case Restart => RestartKeeps(w, me);
  }

  // ----- whole runs -----

  ghost predicate Runs(w: World, me: string, steps: seq<Step>, w': World)
    decreases |steps|
  {
    if steps == [] then w' == w
    else Enabled(w, me, steps[0]) && Runs(Next(w, me, steps[0]), me, steps[1..], w')
  }

  lemma {:induction false} RunKeeps(w: World, me: string, steps: seq<Step>, w': World)
    requires Inv(w, me) && Runs(w, me, steps, w')
    ensures Inv(w', me)
    decreases |steps|
  {
    hide Inv, Next, Enabled;
    if steps != [] {
      StepKeeps(w, me, steps[0]);
      RunKeeps(Next(w, me, steps[0]), me, steps[1..], w');
    }
  }

  /**
   * Over any run one agent process plants each deployment at most once, never carries more than twenty
   * results, and a settled row says what a process of that agent really reported.
   */
  lemma AtMostOnce(me: string, steps: seq<Step>, w: World)
    requires Runs(Start(), me, steps, w)
    ensures Distinct(w.planted)
    ensures forall no <- w.sent :: |w.sent[no]| <= BATCH
    ensures forall id <- w.rows :: w.rows[id].agent == me ==>
      && (w.rows[id].status == Done ==> ReportedAs(w.history, id, true))
      && (w.rows[id].status == Failed ==> ReportedAs(w.history, id, false))
  {
    RunKeeps(Start(), me, steps, w);
  }

  /** While the first process runs, a settled row tells exactly how its one planting went. */
  lemma OutcomeIsTrue(me: string, steps: seq<Step>, w: World, r: Report)
    requires Runs(Start(), me, steps, w) && w.history == w.planted && r in w.planted && Settled(w.rows, me, r.id)
    ensures w.rows[r.id].status == Done <==> r.ok
  {
    RunKeeps(Start(), me, steps, w);
    hide Runs, PlantedAccounted, WorkIsFresh, SentHonest;
    var ok := w.rows[r.id].status == Done;
    assert ReportedAs(w.history, r.id, ok);
    var q :| q in w.planted && q.id == r.id && q.ok == ok;
    var i :| 0 <= i < |w.planted| && w.planted[i] == q;
    var j :| 0 <= j < |w.planted| && w.planted[j] == r;
    assert i == j;
  }

  /** A row keeps its agent and its work; once settled it never changes again. */
  ghost predicate OnlyForward(rows: Table, rows': Table) {
    forall id <- rows ::
      && id in rows' && rows'[id].agent == rows[id].agent && rows'[id].spec == rows[id].spec
      && (rows[id].status != Pending ==> rows'[id] == rows[id])
  }

  lemma ApplyForward(rows: Table, agent: string, results: seq<Report>)
    ensures OnlyForward(rows, Apply(rows, agent, results))
  {
    ApplyOnly(rows, agent, results);
    hide Apply;
    assert forall id <- rows :: ChangedBy(rows[id], Apply(rows, agent, results)[id], agent, id, results);
  }

  lemma StepForward(w: World, me: string, step: Step)
    requires Enabled(w, me, step)
    ensures OnlyForward(w.rows, Next(w, me, step).rows)
  {
    if step.Foreign? {
      ApplyForward(w.rows, step.other, step.results);
    } else if step.Process? {
      ApplyForward(w.rows, me, w.sent[step.no]);
    }
  }

  /** Status only moves from pending to done or failed, whatever the network does. */
  lemma {:induction false} StatusOnlyForward(w: World, me: string, steps: seq<Step>, w': World)
    requires Runs(w, me, steps, w')
    ensures OnlyForward(w.rows, w'.rows)
    decreases |steps|
  {
    hide Next, Enabled;
    if steps != [] {
      StepForward(w, me, steps[0]);
      StatusOnlyForward(Next(w, me, steps[0]), me, steps[1..], w');
    }
  }

  lemma {:induction false} RunsConcat(w: World, me: string, a: seq<Step>, w1: World, b: seq<Step>, w2: World)
    requires Runs(w, me, a, w1) && Runs(w1, me, b, w2)
    ensures Runs(w, me, a + b, w2)
    decreases |a|
  {
    hide Next, Enabled;
    if a == [] {
      assert a + b == b;
    } else {
      assert (a + b)[1..] == a[1..] + b;
      RunsConcat(Next(w, me, a[0]), me, a[1..], w1, b, w2);
    }
  }

  function Beat(no: nat, work: seq<Deployment>, h: Host): seq<Step> {
    [Send, Process(no, work), Deliver(work, h)]
  }

  /** The world after one heartbeat that reached the console, was answered, and whose answer came back. */
  function AfterBeat(w: World, me: string, work: seq<Deployment>, h: Host): World {
    var rs := Executed(work, h);
    w.(rows := Apply(w.rows, me, w.pending), sent := w.sent[w.next := w.pending],
       replies := w.replies + {Reply(w.next, work)}, next := w.next + 1, waiting := None,
       pending := rs, planted := w.planted + rs, history := w.history + rs, trips := w.trips + 1)
  }

  lemma BeatRuns(w: World, me: string, work: seq<Deployment>, h: Host)
    requires w.waiting.None? && Acceptable(w.pending) && Selected(Apply(w.rows, me, w.pending), me, work)
    ensures Runs(w, me, Beat(w.next, work, h), AfterBeat(w, me, work, h))
  {
    hide Executed, Apply, Selected, Acceptable;
    var steps := Beat(w.next, work, h);
    var w1 := Next(w, me, Send);
    var w2 := Next(w1, me, Process(w.next, work));
    var w3 := Next(w2, me, Deliver(work, h));
    assert w3 == AfterBeat(w, me, work, h);
    hide Next, Enabled;
    assert Runs(w3, me, [], w3);
    assert steps[2..] == [Deliver(work, h)] && steps[2..][1..] == [];
    assert Runs(w2, me, steps[2..], w3);
    assert steps[1..][1..] == steps[2..];
    assert Runs(w1, me, steps[1..], w3);
  }

  lemma OneStep(w: World, me: string, step: Step)
    requires Enabled(w, me, step)
    ensures Runs(w, me, [step], Next(w, me, step))
  {
    hide Next, Enabled;
    assert Runs(Next(w, me, step), me, [step][1..], Next(w, me, step));
  }

  lemma OnlyOnePending(rows: Table, me: string, d: Deployment)
    requires rows == map[d.id := Row(me, d, Pending, None)]
    ensures Selected(rows, me, [d])
  {
    assert PendingOf(rows, me) == {d.id};
  }
}
