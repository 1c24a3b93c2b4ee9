/**
 How fast pending deployments drain, and the one thing that stops them: a report whose error text is
 too long is refused with the whole heartbeat, forever.
 */
module DeploymentProgress {
  import opened DeploymentRuns
  import opened Deployments
  import opened Options

  /** No new work for this agent, and the process goes on living. */
  predicate Quiet(me: string, step: Step) {
    !step.Restart? && (step.Queue? ==> step.agent != me)
  }

  ghost predicate AllQuiet(me: string, steps: seq<Step>) {
    forall s <- steps :: Quiet(me, s)
  }

  /** Pending at the console and not yet planted by this process. */
  ghost function Unplanted(w: World, me: string): set<Id> {
    set id | id in PendingOf(w.rows, me) && !Reported(w.planted, id)
  }

  /** What `k` full batches leave of `n`. */
  function Left(n: nat, k: nat): nat {
    if n > BATCH * k then n - BATCH * k else 0
  }

  /** An answer on its way takes what it carries off the work that is left. */
  ghost predicate ReplyDrains(left: set<Id>, work: seq<Deployment>, n: nat, k: nat) {
    |left - Ids(work)| <= Left(n, k + 1) && |work| <= Left(n, k)
  }

  /** Each successful trip after trip number `base` takes a batch off the `n` that were pending. */
  ghost predicate Draining(w: World, me: string, n: nat, base: nat) {
    && base <= w.trips
    && |Unplanted(w, me)| <= Left(n, w.trips - base)
    && (forall p <- w.replies :: w.waiting == Some(p.no) ==> ReplyDrains(Unplanted(w, me), p.work, n, w.trips - base))
    && (w.trips > base && Left(n, w.trips - base - 1) == 0 ==> PendingOf(w.rows, me) == {})
  }

  lemma {:induction false} IdsCount(ds: seq<Deployment>)
    requires DistinctWork(ds)
    ensures |Ids(ds)| == |ds|
    decreases |ds|
  {
    if ds != [] {
      var front, d := ds[..|ds| - 1], ds[|ds| - 1];
      IdsCount(front);
      assert ds == front + [d];
      IdsOneMore(front, d);
      assert d.id !in Ids(front);
    } else {
      assert Ids(ds) == {};
    }
  }

  lemma SubsetCount<T>(a: set<T>, b: set<T>)
    requires a <= b
    ensures |a| <= |b|
  {
    assert b == a + (b - a);
  }

  /** Results only take work away. */
  lemma ApplyShrinks(rows: Table, agent: string, results: seq<Report>, me: string)
    ensures PendingOf(Apply(rows, agent, results), me) <= PendingOf(rows, me)
  {
    ApplyOnly(rows, agent, results);
    hide Apply;
    var rows' := Apply(rows, agent, results);
    forall id | id in PendingOf(rows', me)
      ensures id in PendingOf(rows, me)
    {
      assert ChangedBy(rows[id], rows'[id], agent, id, results);
    }
  }

  lemma FewerDrains(left: set<Id>, left': set<Id>, work: seq<Deployment>, n: nat, k: nat)
    requires left' <= left && ReplyDrains(left, work, n, k)
    ensures ReplyDrains(left', work, n, k)
  {
    SubsetCount(left' - Ids(work), left - Ids(work));
  }

  lemma ApplyDraining(w: World, me: string, n: nat, base: nat, agent: string, results: seq<Report>)
    requires Draining(w, me, n, base)
    ensures Draining(w.(rows := Apply(w.rows, agent, results)), me, n, base)
  {
    hide Apply, PendingOf, Reported, Left, ReplyDrains;
    var w' := w.(rows := Apply(w.rows, agent, results));
    ApplyShrinks(w.rows, agent, results, me);
    assert Unplanted(w', me) <= Unplanted(w, me);
    hide Unplanted;
    SubsetCount(Unplanted(w', me), Unplanted(w, me));
    SubsetCount(PendingOf(w'.rows, me), PendingOf(w.rows, me));
    forall p | p in w.replies && w.waiting == Some(p.no)
      ensures ReplyDrains(Unplanted(w', me), p.work, n, w.trips - base)
    {
      FewerDrains(Unplanted(w, me), Unplanted(w', me), p.work, n, w.trips - base);
    }
  }

  /** With everything planted settled, what is pending has not been planted. */
  lemma PendingIsUnplanted(w: World, me: string)
    requires forall r <- w.planted :: Settled(w.rows, me, r.id)
    ensures PendingOf(w.rows, me) == Unplanted(w, me)
  {
    assert forall r <- w.planted :: r.id !in PendingOf(w.rows, me);
    hide PendingOf, Settled;
  }

  /** A full selection is one batch off what is left. */
  lemma SelectionDrains(left: set<Id>, work: seq<Deployment>, n: nat, k: nat)
    requires DistinctWork(work) && Ids(work) <= left && |work| == Min(BATCH, |left|) && |left| <= Left(n, k)
    ensures ReplyDrains(left, work, n, k)
  {
    IdsCount(work);
    hide Ids;
    assert |left - Ids(work)| == |left| - |Ids(work)|;
  }

  lemma SelectedIds(rows: Table, me: string, work: seq<Deployment>)
    requires Selected(rows, me, work)
    ensures Ids(work) <= PendingOf(rows, me) && DistinctWork(work)
    ensures |work| == Min(BATCH, |PendingOf(rows, me)|)
  {
    hide PendingOf;
  }

  lemma OneMoreReply(w: World, me: string, n: nat, base: nat, p: Reply)
    requires Draining(w, me, n, base)
    requires w.waiting == Some(p.no) ==> ReplyDrains(Unplanted(w, me), p.work, n, w.trips - base)
    ensures Draining(w.(replies := w.replies + {p}), me, n, base)
  {
    hide PendingOf, Reported, ReplyDrains, Left;
    assert Unplanted(w.(replies := w.replies + {p}), me) == Unplanted(w, me);
    hide Unplanted;
  }

  lemma FreshSelectionDrains(w: World, me: string, n: nat, k: nat, no: nat, work: seq<Deployment>)
    requires Inv(w, me) && Enabled(w, me, Process(no, work)) && w.waiting == Some(no)
    requires |Unplanted(w.(rows := Apply(w.rows, me, w.sent[no])), me)| <= Left(n, k)
    ensures ReplyDrains(Unplanted(w.(rows := Apply(w.rows, me, w.sent[no])), me), work, n, k)
  {
    hide Inv, Apply, Selected, PendingOf, Unplanted, Left, Ids, ReplyDrains, DistinctWork;
    var w1 := w.(rows := Apply(w.rows, me, w.sent[no]));
    SelectionIsFresh(w, me, no, work);
    PendingIsUnplanted(w1, me);
    SelectedIds(w1.rows, me, work);
    SelectionDrains(Unplanted(w1, me), work, n, k);
  }

  lemma ProcessDraining(w: World, me: string, n: nat, base: nat, no: nat, work: seq<Deployment>)
    requires Inv(w, me) && Draining(w, me, n, base) && Enabled(w, me, Process(no, work))
    ensures Draining(Next(w, me, Process(no, work)), me, n, base)
  {
    hide Inv, Apply, Selected, PendingOf, Unplanted, Left, Ids, ReplyDrains, Acceptable;
    var w1 := w.(rows := Apply(w.rows, me, w.sent[no]));
    ApplyDraining(w, me, n, base, me, w.sent[no]);
    if w.waiting == Some(no) {
      FreshSelectionDrains(w, me, n, w.trips - base, no, work);
    }
    hide Draining;
    OneMoreReply(w1, me, n, base, Reply(no, work));
    assert Next(w, me, Process(no, work)) == w1.(replies := w1.replies + {Reply(no, work)});
  }

  lemma ReportedAfterPlanting(planted: seq<Report>, work: seq<Deployment>, h: Host, id: Id)
    ensures Reported(planted + Executed(work, h), id) <==> Reported(planted, id) || id in Ids(work)
  {
    hide ExecuteOne;
    var rs := Executed(work, h);
    if id in Ids(work) {
      var d :| d in work && d.id == id;
      var i :| 0 <= i < |work| && work[i] == d;
      assert rs[i] == ExecuteOne(d, h) && rs[i] in planted + rs;
    }
    if Reported(planted, id) {
      var r :| r in planted && r.id == id;
      assert r in planted + rs;
    }
    if Reported(planted + rs, id) {
      var r :| r in planted + rs && r.id == id;
      if r !in planted {
        var i :| 0 <= i < |rs| && rs[i] == r;
        assert r == ExecuteOne(work[i], h) && work[i] in work;
      }
    }
  }

  lemma UnplantedAfterPlanting(w: World, w': World, me: string, work: seq<Deployment>, h: Host)
    requires w'.rows == w.rows && w'.planted == w.planted + Executed(work, h)
    ensures Unplanted(w', me) == Unplanted(w, me) - Ids(work)
  {
    hide PendingOf, Reported, Ids, Executed;
    forall id
      ensures id in Unplanted(w', me) <==> id in Unplanted(w, me) - Ids(work)
    {
      ReportedAfterPlanting(w.planted, work, h, id);
    }
  }

  lemma DeliverDraining(w: World, me: string, n: nat, base: nat, work: seq<Deployment>, h: Host)
    requires Inv(w, me) && Draining(w, me, n, base) && Enabled(w, me, Deliver(work, h))
    ensures Draining(Next(w, me, Deliver(work, h)), me, n, base)
  {
    hide Executed, PendingOf, Unplanted, Ids, RowsHonest, PlantedAccounted, Distinct, SentHonest;
    var w' := Next(w, me, Deliver(work, h));
    assert Reply(w.waiting.value, work) in w.replies;
    PendingIsUnplanted(w, me);
    UnplantedAfterPlanting(w, w', me, work, h);
  }

  lemma ForeignQueueDraining(w: World, me: string, n: nat, base: nat, agent: string, spec: Deployment)
    requires Draining(w, me, n, base) && agent != me && Enabled(w, me, Queue(agent, spec))
    ensures Draining(Next(w, me, Queue(agent, spec)), me, n, base)
  {
    hide PendingOf, Left, ReplyDrains, Unplanted;
    var w' := Next(w, me, Queue(agent, spec));
    SamePending(w.rows, w'.rows, me, agent, spec);
    SameUnplanted(w, w', me);
  }

  lemma SameUnplanted(w: World, w': World, me: string)
    requires PendingOf(w'.rows, me) == PendingOf(w.rows, me) && w'.planted == w.planted
    ensures Unplanted(w', me) == Unplanted(w, me)
  {
    hide PendingOf, Reported;
  }

  lemma SamePending(rows: Table, rows': Table, me: string, agent: string, spec: Deployment)
    requires spec.id !in rows && agent != me && rows' == rows[spec.id := Row(agent, spec, Pending, None)]
    ensures PendingOf(rows', me) == PendingOf(rows, me)
  {
  }

  lemma OtherDraining(w: World, me: string, n: nat, base: nat, step: Step)
    requires Inv(w, me) && Draining(w, me, n, base) && Enabled(w, me, step) && (step.Send? || step.GiveUp?)
    ensures Draining(Next(w, me, step), me, n, base)
  {
    hide PendingOf, Reported, Ids, Left, ReplyDrains;
    assert Unplanted(Next(w, me, step), me) == Unplanted(w, me);
  }

  lemma StepDraining(w: World, me: string, n: nat, base: nat, step: Step)
    requires Inv(w, me) && Draining(w, me, n, base) && Enabled(w, me, step) && Quiet(me, step)
    ensures Draining(Next(w, me, step), me, n, base)
  {
    hide Inv, Draining, PendingOf, Reported, Ids, Left, Executed, Apply, ReplyDrains;
    if step.Process? {
      ProcessDraining(w, me, n, base, step.no, step.work);
    } else if step.Deliver? {
      DeliverDraining(w, me, n, base, step.work, step.host);
    } else if step.Queue? {
      ForeignQueueDraining(w, me, n, base, step.agent, step.spec);
    } else if step.Foreign? {
      ApplyDraining(w, me, n, base, step.other, step.results);
    } else {
      OtherDraining(w, me, n, base, step);
    }
  }

  lemma {:induction false} RunDraining(w: World, me: string, n: nat, base: nat, steps: seq<Step>, w': World)
    requires Inv(w, me) && Draining(w, me, n, base) && Runs(w, me, steps, w') && AllQuiet(me, steps)
    ensures Draining(w', me, n, base)
    decreases |steps|
  {
    hide Inv, Draining, Next, Enabled, Quiet;
    if steps != [] {
      assert steps[0] in steps;
      StepKeeps(w, me, steps[0]);
      StepDraining(w, me, n, base, steps[0]);
      RunDraining(Next(w, me, steps[0]), me, n, base, steps[1..], w');
    }
  }

  /** `n` pending deployments are all settled after at most n/20, rounded up, plus one successful trips. */
  lemma AllSettled(w: World, me: string, steps: seq<Step>, w': World)
    requires Inv(w, me) && w.waiting.None? && Runs(w, me, steps, w') && AllQuiet(me, steps)
    requires var n := |PendingOf(w.rows, me)|; w'.trips >= w.trips + (n + 19) / 20 + 1
    ensures PendingOf(w'.rows, me) == {}
  {
    var n := |PendingOf(w.rows, me)|;
    SubsetCount(Unplanted(w, me), PendingOf(w.rows, me));
    hide Inv, Runs, PendingOf, Reported, Ids;
    assert Left(n, 0) == n;
    assert Draining(w, me, n, w.trips);
    RunDraining(w, me, n, w.trips, steps, w');
  }

  // ----- exactly when the agent can get through -----

  lemma {:induction false} SelectionFrom(rows: Table, agent: string, left: set<Id>, some: seq<Deployment>)
    returns (ds: seq<Deployment>)
    requires forall id <- rows :: rows[id].spec.id == id
    requires Picked(rows, PendingOf(rows, agent), left, some) && |some| <= BATCH
    ensures Selected(rows, agent, ds) && some <= ds
    decreases left
  {
    hide PendingOf, Ids, Picked, Selected;
    if left == {} || |some| == BATCH {
      PickedEnough(rows, agent, left, some);
      ds := some;
    } else {
      var id :| id in left;
      PickedIds(rows, PendingOf(rows, agent), left, some);
      PickOne(rows, PendingOf(rows, agent), left, some, id);
      ds := SelectionFrom(rows, agent, left - {id}, some + [rows[id].spec]);
    }
  }

  lemma SelectionExists(rows: Table, agent: string) returns (ds: seq<Deployment>)
    requires forall id <- rows :: rows[id].spec.id == id
    ensures Selected(rows, agent, ds)
  {
    PickedNone(rows, agent);
    ds := SelectionFrom(rows, agent, PendingOf(rows, agent), []);
  }

  /** The reports that wait to be sent are refused by the console's schema. */
  ghost predicate Stuck(w: World) {
    !Acceptable(w.pending)
  }

  lemma StepStaysStuck(w: World, me: string, step: Step)
    requires Inv(w, me) && Stuck(w) && Enabled(w, me, step) && !step.Restart?
    ensures var w' := Next(w, me, step); w'.pending == w.pending && w'.trips == w.trips && w'.planted == w.planted
  {
    hide RowsHonest, PlantedAccounted, WorkIsFresh, Distinct, Acceptable, Apply, Executed;
  }

  lemma {:induction false} StaysStuck(w: World, me: string, steps: seq<Step>, w': World)
    requires Inv(w, me) && Stuck(w) && Runs(w, me, steps, w')
    requires forall s <- steps :: !s.Restart?
    ensures w'.pending == w.pending && w'.trips == w.trips && w'.planted == w.planted
    decreases |steps|
  {
    hide Inv, Next, Enabled;
    if steps != [] {
      assert steps[0] in steps;
      StepKeeps(w, me, steps[0]);
      StepStaysStuck(w, me, steps[0]);
      StaysStuck(Next(w, me, steps[0]), me, steps[1..], w');
    }
  }

  predicate ShortErrors(rs: seq<Report>) {
    forall r <- rs :: r.error.Some? ==> |r.error.value| <= 500
  }

  /** An idle agent can ever complete another trip if and only if no error text it has to report is over-long. */
  lemma ProgressIffShortErrors(w: World, me: string)
    requires Inv(w, me) && w.waiting.None?
    ensures ShortErrors(w.pending) <==>
      exists steps, w' :: Runs(w, me, steps, w') && AllQuiet(me, steps) && w'.trips > w.trips
  {
    if ShortErrors(w.pending) {
      assert Acceptable(w.pending);
      HonestAfterApply(w.rows, me, w.pending, me, w.history);
      var work := SelectionExists(Apply(w.rows, me, w.pending), me);
      var h := Host(s => s, s => s, _ => None, _ => None, _ => None);
      BeatRuns(w, me, work, h);
      assert AllQuiet(me, Beat(w.next, work, h));
    } else {
      assert Stuck(w);
      forall steps, w' | Runs(w, me, steps, w') && AllQuiet(me, steps)
        ensures w'.trips == w.trips
      {
        StaysStuck(w, me, steps, w');
      }
    }
  }

  // ----- an error text that is too long -----

  /** The row of `id` is pending, and no report on it that was sent can be accepted. */
  ghost predicate Unreported(w: World, me: string, id: Id) {
    && id in PendingOf(w.rows, me)
    && forall no <- w.sent :: Acceptable(w.sent[no]) ==> !Reported(w.sent[no], id)
  }

  lemma OthersApplied(rows: Table, agent: string, results: seq<Report>, me: string, id: Id)
    requires id in PendingOf(rows, me) && (agent != me || !Reported(results, id))
    ensures id in PendingOf(Apply(rows, agent, results), me)
  {
    ApplyOnly(rows, agent, results);
    hide Apply;
    assert ChangedBy(rows[id], Apply(rows, agent, results)[id], agent, id, results);
  }

  lemma StepStaysUnreported(w: World, me: string, step: Step, id: Id)
    requires Inv(w, me) && Stuck(w) && Enabled(w, me, step) && !step.Restart? && Unreported(w, me, id)
    ensures Unreported(Next(w, me, step), me, id)
  {
    hide Reported, Inv, Executed, Apply;
    if step.Foreign? {
      OthersApplied(w.rows, step.other, step.results, me, id);
    } else if step.Process? {
      OthersApplied(w.rows, me, w.sent[step.no], me, id);
    }
  }

  lemma {:induction false} StaysUnreported(w: World, me: string, steps: seq<Step>, w': World, id: Id)
    requires Inv(w, me) && Stuck(w) && Runs(w, me, steps, w') && Unreported(w, me, id)
    requires forall s <- steps :: !s.Restart?
    ensures Unreported(w', me, id)
    decreases |steps|
  {
    hide Inv, Acceptable, Next, Enabled, Unreported;
    if steps != [] {
      assert steps[0] in steps && forall s <- steps[1..] :: s in steps;
      StepKeeps(w, me, steps[0]);
      StepStaysStuck(w, me, steps[0]);
      StepStaysUnreported(w, me, steps[0], id);
      StaysUnreported(Next(w, me, steps[0]), me, steps[1..], w', id);
    }
  }

  /**
   * An artifact whose directory and file name are long, on a host that repeats the path when writing fails: the
   * report is refused for good. The agent makes no further trip until it restarts, and the row stays pending.
   */
  lemma LongPathSticks(me: string, d: Deployment, h: Host) returns (steps: seq<Step>, w: World)
    requires d.id != "" && HasContent(d, h)
    requires d.filename != "" && d.targetDir != "" && |d.targetDir| + |d.filename| >= 240
    requires h.baseName(d.filename) == d.filename && h.mkdir(d.targetDir).None?
    requires h.write(Dest(d)) == Some("open " + Dest(d) + ": permission denied")
    ensures Runs(Start(), me, steps, w) && w.waiting.None? && Stuck(w) && d.id in PendingOf(w.rows, me)
    ensures forall more: seq<Step>, w' | Runs(w, me, more, w') && (forall s <- more :: !s.Restart?) ::
      w'.trips == w.trips && w'.planted == w.planted && d.id in PendingOf(w'.rows, me)
  {
    var queued := Next(Start(), me, Queue(me, d));
    OnlyOnePending(queued.rows, me, d);
    assert Apply(queued.rows, me, []) == queued.rows;
    LongError(d, h);
    assert Executed([d], h) == [ExecuteOne(d, h)] && ExecuteOne(d, h) in Executed([d], h);
    hide ExecuteOne, Executed, Runs, Selected, Dest;
    OneStep(Start(), me, Queue(me, d));
    BeatRuns(queued, me, [d], h);
    w := AfterBeat(queued, me, [d], h);
    steps := [Queue(me, d)] + Beat(queued.next, [d], h);
    RunsConcat(Start(), me, [Queue(me, d)], queued, Beat(queued.next, [d], h), w);
    RunKeeps(Start(), me, steps, w);
    assert Unreported(w, me, d.id);
    assert Stuck(w);
    hide Inv, AfterBeat, Stuck;
    forall more: seq<Step>, w' | Runs(w, me, more, w') && forall s <- more :: !s.Restart?
      ensures w'.trips == w.trips && w'.planted == w.planted && d.id in PendingOf(w'.rows, me)
    {
      StaysStuck(w, me, more, w');
      StaysUnreported(w, me, more, w', d.id);
    }
  }

  /** A file whose payload can be decoded, or a shortcut with a URL. */
  predicate HasContent(d: Deployment, h: Host) {
    (d.kind == "file" && d.payload.Some? && h.decode(d.payload.value).None?) || (d.kind == "shortcut" && d.url.Some?)
  }

  function Dest(d: Deployment): string {
    d.targetDir + "/" + d.filename
  }

  lemma LongError(d: Deployment, h: Host)
    requires d.id != "" && HasContent(d, h)
    requires d.filename != "" && d.targetDir != "" && |d.targetDir| + |d.filename| >= 240
    requires h.baseName(d.filename) == d.filename && h.mkdir(d.targetDir).None?
    requires h.write(Dest(d)) == Some("open " + Dest(d) + ": permission denied")
    ensures var e := ExecuteOne(d, h).error;
      e.Some? && |e.value| > MAX_ERROR
  {
  }
}
