/**
 What a restart of the agent process does to planting at most once: it keeps it exactly when everything
 planted so far is settled at the console.
 */
module DeploymentRestart {
  import opened DeploymentProgress
  import opened DeploymentRuns
  import opened Deployments
  import opened Options

  /** Everything ever planted was queued for this agent. */
  ghost predicate HistoryMine(w: World, me: string) {
    forall r <- w.history :: Mine(w.rows, me, r.id)
  }

  ghost predicate NoRestart(steps: seq<Step>) {
    forall step <- steps :: !step.Restart?
  }

  // ----- over every run, restarts included -----

  lemma StepKeepsMine(w: World, me: string, step: Step)
    requires Inv(w, me) && HistoryMine(w, me) && Enabled(w, me, step)
    ensures HistoryMine(Next(w, me, step), me)
  {
    StepForward(w, me, step);
    var w' := Next(w, me, step);
    if step.Deliver? {
      assert WorkIsFresh(w.rows, me, w.planted, step.work);
      hide ExecuteOne, Inv;
      forall r | r in w'.history
        ensures Mine(w'.rows, me, r.id)
      {
        if r !in w.history {
          var rs := Executed(step.work, step.host);
          var i :| 0 <= i < |rs| && rs[i] == r;
          assert r == ExecuteOne(step.work[i], step.host) && step.work[i] in step.work;
        }
      }
    } else {
      hide Inv;
      assert w'.history == w.history;
    }
  }

  lemma {:induction false} RunKeepsMine(w: World, me: string, steps: seq<Step>, w': World)
    requires Inv(w, me) && HistoryMine(w, me) && Runs(w, me, steps, w')
    ensures HistoryMine(w', me)
    decreases |steps|
  {
    hide Inv, HistoryMine, Next, Enabled;
    if steps != [] {
      StepKeeps(w, me, steps[0]);
      StepKeepsMine(w, me, steps[0]);
      RunKeepsMine(Next(w, me, steps[0]), me, steps[1..], w');
    }
  }

  lemma ReachedWorld(me: string, before: seq<Step>, w: World)
    requires Runs(Start(), me, before, w)
    ensures Inv(w, me) && HistoryMine(w, me)
  {
    hide Runs;
    RunKeeps(Start(), me, before, w);
    RunKeepsMine(Start(), me, before, w);
  }

  lemma {:induction false} FirstProcess(w: World, me: string, steps: seq<Step>, w': World)
    requires Runs(w, me, steps, w') && NoRestart(steps) && w.history == w.planted
    ensures w'.history == w'.planted
    decreases |steps|
  {
    hide Enabled;
    if steps != [] {
      assert steps[0] in steps && forall step <- steps[1..] :: step in steps;
      FirstProcess(Next(w, me, steps[0]), me, steps[1..], w');
    }
  }

  /** Until the first restart nothing at all has been planted twice. */
  lemma FirstProcessDistinct(me: string, steps: seq<Step>, w: World)
    requires Runs(Start(), me, steps, w) && NoRestart(steps)
    ensures Distinct(w.history)
  {
    RunKeeps(Start(), me, steps, w);
    FirstProcess(Start(), me, steps, w);
  }

  // ----- everything settled: nothing is repeated -----

  /** The same world as if one process had planted everything. */
  function AsOneProcess(w: World): World {
    w.(planted := w.history)
  }

  lemma {:induction false} RunsAsOneProcess(w: World, me: string, steps: seq<Step>, w': World)
    requires Runs(w, me, steps, w') && NoRestart(steps)
    ensures Runs(AsOneProcess(w), me, steps, AsOneProcess(w'))
    decreases |steps|
  {
    if steps != [] {
      assert steps[0] in steps && forall step <- steps[1..] :: step in steps;
      var v := Next(w, me, steps[0]);
      assert Enabled(AsOneProcess(w), me, steps[0]) && Next(AsOneProcess(w), me, steps[0]) == AsOneProcess(v);
      hide Next, Enabled;
      RunsAsOneProcess(v, me, steps[1..], w');
    }
  }

  lemma RestartedInv(w: World, me: string)
    requires Inv(w, me) && Distinct(w.history) && forall r <- w.history :: Settled(w.rows, me, r.id)
    ensures Inv(AsOneProcess(Next(w, me, Restart)), me)
  {
    hide RowsHonest, WorkIsFresh;
  }

  lemma SettledNeverRepeats(w: World, me: string, steps: seq<Step>, w': World)
    requires Inv(w, me) && Distinct(w.history) && forall r <- w.history :: Settled(w.rows, me, r.id)
    requires Runs(Next(w, me, Restart), me, steps, w') && NoRestart(steps)
    ensures Distinct(w'.history)
  {
    hide Runs, PlantedAccounted;
    RestartedInv(w, me);
    RunsAsOneProcess(Next(w, me, Restart), me, steps, w');
    RunKeeps(AsOneProcess(Next(w, me, Restart)), me, steps, AsOneProcess(w'));
  }

  // ----- something unsettled: it can be planted again -----

  /** A selection that starts with a given pending row. */
  lemma SelectedWith(rows: Table, agent: string, id: Id) returns (ds: seq<Deployment>)
    requires (forall k <- rows :: rows[k].spec.id == k) && id in PendingOf(rows, agent)
    ensures Selected(rows, agent, ds) && ds != [] && ds[0].id == id
  {
    var all := PendingOf(rows, agent);
    PickedNone(rows, agent);
    PickOne(rows, all, all, [], id);
    assert [] + [rows[id].spec] == [rows[id].spec];
    hide Picked, Selected, PendingOf;
    ds := SelectionFrom(rows, agent, all - {id}, [rows[id].spec]);
  }

  lemma UnsettledRepeats(w: World, me: string, r: Report) returns (steps: seq<Step>, w': World)
    requires Inv(w, me) && HistoryMine(w, me) && r in w.history && !Settled(w.rows, me, r.id)
    ensures Runs(Next(w, me, Restart), me, steps, w') && NoRestart(steps) && !Distinct(w'.history)
  {
    var v := Next(w, me, Restart);
    assert r.id in PendingOf(v.rows, me);
    var work := SelectedWith(v.rows, me, r.id);
    var h := Host(s => s, s => s, _ => None, _ => None, _ => None);
    assert Apply(v.rows, me, []) == v.rows;
    hide Selected, PendingOf, Inv, HistoryMine, Runs;
    BeatRuns(v, me, work, h);
    steps, w' := Beat(v.next, work, h), AfterBeat(v, me, work, h);
    RepeatedReport(w.history, work, h, r);
  }

  lemma RepeatedReport(history: seq<Report>, work: seq<Deployment>, h: Host, r: Report)
    requires r in history && work != [] && work[0].id == r.id
    ensures !Distinct(history + Executed(work, h))
  {
    hide ExecuteOne;
    var i :| 0 <= i < |history| && history[i] == r;
    var all := history + Executed(work, h);
    assert all[i] == r && all[|history|] == ExecuteOne(work[0], h);
  }

  /**
   * After a restart, in whatever world a run with earlier restarts has led to without planting anything twice:
   * nothing is ever planted twice, whatever the network does, if and only if the console has settled all that
   * was planted before.
   */
  lemma RestartRepeatsIff(me: string, before: seq<Step>, w: World)
    requires Runs(Start(), me, before, w) && Distinct(w.history)
    ensures
      (forall steps, w' | Runs(Next(w, me, Restart), me, steps, w') && NoRestart(steps) :: Distinct(w'.history))
      <==> forall r <- w.history :: Settled(w.rows, me, r.id)
  {
    hide Inv, HistoryMine, Runs, Next, Distinct, NoRestart;
    ReachedWorld(me, before, w);
    if r :| r in w.history && !Settled(w.rows, me, r.id) {
      var steps, w' := UnsettledRepeats(w, me, r);
    } else {
      forall steps, w' | Runs(Next(w, me, Restart), me, steps, w') && NoRestart(steps)
        ensures Distinct(w'.history)
      {
        SettledNeverRepeats(w, me, steps, w');
      }
    }
  }

  /** From the start such a run exists: the bound is per process. */
  lemma RestartRepeats(me: string)
    ensures exists steps, w :: Runs(Start(), me, steps, w) && !Distinct(w.history)
  {
    var h := Host(s => s, s => s, _ => None, _ => None, _ => None);
    var d := Deployment("dep_1", "shortcut", "/tmp", "a.url", None, Some("http://t/"));
    hide Runs, Executed, Selected;
    var w1 := Next(Start(), me, Queue(me, d));
    OneStep(Start(), me, Queue(me, d));
    OnlyOnePending(w1.rows, me, d);
    assert Apply(w1.rows, me, []) == w1.rows;
    BeatRuns(w1, me, [d], h);
    var w2 := AfterBeat(w1, me, [d], h);
    RunsConcat(Start(), me, [Queue(me, d)], w1, Beat(w1.next, [d], h), w2);
    var w3 := Next(w2, me, Restart);
    OneStep(w2, me, Restart);
    RunsConcat(Start(), me, [Queue(me, d)] + Beat(w1.next, [d], h), w2, [Restart], w3);
    BeatRuns(w3, me, [d], h);
    var w4 := AfterBeat(w3, me, [d], h);
    RunsConcat(Start(), me, [Queue(me, d)] + Beat(w1.next, [d], h) + [Restart], w3, Beat(w3.next, [d], h), w4);
    TwiceTheSame(d, h);
    assert w4.history == [] + Executed([d], h) + Executed([d], h);
  }

  lemma TwiceTheSame(d: Deployment, h: Host)
    ensures !Distinct([] + Executed([d], h) + Executed([d], h))
  {
    hide ExecuteOne;
    var rs := [] + Executed([d], h) + Executed([d], h);
    assert rs[0].id == d.id && rs[1].id == d.id;
  }
}
