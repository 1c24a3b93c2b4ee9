/**
 The circuit breaker on alert channels: deliveries started by `apps/api/src/alerts/dispatcher.ts` hold a copy
 of the channel row from when they started, while `apps/api/src/routes/alerts.ts` and other deliveries write
 to the same rows.
 */
module Breaker {
  const MAX_FAILURES := 5

  type Id = string

  datatype Channel = Channel(enabled: bool, failureCount: int)

  /** A delivery under way: its channel, and the failure count it read when it started. */
  datatype Flight = Flight(channel: Id, failureCount: int)

  datatype State = State(channels: map<Id, Channel>, flights: multiset<Flight>)

  datatype Step =
    | Create(id: Id)
    | Delete(id: Id)
    /** `enabled` when it is given, and whether a new configuration is. */
    | Edit(id: Id, enable: bool, value: bool, reconfigure: bool)
    | Dispatch
    | Settle(flight: Flight, delivered: bool)

  predicate CanStep(s: State, step: Step) {
    match step
    case Create(id) => id !in s.channels
    case Settle(flight, _) => flight in s.flights
    case _ => true
  }

  function Edited(c: Channel, enable: bool, value: bool, reconfigure: bool): Channel {
    Channel(if enable then value else c.enabled, if enable || reconfigure then 0 else c.failureCount)
  }

  function Started(channels: map<Id, Channel>): set<Flight> {
    set id | id in channels && channels[id].enabled :: Flight(id, channels[id].failureCount)
  }

  /** `f` is a copy of an enabled row. */
  predicate Reads(channels: map<Id, Channel>, f: Flight) {
    f.channel in channels && channels[f.channel] == Channel(true, f.failureCount)
  }

  function Settled(channels: map<Id, Channel>, f: Flight, delivered: bool): map<Id, Channel> {
    if f.channel !in channels then channels
    else if !delivered then channels[f.channel := Channel(f.failureCount + 1 < MAX_FAILURES, f.failureCount + 1)]
    else if f.failureCount > 0 then channels[f.channel := channels[f.channel].(failureCount := 0)]
    else channels
  }

  function Next(s: State, step: Step): State
    requires CanStep(s, step)
  {
    match step
    case Create(id) => s.(channels := s.channels[id := Channel(true, 0)])
    case Delete(id) => s.(channels := s.channels - {id})
    case Edit(id, enable, value, reconfigure) =>
      if id !in s.channels then s
      else s.(channels := s.channels[id := Edited(s.channels[id], enable, value, reconfigure)])
    case Dispatch => s.(flights := s.flights + multiset(Started(s.channels)))
    case Settle(flight, delivered) =>
      State(Settled(s.channels, flight, delivered), s.flights - multiset{flight})
  }

  // ----- the table and the deliveries under way -----

  class AlertChannels {
    var channels: map<Id, Channel>
    var flights: multiset<Flight>

    function Now(): State
      reads this
    {
      State(channels, flights)
    }

    constructor ()
      ensures Now() == State(map[], multiset{})
    {
      channels, flights := map[], multiset{};
    }

    method Post(id: Id)
      requires CanStep(Now(), Create(id))
      modifies this
      ensures Now() == Next(old(Now()), Create(id))
      ensures channels == old(channels)[id := Channel(true, 0)] && flights == old(flights)
      ensures old(Inv(Now())) ==> Inv(Now())
    {
      channels := channels[id := Channel(true, 0)];
    }

    method Remove(id: Id) returns (found: bool)
      modifies this
      ensures found == (id in old(channels))
      ensures Now() == Next(old(Now()), Delete(id))
      ensures channels == old(channels) - {id} && flights == old(flights)
      ensures old(Inv(Now())) ==> Inv(Now())
    {
      found := id in channels;
      channels := channels - {id};
    }

    method Patch(id: Id, enable: bool, value: bool, reconfigure: bool) returns (found: bool)
      modifies this
      ensures found == (id in old(channels))
      ensures Now() == Next(old(Now()), Edit(id, enable, value, reconfigure))
      ensures channels.Keys == old(channels).Keys && flights == old(flights)
      ensures forall other | other in channels && other != id :: channels[other] == old(channels)[other]
      ensures found ==>
        && channels[id].enabled == (if enable then value else old(channels)[id].enabled)
        && channels[id].failureCount == if enable || reconfigure then 0 else old(channels)[id].failureCount
      ensures old(Inv(Now())) ==> Inv(Now())
    {
      found := id in channels;
      if !found {
        return;
      }
      var c := channels[id];
      if enable {
        c := Channel(value, 0);
      }
      if reconfigure {
        c := c.(failureCount := 0);
      }
      channels := channels[id := c];
    }

    method StartDeliveries()
      modifies this
      ensures Now() == Next(old(Now()), Dispatch)
      ensures channels == old(channels)
      ensures forall f :: flights[f] == old(flights)[f] + if Reads(channels, f) then 1 else 0
      ensures old(Inv(Now())) ==> Inv(Now())
    {
      if Inv(Now()) {
        StepKeeps(Now(), Dispatch);
      }
      flights := flights + multiset(Started(channels));
    }

    method Finish(f: Flight, delivered: bool)
      requires CanStep(Now(), Settle(f, delivered))
      modifies this
      ensures Now() == Next(old(Now()), Settle(f, delivered))
      ensures channels.Keys == old(channels).Keys && flights == old(flights) - multiset{f}
      ensures forall other | other in channels && other != f.channel :: channels[other] == old(channels)[other]
      ensures f.channel in channels ==>
        && channels[f.channel].enabled == (if delivered then old(channels)[f.channel].enabled else f.failureCount < 4)
        && channels[f.channel].failureCount ==
             if !delivered then f.failureCount + 1
             else if f.failureCount > 0 then 0
             else old(channels)[f.channel].failureCount
      ensures old(Inv(Now())) ==> Inv(Now())
    {
      flights := flights - multiset{f};
      if delivered {
        if f.failureCount > 0 && f.channel in channels {
          channels := channels[f.channel := channels[f.channel].(failureCount := 0)];
        }
      } else {
        var failures := f.failureCount + 1;
        if f.channel in channels {
          channels := channels[f.channel := Channel(failures < MAX_FAILURES, failures)];
        }
      }
    }
  }

  // ----- whole runs -----

  predicate Runs(s: State, steps: seq<Step>)
    decreases |steps|, 0
  {
    steps == [] || (Runs(s, steps[..|steps| - 1]) && CanStep(After(s, steps[..|steps| - 1]), steps[|steps| - 1]))
  }

  function After(s: State, steps: seq<Step>): State
    requires Runs(s, steps)
    decreases |steps|, 1
  {
    if steps == [] then s else Next(After(s, steps[..|steps| - 1]), steps[|steps| - 1])
  }

  /** An enabled channel has failed at most four times, and none more than five. */
  ghost predicate Inv(s: State) {
    && (forall id <- s.channels :: 0 <= s.channels[id].failureCount <= 5)
    && (forall id <- s.channels :: s.channels[id].enabled ==> s.channels[id].failureCount < 5)
    && (forall f <- s.flights :: 0 <= f.failureCount < 5)
  }

  lemma StepKeeps(s: State, step: Step)
    requires Inv(s) && CanStep(s, step)
    ensures Inv(Next(s, step))
  {
    var t := Next(s, step);
    assert forall f <- t.flights :: f in s.flights || f in Started(s.channels);
  }

  /** Over every interleaving of deliveries with each other and with creations, edits and deletions. */
  lemma {:induction false} RunKeeps(s: State, steps: seq<Step>)
    requires Inv(s) && Runs(s, steps)
    ensures Inv(After(s, steps))
    decreases |steps|
  {
    hide Inv, Next, CanStep;
    if steps != [] {
      RunKeeps(s, steps[..|steps| - 1]);
      StepKeeps(After(s, steps[..|steps| - 1]), steps[|steps| - 1]);
    }
  }

  // ----- deliveries one at a time -----

  /** How the deliveries to `c` ended, in order. */
  function Outcomes(steps: seq<Step>, c: Id): seq<bool> {
    if steps == [] then []
    else
      var last := steps[|steps| - 1];
      Outcomes(steps[..|steps| - 1], c) + if last.Settle? && last.flight.channel == c then [last.delivered] else []
  }

  predicate InTheAir(s: State, c: Id) {
    exists f <- s.flights :: f.channel == c
  }

  /** Every dispatch finds no delivery to `c` still under way, and nobody touches the row of `c`. */
  ghost predicate OneAtATime(s: State, steps: seq<Step>, c: Id)
    requires Runs(s, steps)
    decreases |steps|
  {
    steps == [] ||
    (var front, last := steps[..|steps| - 1], steps[|steps| - 1];
     && OneAtATime(s, front, c)
     && (last.Dispatch? ==> !InTheAir(After(s, front), c))
     && (last.Create? || last.Delete? || last.Edit? ==> last.id != c))
  }

  function Trailing(os: seq<bool>): nat {
    if os == [] || os[|os| - 1] then 0 else 1 + Trailing(os[..|os| - 1])
  }

  predicate FiveFrom(os: seq<bool>, i: nat) {
    i + 5 <= |os| && !os[i] && !os[i + 1] && !os[i + 2] && !os[i + 3] && !os[i + 4]
  }

  predicate FiveInARow(os: seq<bool>) {
    exists i | 0 <= i <= |os| :: FiveFrom(os, i)
  }

  lemma {:induction false} TrailingShort(os: seq<bool>)
    ensures Trailing(os) <= |os|
    decreases |os|
  {
    if os != [] {
      TrailingShort(os[..|os| - 1]);
    }
  }

  lemma {:induction false} TrailingFalse(os: seq<bool>, k: nat)
    requires k <= |os|
    ensures Trailing(os) >= k <==> forall i | |os| - k <= i < |os| :: !os[i]
    decreases k
  {
    if k > 0 && !os[|os| - 1] {
      TrailingFalse(os[..|os| - 1], k - 1);
    }
  }

  lemma TrailingFive(os: seq<bool>)
    ensures Trailing(os) >= 5 <==> |os| >= 5 && FiveFrom(os, |os| - 5)
  {
    if |os| >= 5 {
      TrailingFalse(os, 5);
    } else {
      TrailingShort(os);
    }
  }

  lemma OneMoreOutcome(os: seq<bool>, o: bool)
    ensures FiveInARow(os + [o]) <==> FiveInARow(os) || Trailing(os + [o]) >= 5
    ensures Trailing(os + [o]) == if o then 0 else Trailing(os) + 1
  {
    var all := os + [o];
    TrailingFive(all);
    assert all[..|os|] == os;
    assert forall i | 0 <= i && i + 5 <= |os| :: FiveFrom(all, i) <==> FiveFrom(os, i);
  }

  /** The row of `c` and the delivery to it under way, after the deliveries that ended as `os`. */
  ghost predicate Follows(s: State, c: Id, os: seq<bool>) {
    && c in s.channels
    && (s.channels[c].enabled <==> !FiveInARow(os))
    && s.channels[c].failureCount == Trailing(os) <= MAX_FAILURES
    && (s.channels[c].enabled ==> Trailing(os) < MAX_FAILURES)
    && (forall f <- s.flights | f.channel == c ::
          f.failureCount == Trailing(os) && s.channels[c].enabled && s.flights[f] == 1)
  }

  lemma FollowsSettle(s: State, c: Id, os: seq<bool>, step: Step)
    requires Follows(s, c, os) && CanStep(s, step) && step.Settle? && step.flight.channel == c
    ensures Follows(Next(s, step), c, os + [step.delivered])
  {
    hide FiveInARow, Trailing;
    OneMoreOutcome(os, step.delivered);
    var t, f := Next(s, step), step.flight;
    assert s.flights[f] == 1 && f.failureCount == Trailing(os);
    assert forall g <- t.flights :: g in s.flights && g != f;
  }

  lemma FollowsOther(s: State, c: Id, os: seq<bool>, step: Step)
    requires Follows(s, c, os) && CanStep(s, step)
    requires step.Dispatch? ==> !InTheAir(s, c)
    requires step.Create? || step.Delete? || step.Edit? ==> step.id != c
    requires step.Settle? ==> step.flight.channel != c
    ensures Follows(Next(s, step), c, os)
  {
    hide FiveInARow, Trailing;
    var t := Next(s, step);
    if step.Dispatch? {
      assert forall f <- t.flights :: f in s.flights || f in Started(s.channels);
    } else if step.Settle? {
      assert forall f <- t.flights | f.channel == c :: f in s.flights && f != step.flight;
    }
  }

  lemma {:induction false} OneAtATimeFollows(s: State, steps: seq<Step>, c: Id)
    requires Runs(s, steps) && OneAtATime(s, steps, c)
    requires c in s.channels && s.channels[c] == Channel(true, 0) && !InTheAir(s, c)
    ensures Follows(After(s, steps), c, Outcomes(steps, c))
    decreases |steps|
  {
    hide Follows, Next, InTheAir, CanStep, Trailing, FiveInARow;
    if steps == [] {
      NothingYet(s, c);
    } else {
      var front, last := steps[..|steps| - 1], steps[|steps| - 1];
      OneAtATimeFollows(s, front, c);
      if last.Settle? && last.flight.channel == c {
        FollowsSettle(After(s, front), c, Outcomes(front, c), last);
      } else {
        FollowsOther(After(s, front), c, Outcomes(front, c), last);
        assert Outcomes(steps, c) == Outcomes(front, c);
      }
    }
  }

  lemma NothingYet(s: State, c: Id)
    requires c in s.channels && s.channels[c] == Channel(true, 0) && !InTheAir(s, c)
    ensures Follows(s, c, [])
  {
    assert !FiveFrom([], 0);
  }

  /**
   * When deliveries to a channel do not overlap, it is disabled exactly when five of them in a row failed,
   * whatever other channels do meanwhile.
   */
  lemma FiveFailuresDisable(s: State, steps: seq<Step>, c: Id)
    requires Runs(s, steps) && OneAtATime(s, steps, c)
    requires c in s.channels && s.channels[c] == Channel(true, 0) && !InTheAir(s, c)
    ensures c in After(s, steps).channels
    ensures !After(s, steps).channels[c].enabled <==> FiveInARow(Outcomes(steps, c))
    ensures After(s, steps).channels[c].failureCount == Trailing(Outcomes(steps, c))
  {
    hide FiveInARow, Trailing;
    OneAtATimeFollows(s, steps, c);
  }

  // ----- exactly when the breaker counts right -----

  /** Nobody creates, deletes or edits the row of `c`. */
  predicate Untouched(steps: seq<Step>, c: Id) {
    forall step <- steps | step.Create? || step.Delete? || step.Edit? :: step.id != c
  }

  /** The row shows what the deliveries that ended as `os` call for. */
  predicate Shows(row: Channel, os: seq<bool>) {
    row.failureCount == Trailing(os) && (row.enabled <==> !FiveInARow(os))
  }

  /**
   * What a delivery must have read for its end to be counted right: one that fails, the count the row has now,
   * and if the row is off, four; one that succeeds, a positive count, unless the row has none.
   */
  predicate Timely(row: Channel, f: Flight, delivered: bool) {
    if delivered then f.failureCount > 0 || row.failureCount == 0
    else f.failureCount == row.failureCount && (row.enabled || f.failureCount >= 4)
  }

  /** The row of `c` is there and shows its deliveries, now and after every earlier step. */
  ghost predicate AlwaysShows(s: State, steps: seq<Step>, c: Id)
    requires Runs(s, steps)
    decreases |steps|
  {
    && (steps != [] ==> AlwaysShows(s, steps[..|steps| - 1], c))
    && c in After(s, steps).channels && Shows(After(s, steps).channels[c], Outcomes(steps, c))
  }

  /** Every delivery to `c` that ends is timely when it does. */
  ghost predicate AlwaysTimely(s: State, steps: seq<Step>, c: Id)
    requires Runs(s, steps)
    decreases |steps|
  {
    steps == [] ||
    (var front, last := steps[..|steps| - 1], steps[|steps| - 1];
     && AlwaysTimely(s, front, c)
     && (last.Settle? && last.flight.channel == c ==>
           c in After(s, front).channels && Timely(After(s, front).channels[c], last.flight, last.delivered)))
  }

  lemma TimelyStep(s: State, c: Id, os: seq<bool>, step: Step)
    requires c in s.channels && Shows(s.channels[c], os) && CanStep(s, step)
    requires step.Settle? && step.flight.channel == c
    ensures c in Next(s, step).channels
    ensures Shows(Next(s, step).channels[c], os + [step.delivered])
      <==> Timely(s.channels[c], step.flight, step.delivered)
  {
    hide FiveInARow, Trailing;
    OneMoreOutcome(os, step.delivered);
  }

  lemma OtherStep(s: State, c: Id, step: Step)
    requires c in s.channels && CanStep(s, step)
    requires step.Create? || step.Delete? || step.Edit? ==> step.id != c
    requires step.Settle? ==> step.flight.channel != c
    ensures c in Next(s, step).channels && Next(s, step).channels[c] == s.channels[c]
  {
  }

  /**
   * While nobody touches its row, a channel shows its deliveries at every moment, its count the failures at
   * the end and its switch whether five in a row failed, if and only if every delivery is timely when it ends.
   */
  lemma {:induction false} CountsRightIff(s: State, steps: seq<Step>, c: Id)
    requires Runs(s, steps) && Untouched(steps, c) && c in s.channels && s.channels[c] == Channel(true, 0)
    ensures AlwaysShows(s, steps, c) <==> AlwaysTimely(s, steps, c)
    ensures c in After(s, steps).channels
    decreases |steps|
  {
    hide Next, CanStep, Shows, Timely;
    if steps == [] {
      FreshShows();
    } else {
      var front, last := steps[..|steps| - 1], steps[|steps| - 1];
      assert last in steps && forall step <- front :: step in steps;
      CountsRightIff(s, front, c);
      var t := After(s, front);
      if last.Settle? && last.flight.channel == c {
        if AlwaysShows(s, front, c) {
          TimelyStep(t, c, Outcomes(front, c), last);
        }
        SettleKeepsRow(t, c, last);
      } else {
        OtherStep(t, c, last);
        assert Outcomes(steps, c) == Outcomes(front, c);
      }
    }
  }

  lemma FreshShows()
    ensures Shows(Channel(true, 0), [])
  {
    assert !FiveFrom([], 0);
  }

  lemma SettleKeepsRow(s: State, c: Id, step: Step)
    requires c in s.channels && CanStep(s, step) && step.Settle?
    ensures c in Next(s, step).channels
  {
  }

  // ----- deliveries that overlap -----

  /** Steps that leave it to the breaker whether `c` is enabled. */
  predicate NobodyEnables(steps: seq<Step>, c: Id) {
    forall step <- steps :: !(step.Create? && step.id == c) && !(step.Edit? && step.id == c)
  }

  predicate Off(s: State, c: Id) {
    c in s.channels ==> !s.channels[c].enabled
  }

  /** No delivery under way can turn `c` on again: each had already read the last failure but one. */
  predicate NoneRevives(s: State, c: Id) {
    forall f <- s.flights | f.channel == c :: f.failureCount >= 4
  }

  lemma {:induction false} StaysOff(s: State, steps: seq<Step>, c: Id)
    requires Runs(s, steps) && NobodyEnables(steps, c) && Off(s, c) && NoneRevives(s, c)
    ensures Off(After(s, steps), c) && NoneRevives(After(s, steps), c)
    decreases |steps|
  {
    if steps != [] {
      var front, last := steps[..|steps| - 1], steps[|steps| - 1];
      assert last in steps && forall step <- front :: step in steps;
      StaysOff(s, front, c);
      OffStep(After(s, front), last, c);
    }
  }

  lemma OffStep(s: State, step: Step, c: Id)
    requires CanStep(s, step) && Off(s, c) && NoneRevives(s, c)
    requires !(step.Create? && step.id == c) && !(step.Edit? && step.id == c)
    ensures Off(Next(s, step), c) && NoneRevives(Next(s, step), c)
  {
    var t := Next(s, step);
    assert forall f <- t.flights :: f in s.flights || f in Started(s.channels);
  }

  lemma StaysOffIff(s: State, c: Id)
    requires c in s.channels && !s.channels[c].enabled
    ensures
      (forall steps | Runs(s, steps) && NobodyEnables(steps, c) :: Off(After(s, steps), c))
      <==> NoneRevives(s, c)
  {
    if NoneRevives(s, c) {
      forall steps | Runs(s, steps) && NobodyEnables(steps, c)
        ensures Off(After(s, steps), c)
      {
        StaysOff(s, steps, c);
      }
    } else {
      var f :| f in s.flights && f.channel == c && f.failureCount < 4;
      var steps := [Settle(f, false)];
      assert steps[..0] == [];
      assert Runs(s, []) && After(s, []) == s;
      assert Runs(s, steps) && NobodyEnables(steps, c) && !Off(After(s, steps), c);
    }
  }

  lemma {:induction false} RunsAfterOne(s: State, first: Step, steps: seq<Step>)
    requires CanStep(s, first)
    ensures Runs(s, [first] + steps) <==> Runs(Next(s, first), steps)
    ensures Runs(s, [first] + steps) ==> After(s, [first] + steps) == After(Next(s, first), steps)
    decreases |steps|
  {
    hide Next, CanStep;
    var all := [first] + steps;
    if steps == [] {
      NoSteps(s);
      assert all == [first] && all[..0] == [];
    } else {
      RunsAfterOne(s, first, steps[..|steps| - 1]);
      assert all[..|all| - 1] == [first] + steps[..|steps| - 1];
    }
  }

  /**
   * A channel an operator switches off stays off, however the deliveries under way then end, exactly when
   * each of them had read four failures: any other one that fails switches the channel on again.
   */
  lemma SwitchedOffIff(s: State, c: Id, reconfigure: bool)
    requires c in s.channels
    ensures var off := Edit(c, true, false, reconfigure);
      (forall steps | Runs(s, [off] + steps) && NobodyEnables(steps, c) :: Off(After(s, [off] + steps), c))
      <==> forall f <- s.flights | f.channel == c :: f.failureCount >= 4
  {
    var off := Edit(c, true, false, reconfigure);
    var t := Next(s, off);
    assert t.flights == s.flights && !t.channels[c].enabled;
    StaysOffIff(t, c);
    assert NoneRevives(t, c) <==> forall f <- s.flights | f.channel == c :: f.failureCount >= 4;
    hide Runs, After, Next, NoneRevives, NobodyEnables, Off;
    forall steps
      ensures Runs(s, [off] + steps) <==> Runs(t, steps)
      ensures Runs(s, [off] + steps) ==> After(s, [off] + steps) == After(t, steps)
    {
      RunsAfterOne(s, off, steps);
    }
  }

  /** Any number of overlapping deliveries that all fail count as one failure. */
  function FailAll(f: Flight, k: nat): seq<Step> {
    if k == 0 then [] else FailAll(f, k - 1) + [Settle(f, false)]
  }

  lemma {:induction false} OverlapCountsOnce(s: State, f: Flight, k: nat)
    requires f.channel in s.channels && 0 < k <= s.flights[f]
    ensures Runs(s, FailAll(f, k))
    ensures var t := After(s, FailAll(f, k));
      && f.channel in t.channels && t.flights[f] == s.flights[f] - k
      && t.channels[f.channel] == Channel(f.failureCount < 4, f.failureCount + 1)
    decreases k
  {
    hide Runs, After;
    if k > 1 {
      OverlapCountsOnce(s, f, k - 1);
    } else {
      NoSteps(s);
    }
    OneMoreStep(s, FailAll(f, k - 1), Settle(f, false));
  }

  lemma NoSteps(s: State)
    ensures Runs(s, []) && After(s, []) == s
  {
  }

  lemma OneMoreStep(s: State, front: seq<Step>, step: Step)
    requires Runs(s, front) && CanStep(After(s, front), step)
    ensures Runs(s, front + [step]) && After(s, front + [step]) == Next(After(s, front), step)
  {
    assert (front + [step])[..|front|] == front;
  }
}
