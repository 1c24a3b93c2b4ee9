/**
 The alert throttle of `apps/api/src/alerts/dispatcher.ts`: one counter a minute for every pair of token
 and source address. Times are in milliseconds.
 */
module Throttle {
  const WINDOW := 60_000

  datatype Entry = Entry(count: int, windowStart: int)

  type Table = map<string, Entry>

  function Key(tokenId: string, sourceIp: string): string {
    tokenId + "|" + sourceIp
  }

  datatype Call = Call(tokenId: string, sourceIp: string, now: int)

  function KeyOf(c: Call): string {
    Key(c.tokenId, c.sourceIp)
  }

  /** A call opens a window when its key has none, or one a minute old. */
  predicate Opens(t: Table, c: Call) {
    KeyOf(c) !in t || c.now - t[KeyOf(c)].windowStart >= WINDOW
  }

  predicate Allowed(t: Table, c: Call, max: int) {
    Opens(t, c) || t[KeyOf(c)].count < max
  }

  function Noted(t: Table, c: Call, max: int): Table {
    if Opens(t, c) then t[KeyOf(c) := Entry(1, c.now)]
    else if Allowed(t, c, max) then t[KeyOf(c) := t[KeyOf(c)].(count := t[KeyOf(c)].count + 1)]
    else t
  }

  class AlertDispatcher {
    const max: int
    var throttle: Table

    constructor (maxAlertsPerMinute: int)
      ensures max == maxAlertsPerMinute && throttle == map[]
    {
      max, throttle := maxAlertsPerMinute, map[];
    }

    method ShouldAlert(tokenId: string, sourceIp: string, now: int) returns (pass: bool)
      modifies this
      ensures pass == Allowed(old(throttle), Call(tokenId, sourceIp, now), max)
      ensures throttle == Noted(old(throttle), Call(tokenId, sourceIp, now), max)
      ensures var key := tokenId + "|" + sourceIp;
        var opens := key !in old(throttle) || now >= old(throttle)[key].windowStart + 60_000;
        && (pass <==> opens || old(throttle)[key].count < max)
        && (opens ==> throttle == old(throttle)[key := Entry(1, now)])
        && (!opens && pass ==>
              throttle == old(throttle)[key := Entry(old(throttle)[key].count + 1, old(throttle)[key].windowStart)])
        && (!pass ==> throttle == old(throttle))
    {
      var key := tokenId + "|" + sourceIp;
      if key !in throttle || now - throttle[key].windowStart >= WINDOW {
        throttle := throttle[key := Entry(1, now)];
        return true;
      }
      var entry := throttle[key];
      if entry.count < max {
        throttle := throttle[key := entry.(count := entry.count + 1)];
        return true;
      }
      pass := false;
    }
  }

  // ----- whole runs -----

  function After(calls: seq<Call>, max: int): Table {
    if calls == [] then map[] else Noted(After(calls[..|calls| - 1], max), calls[|calls| - 1], max)
  }

  predicate Passed(calls: seq<Call>, i: nat, max: int)
    requires i < |calls|
  {
    Allowed(After(calls[..i], max), calls[i], max)
  }

  predicate InOrder(calls: seq<Call>) {
    forall i, j | 0 <= i < j < |calls| :: calls[i].now <= calls[j].now
  }

  predicate PlainIds(calls: seq<Call>) {
    forall c <- calls :: '|' !in c.tokenId
  }

  predicate SamePair(c: Call, tokenId: string, sourceIp: string) {
    c.tokenId == tokenId && c.sourceIp == sourceIp
  }

  /** How many alerts of one pair passed in the minute from `from` on. */
  function Passes(calls: seq<Call>, max: int, tokenId: string, sourceIp: string, from: int): nat {
    if calls == [] then 0
    else
      var last := calls[|calls| - 1];
      Passes(calls[..|calls| - 1], max, tokenId, sourceIp, from) +
      (if SamePair(last, tokenId, sourceIp) && from <= last.now < from + 60_000 && Passed(calls, |calls| - 1, max)
       then 1 else 0)
  }

  /** Two pairs share a counter only if a token id contains the separator. */
  lemma KeyInjective(id1: string, ip1: string, id2: string, ip2: string)
    requires '|' !in id1 && '|' !in id2
    ensures Key(id1, ip1) == Key(id2, ip2) <==> id1 == id2 && ip1 == ip2
  {
    var key := Key(id1, ip1);
    if key == Key(id2, ip2) {
      assert forall k | 0 <= k < |id1| :: key[k] == id1[k] && key[k] in id1;
      assert forall k | 0 <= k < |id2| :: key[k] == id2[k] && key[k] in id2;
      assert key[|id1|] == '|' && key[|id2|] == '|';
      assert |id1| >= |id2| && |id2| >= |id1|;
      assert key[..|id1|] == id1 && key[..|id2|] == id2;
      assert key[|id1| + 1..] == ip1 && key[|id2| + 1..] == ip2;
    }
  }

  function AtLeastOne(max: int): int {
    if max < 1 then 1 else max
  }

  /** What the counter of one pair says about the alerts that passed in the minute from `from` on. */
  ghost predicate CountKept(calls: seq<Call>, max: int, tokenId: string, sourceIp: string, from: int) {
    var t, m, c := After(calls, max), AtLeastOne(max), Passes(calls, max, tokenId, sourceIp, from);
    && (calls != [] && calls[|calls| - 1].now < from ==> c == 0)
    && if Key(tokenId, sourceIp) !in t then c == 0
       else
         var e := t[Key(tokenId, sourceIp)];
         && 1 <= e.count <= m
         && calls != [] && e.windowStart <= calls[|calls| - 1].now
         && c <= (if e.windowStart < from then e.count - 1
                  else if e.windowStart < from + 60_000 then m - 1 + e.count
                  else 2 * m - 1)
  }

  lemma {:induction false} CountInduction(calls: seq<Call>, max: int, tokenId: string, sourceIp: string, from: int)
    requires InOrder(calls) && PlainIds(calls) && '|' !in tokenId
    ensures CountKept(calls, max, tokenId, sourceIp, from)
    decreases |calls|
  {
    if calls != [] {
      var front, last := calls[..|calls| - 1], calls[|calls| - 1];
      CountInduction(front, max, tokenId, sourceIp, from);
      CountStep(front, last, max, tokenId, sourceIp, from);
      assert calls == front + [last];
    }
  }

  lemma CountStep(front: seq<Call>, last: Call, max: int, tokenId: string, sourceIp: string, from: int)
    requires InOrder(front + [last]) && '|' !in tokenId && '|' !in last.tokenId
    requires CountKept(front, max, tokenId, sourceIp, from)
    ensures CountKept(front + [last], max, tokenId, sourceIp, from)
  {
    var calls := front + [last];
    assert calls[..|front|] == front;
    assert calls[|front|] == last;
    assert front != [] ==> calls[|front| - 1].now <= last.now;
    KeyInjective(last.tokenId, last.sourceIp, tokenId, sourceIp);
    hide InOrder, Key;
  }

  /** At most `2 * max - 1` alerts of one pair pass within any minute. */
  lemma AtMost(calls: seq<Call>, max: int, tokenId: string, sourceIp: string, from: int)
    requires InOrder(calls) && PlainIds(calls) && '|' !in tokenId
    ensures Passes(calls, max, tokenId, sourceIp, from) <= 2 * AtLeastOne(max) - 1
  {
    CountInduction(calls, max, tokenId, sourceIp, from);
  }

  // ----- the bound is reached -----

  function Repeat(c: Call, k: nat): (calls: seq<Call>)
    ensures |calls| == k && forall i | 0 <= i < k :: calls[i] == c
  {
    if k == 0 then [] else Repeat(c, k - 1) + [c]
  }

  lemma OneMore(calls: seq<Call>, c: Call, max: int, from: int)
    ensures After(calls + [c], max) == Noted(After(calls, max), c, max)
    ensures Passes(calls + [c], max, c.tokenId, c.sourceIp, from) == Passes(calls, max, c.tokenId, c.sourceIp, from)
      + if from <= c.now < from + 60_000 && Allowed(After(calls, max), c, max) then 1 else 0
  {
    assert (calls + [c])[..|calls|] == calls;
  }

  lemma {:induction false} RepeatPasses(calls: seq<Call>, c: Call, k: nat, max: int, from: int)
    requires KeyOf(c) in After(calls, max) && from <= c.now < from + 60_000
    requires var e := After(calls, max)[KeyOf(c)]; c.now - e.windowStart < 60_000 && e.count + k <= max
    ensures var t := After(calls + Repeat(c, k), max);
      KeyOf(c) in t && t[KeyOf(c)] == After(calls, max)[KeyOf(c)].(count := After(calls, max)[KeyOf(c)].count + k)
    ensures Passes(calls + Repeat(c, k), max, c.tokenId, c.sourceIp, from)
      == Passes(calls, max, c.tokenId, c.sourceIp, from) + k
    decreases k
  {
    hide After, Passes, KeyOf;
    if k == 0 {
      assert calls + Repeat(c, 0) == calls;
    } else {
      RepeatPasses(calls, c, k - 1, max, from);
      var front := calls + Repeat(c, k - 1);
      assert calls + Repeat(c, k) == front + [c];
      OneMore(front, c, max, from);
    }
  }

  /** A call that opens a window, and as many more of its pair as the window takes. */
  lemma Burst(calls: seq<Call>, c: Call, d: Call, max: int, from: int)
    requires max >= 1 && Opens(After(calls, max), c) && from <= d.now < from + 60_000 && d.now - c.now < 60_000
    requires SamePair(d, c.tokenId, c.sourceIp)
    ensures var all := calls + [c] + Repeat(d, max - 1);
      && KeyOf(c) in After(all, max) && After(all, max)[KeyOf(c)].windowStart == c.now
      && Passes(all, max, c.tokenId, c.sourceIp, from)
        == Passes(calls, max, c.tokenId, c.sourceIp, from) + max - if from <= c.now < from + 60_000 then 0 else 1
  {
    hide After, Passes;
    OneMore(calls, c, max, from);
    RepeatPasses(calls + [c], d, max - 1, max, from);
  }

  /** One alert, a minute less a millisecond of silence, then `2 * max - 1` alerts within one minute. */
  lemma BoundReached(max: int, tokenId: string, sourceIp: string) returns (calls: seq<Call>)
    requires max >= 1
    ensures InOrder(calls) && forall c <- calls :: SamePair(c, tokenId, sourceIp)
    ensures Passes(calls, max, tokenId, sourceIp, 60_000 - 1) == 2 * max - 1
  {
    var first, late := Call(tokenId, sourceIp, 0), Call(tokenId, sourceIp, 60_000 - 1);
    var next := Call(tokenId, sourceIp, 60_000);
    assert After([], max) == map[] && Passes([], max, tokenId, sourceIp, 60_000 - 1) == 0;
    hide After, Passes, Repeat, Key;
    Burst([], first, late, max, 60_000 - 1);
    var quiet := [] + [first] + Repeat(late, max - 1);
    Burst(quiet, next, next, max, 60_000 - 1);
    calls := quiet + [next] + Repeat(next, max - 1);
    ThreeBursts(first, late, next, max - 1, max - 1);
  }

  lemma ThreeBursts(first: Call, late: Call, next: Call, j: nat, k: nat)
    requires first.now <= late.now <= next.now
    ensures var calls := [] + [first] + Repeat(late, j) + [next] + Repeat(next, k);
      InOrder(calls) && forall c <- calls :: c == first || c == late || c == next
  {
    hide Repeat;
    var calls := [] + [first] + Repeat(late, j) + [next] + Repeat(next, k);
    assert forall i | 0 <= i < |calls| :: calls[i] == if i == 0 then first else if i <= j then late else next;
  }

  // ----- every suppressed alert has a recent one that passed -----

  predicate Opened(calls: seq<Call>, j: nat, key: string, at: int, max: int) {
    j < |calls| && KeyOf(calls[j]) == key && calls[j].now == at && Passed(calls, j, max)
  }

  lemma {:induction false} WindowWasOpened(calls: seq<Call>, key: string, max: int) returns (j: nat)
    requires key in After(calls, max)
    ensures Opened(calls, j, key, After(calls, max)[key].windowStart, max)
    decreases |calls|
  {
    var front, last := calls[..|calls| - 1], calls[|calls| - 1];
    if Opens(After(front, max), last) && KeyOf(last) == key {
      j := |front|;
    } else {
      j := WindowWasOpened(front, key, max);
      assert calls[..j] == front[..j];
    }
  }

  /** A suppressed alert follows one of the same pair that passed less than a minute before. */
  lemma SuppressedHasPassed(calls: seq<Call>, i: nat, max: int) returns (j: nat)
    requires PlainIds(calls) && i < |calls| && !Passed(calls, i, max)
    ensures j < i && SamePair(calls[j], calls[i].tokenId, calls[i].sourceIp) && Passed(calls, j, max)
    ensures calls[i].now - calls[j].now < 60_000
  {
    j := WindowWasOpened(calls[..i], KeyOf(calls[i]), max);
    assert calls[..i][..j] == calls[..j];
    KeyInjective(calls[j].tokenId, calls[j].sourceIp, calls[i].tokenId, calls[i].sourceIp);
  }

  // ----- pairs do not affect one another -----

  function Only(calls: seq<Call>, tokenId: string, sourceIp: string): seq<Call> {
    if calls == [] then []
    else
      var last := calls[|calls| - 1];
      Only(calls[..|calls| - 1], tokenId, sourceIp) + if SamePair(last, tokenId, sourceIp) then [last] else []
  }

  function Look(t: Table, key: string): (bool, Entry) {
    if key in t then (true, t[key]) else (false, Entry(0, 0))
  }

  lemma {:induction false} OneCounter(calls: seq<Call>, tokenId: string, sourceIp: string, max: int)
    requires PlainIds(calls) && '|' !in tokenId
    ensures var key := Key(tokenId, sourceIp);
      Look(After(calls, max), key) == Look(After(Only(calls, tokenId, sourceIp), max), key)
    decreases |calls|
  {
    hide Key;
    if calls != [] {
      var front, last := calls[..|calls| - 1], calls[|calls| - 1];
      OneCounter(front, tokenId, sourceIp, max);
      var kept := Only(front, tokenId, sourceIp);
      KeyInjective(last.tokenId, last.sourceIp, tokenId, sourceIp);
      if SamePair(last, tokenId, sourceIp) {
        assert (kept + [last])[..|kept|] == kept;
      } else {
        assert Only(calls, tokenId, sourceIp) == kept;
      }
    }
  }

  /** Whether the next alert of a pair passes depends on the earlier alerts of that pair alone. */
  lemma OnlyOwnPairMatters(calls: seq<Call>, next: Call, max: int)
    requires PlainIds(calls) && '|' !in next.tokenId
    ensures Allowed(After(calls, max), next, max)
      == Allowed(After(Only(calls, next.tokenId, next.sourceIp), max), next, max)
  {
    OneCounter(calls, next.tokenId, next.sourceIp, max);
  }
}
