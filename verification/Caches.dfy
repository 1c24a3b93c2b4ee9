/**
 The gateway's caches of what the API answers (`apps/gateway/src/artifacts.ts`): token configurations, fetched
 with a limit of 3 seconds, and stored files, with a limit of 5. Lookups overlap, so an older answer can
 replace a newer one. Times are in milliseconds; `limit` is the limit of one fetch.
 */
module Caches {
  import opened Options

  const TTL := 60_000

  type Key = string

  /** A configuration, or a stored file with its content type. */
  type Value = string

  datatype Entry = Entry(value: Value, expiresAt: int)

  type Cache = map<Key, Entry>

  function Hit(cache: Cache, key: Key, now: int): Option<Value> {
    if key in cache && cache[key].expiresAt > now then Some(cache[key].value) else None
  }

  function Store(cache: Cache, key: Key, value: Value, now: int): Cache {
    cache[key := Entry(value, now + TTL)]
  }

  /** One lookup, cut where it waits for the API. */
  class ResponseCache {
    var cache: Cache

    constructor ()
      ensures cache == map[]
    {
      cache := map[];
    }

    /** The lookup up to its fetch: the value, or nothing when the API has to be asked. */
    method Look(key: Key, now: int) returns (hit: Option<Value>)
      ensures hit == Hit(cache, key, now)
    {
      hit := None;
      if key in cache {
        var cached := cache[key];
        if cached.expiresAt > now {
          return Some(cached.value);
        }
      }
    }

    /** The lookup from the answer on; no answer in time, or a refusal, leaves the cache as it was. */
    method Receive(key: Key, answer: Option<Value>, now: int) returns (r: Option<Value>)
      modifies this
      ensures r == answer
      ensures cache == if answer.Some? then Store(old(cache), key, answer.value, now) else old(cache)
    {
      if answer.None? {
        return None;
      }
      cache := cache[key := Entry(answer.value, now + TTL)];
      r := answer;
    }
  }

  // ----- the gateway, the API and the clock -----

  /** What the API said about a key, and when. */
  datatype Answer = Answer(key: Key, value: Option<Value>, at: int)

  datatype Fetch = Fetch(key: Key, startedAt: int, answer: Option<Answer>)

  /** A value served to a client. */
  datatype Use = Use(key: Key, value: Value, at: int)

  /** `api` holds what the API answers for each active token; `answers` and `uses` are history. */
  datatype State = State(
    now: int, api: map<Key, Value>, cache: Cache, fetches: map<nat, Fetch>, answers: seq<Answer>, uses: seq<Use>)

  datatype Step =
    | Wait(ms: nat)
    /** The API activates, changes or revokes a token. */
    | Change(key: Key, value: Option<Value>)
    | Lookup(key: Key, ticket: nat)
    | ApiAnswers(ticket: nat)
    | Arrives(ticket: nat)
    | Fails(ticket: nat)

  predicate CanStep(s: State, step: Step, limit: nat) {
    match step
    case Lookup(_, ticket) => ticket !in s.fetches
    case ApiAnswers(ticket) => ticket in s.fetches && s.fetches[ticket].answer.None?
    case Arrives(ticket) =>
      ticket in s.fetches && s.fetches[ticket].answer.Some? && s.now <= s.fetches[ticket].startedAt + limit
    case Fails(ticket) => ticket in s.fetches
    case _ => true
  }

  function ApiSays(s: State, key: Key): Answer {
    Answer(key, if key in s.api then Some(s.api[key]) else None, s.now)
  }

  function Next(s: State, step: Step, limit: nat): State
    requires CanStep(s, step, limit)
  {
    match step
    case Wait(ms) => s.(now := s.now + ms)
    case Change(key, value) => s.(api := if value.Some? then s.api[key := value.value] else s.api - {key})
    case Lookup(key, ticket) =>
      var hit := Hit(s.cache, key, s.now);
      if hit.Some? then s.(uses := s.uses + [Use(key, hit.value, s.now)])
      else s.(fetches := s.fetches[ticket := Fetch(key, s.now, None)])
    case ApiAnswers(ticket) =>
      var a := ApiSays(s, s.fetches[ticket].key);
      s.(fetches := s.fetches[ticket := s.fetches[ticket].(answer := Some(a))], answers := s.answers + [a])
    case Arrives(ticket) =>
      var f := s.fetches[ticket];
      var s1 := s.(fetches := s.fetches - {ticket});
      if f.answer.value.value.None? then s1
      else
        var value := f.answer.value.value.value;
        s1.(cache := Store(s.cache, f.key, value, s.now), uses := s.uses + [Use(f.key, value, s.now)])
    case Fails(ticket) => s.(fetches := s.fetches - {ticket})
  }

  predicate Runs(s: State, steps: seq<Step>, limit: nat)
    decreases |steps|, 0
  {
    steps == [] ||
    (Runs(s, steps[..|steps| - 1], limit) && CanStep(After(s, steps[..|steps| - 1], limit), steps[|steps| - 1], limit))
  }

  function After(s: State, steps: seq<Step>, limit: nat): State
    requires Runs(s, steps, limit)
    decreases |steps|, 1
  {
    if steps == [] then s else Next(After(s, steps[..|steps| - 1], limit), steps[|steps| - 1], limit)
  }

  function Fresh(api: map<Key, Value>): State {
    State(0, api, map[], map[], [], [])
  }

  // ----- every value used was answered lately -----

  predicate AnsweredSince(answers: seq<Answer>, key: Key, value: Value, from: int) {
    exists a <- answers :: a.key == key && a.value == Some(value) && a.at >= from
  }

  ghost predicate Inv(s: State, limit: nat) {
    && (forall a <- s.answers :: a.at <= s.now)
    && (forall k <- s.cache :: AnsweredSince(s.answers, k, s.cache[k].value, s.cache[k].expiresAt - 60_000 - limit))
    && (forall t <- s.fetches | s.fetches[t].answer.Some? ::
          var a := s.fetches[t].answer.value;
          a in s.answers && a.key == s.fetches[t].key && a.at >= s.fetches[t].startedAt)
    && (forall t <- s.fetches :: s.fetches[t].startedAt <= s.now)
    && (forall u <- s.uses :: AnsweredSince(s.answers, u.key, u.value, u.at - 60_000 - limit + 1))
  }

  lemma MoreAnswers(answers: seq<Answer>, a: Answer, key: Key, value: Value, from: int)
    requires AnsweredSince(answers, key, value, from)
    ensures AnsweredSince(answers + [a], key, value, from)
  {
    var b :| b in answers && b.key == key && b.value == Some(value) && b.at >= from;
    assert b in answers + [a];
  }

  lemma AnsweredEarlier(answers: seq<Answer>, key: Key, value: Value, from: int, earlier: int)
    requires AnsweredSince(answers, key, value, from) && earlier <= from
    ensures AnsweredSince(answers, key, value, earlier)
  {
  }

  lemma StepKeeps(s: State, step: Step, limit: nat)
    requires Inv(s, limit) && CanStep(s, step, limit)
    ensures Inv(Next(s, step, limit), limit)
  {
    match step {
      case ApiAnswers(ticket) =>
        AnswerKeeps(s, ticket, limit);
      case Lookup(key, ticket) =>
        LookupKeeps(s, key, ticket, limit);
      case Arrives(ticket) =>
        ArrivalKeeps(s, ticket, limit);
      case _ =>
        hide AnsweredSince;
    }
  }

  lemma AnswerKeeps(s: State, ticket: nat, limit: nat)
    requires Inv(s, limit) && CanStep(s, ApiAnswers(ticket), limit)
    ensures Inv(Next(s, ApiAnswers(ticket), limit), limit)
  {
    hide AnsweredSince;
    var a := ApiSays(s, s.fetches[ticket].key);
    forall k <- s.cache
      ensures AnsweredSince(s.answers + [a], k, s.cache[k].value, s.cache[k].expiresAt - 60_000 - limit)
    {
      MoreAnswers(s.answers, a, k, s.cache[k].value, s.cache[k].expiresAt - 60_000 - limit);
    }
    forall u <- s.uses
      ensures AnsweredSince(s.answers + [a], u.key, u.value, u.at - 60_000 - limit + 1)
    {
      MoreAnswers(s.answers, a, u.key, u.value, u.at - 60_000 - limit + 1);
    }
  }

  lemma LookupKeeps(s: State, key: Key, ticket: nat, limit: nat)
    requires Inv(s, limit) && CanStep(s, Lookup(key, ticket), limit)
    ensures Inv(Next(s, Lookup(key, ticket), limit), limit)
  {
    hide AnsweredSince;
    if Hit(s.cache, key, s.now).Some? {
      var e := s.cache[key];
      AnsweredEarlier(s.answers, key, e.value, e.expiresAt - 60_000 - limit, s.now - 60_000 - limit + 1);
    }
  }

  lemma ArrivalKeeps(s: State, ticket: nat, limit: nat)
    requires Inv(s, limit) && CanStep(s, Arrives(ticket), limit)
    ensures Inv(Next(s, Arrives(ticket), limit), limit)
  {
    var f := s.fetches[ticket];
    var a := f.answer.value;
    if a.value.Some? {
      assert AnsweredSince(s.answers, f.key, a.value.value, s.now - limit);
      hide AnsweredSince;
      AnsweredEarlier(s.answers, f.key, a.value.value, s.now - limit, s.now - 60_000 - limit + 1);
    }
  }

  lemma {:induction false} RunKeeps(s: State, steps: seq<Step>, limit: nat)
    requires Inv(s, limit) && Runs(s, steps, limit)
    ensures Inv(After(s, steps, limit), limit)
    decreases |steps|
  {
    hide Inv, Next, CanStep;
    if steps != [] {
      RunKeeps(s, steps[..|steps| - 1], limit);
      StepKeeps(After(s, steps[..|steps| - 1], limit), steps[|steps| - 1], limit);
    }
  }

  /**
   * However lookups overlap, whatever is served at a time was answered by the API, for that key and with
   * that value, less than a minute and one fetch limit before: 63 seconds for configurations, 65 for files.
   */
  lemma UsedIsRecent(api: map<Key, Value>, steps: seq<Step>, u: Use, limit: nat)
    requires Runs(Fresh(api), steps, limit) && u in After(Fresh(api), steps, limit).uses
    ensures exists a <- After(Fresh(api), steps, limit).answers ::
      a.key == u.key && a.value == Some(u.value) && u.at - 60_000 - limit < a.at
  {
    RunKeeps(Fresh(api), steps, limit);
  }

  // ----- revocation -----

  predicate NeverActivates(steps: seq<Step>, key: Key) {
    forall step <- steps :: !(step.Change? && step.key == key && step.value.Some?)
  }

  predicate NothingSince(s: State, key: Key, at: int) {
    && key !in s.api
    && forall a <- s.answers | a.key == key && a.value.Some? :: a.at <= at
  }

  lemma {:induction false} NothingNew(s: State, steps: seq<Step>, key: Key, at: int, limit: nat)
    requires Runs(s, steps, limit) && NeverActivates(steps, key) && NothingSince(s, key, at)
    ensures NothingSince(After(s, steps, limit), key, at)
    decreases |steps|
  {
    if steps != [] {
      var front, last := steps[..|steps| - 1], steps[|steps| - 1];
      assert last in steps && forall step <- front :: step in steps;
      NothingNew(s, front, key, at, limit);
    }
  }

  /** A token revoked at some time, and not activated again, is served no more a minute and one fetch limit later. */
  lemma RevokedStops(api: map<Key, Value>, before: seq<Step>, after: seq<Step>, key: Key, u: Use, limit: nat)
    requires Runs(Fresh(api), before, limit)
    requires var s := After(Fresh(api), before, limit);
      key !in s.api && Runs(s, after, limit) && NeverActivates(after, key)
    requires u in After(After(Fresh(api), before, limit), after, limit).uses && u.key == key
    ensures u.at < After(Fresh(api), before, limit).now + 60_000 + limit
    ensures limit == 3000 ==> u.at < After(Fresh(api), before, limit).now + 63_000
    ensures limit == 5000 ==> u.at < After(Fresh(api), before, limit).now + 65_000
  {
    hide CanStep, Next, NeverActivates, Runs, After;
    var s := After(Fresh(api), before, limit);
    RunKeeps(Fresh(api), before, limit);
    RunKeeps(s, after, limit);
    NothingNew(s, after, key, s.now, limit);
  }

  // ----- the bound is reached -----

  lemma OneMoreStep(s: State, front: seq<Step>, step: Step, limit: nat)
    requires Runs(s, front, limit) && CanStep(After(s, front, limit), step, limit)
    ensures Runs(s, front + [step], limit)
    ensures After(s, front + [step], limit) == Next(After(s, front, limit), step, limit)
  {
    assert (front + [step])[..|front|] == front;
  }

  /** Answered just before the token is revoked, delivered at the limit, and served again a minute later. */
  lemma BoundReached(key: Key, value: Value, limit: nat) returns (after: seq<Step>)
    ensures var before := [Lookup(key, 0), ApiAnswers(0), Change(key, None)];
      && Runs(Fresh(map[key := value]), before, limit)
      && var s := After(Fresh(map[key := value]), before, limit);
         && s.now == 0 && key !in s.api
         && Runs(s, after, limit) && NeverActivates(after, key)
         && Use(key, value, 60_000 + limit - 1) in After(s, after, limit).uses
  {
    var start := Fresh(map[key := value]);
    assert Runs(start, [], limit) && After(start, [], limit) == start;
    hide Runs, After;
    OneMoreStep(start, [], Lookup(key, 0), limit);
    OneMoreStep(start, [] + [Lookup(key, 0)], ApiAnswers(0), limit);
    OneMoreStep(start, [] + [Lookup(key, 0)] + [ApiAnswers(0)], Change(key, None), limit);
    var s := After(start, [] + [Lookup(key, 0)] + [ApiAnswers(0)] + [Change(key, None)], limit);
    assert [] + [Lookup(key, 0)] + [ApiAnswers(0)] + [Change(key, None)]
      == [Lookup(key, 0), ApiAnswers(0), Change(key, None)];
    assert s.api == map[] && s.fetches == map[0 := Fetch(key, 0, Some(Answer(key, Some(value), 0)))];
    after := ServedLate(s, key, value, limit);
  }

  lemma ServedLate(s: State, key: Key, value: Value, limit: nat) returns (after: seq<Step>)
    requires s.now == 0 && 0 in s.fetches && 1 !in s.fetches
    requires s.fetches[0] == Fetch(key, 0, Some(Answer(key, Some(value), 0)))
    ensures Runs(s, after, limit) && NeverActivates(after, key)
    ensures Use(key, value, 60_000 + limit - 1) in After(s, after, limit).uses
  {
    assert Runs(s, [], limit) && After(s, [], limit) == s;
    hide Runs, After;
    var one := [] + [Wait(limit)];
    OneMoreStep(s, [], Wait(limit), limit);
    OneMoreStep(s, one, Arrives(0), limit);
    var two := one + [Arrives(0)];
    OneMoreStep(s, two, Wait(60_000 - 1), limit);
    var three := two + [Wait(60_000 - 1)];
    OneMoreStep(s, three, Lookup(key, 1), limit);
    after := three + [Lookup(key, 1)];
  }
}
