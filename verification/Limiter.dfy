/** The keyed token buckets behind the rate limits, and the sweep that forgets idle ones. */
module Limiter {
  import opened Wrappers

  /** `window` is in nanoseconds; zero `events` means the limit is off. */
  datatype Limit = Limit(events: nat, window: nat)

  predicate Enabled(l: Limit) {
    l.events > 0
  }

  /** One event is earned every `Interval`; at 0 the bucket never runs dry. */
  function Interval(l: Limit): nat
    requires Enabled(l)
  {
    l.window / l.events
  }

  /** A bucket's room, counted in nanoseconds of refill. */
  function Capacity(l: Limit): nat
    requires Enabled(l)
  {
    l.events * Interval(l)
  }

  /** The part of the window that the truncating division leaves unused. */
  function Slack(l: Limit): nat
    requires Enabled(l)
    ensures Slack(l) == l.window - Capacity(l) && Slack(l) < l.events
  {
    l.window % l.events
  }

  /** `credit` is what the bucket held at `last`. */
  datatype Bucket = Bucket(credit: nat, last: nat)

  function Level(l: Limit, b: Bucket, now: nat): nat
    requires Enabled(l)
  {
    var earned := b.credit + (if now < b.last then 0 else now - b.last);
    if earned < Capacity(l) then earned else Capacity(l)
  }

  /** A refusal leaves the bucket as it was. */
  function Take(l: Limit, b: Bucket, now: nat): (bool, Bucket)
    requires Enabled(l)
  {
    if Interval(l) == 0 then (true, b)
    else if Level(l, b, now) < Interval(l) then (false, b)
    else (true, Bucket(Level(l, b, now) - Interval(l), now))
  }

  datatype Visitor = Visitor(bucket: Bucket, lastSeen: nat)

  function Bought(l: Limit, v: Option<Visitor>): Bucket
    requires Enabled(l)
  {
    if v.Some? then v.value.bucket else Bucket(Capacity(l), 0)
  }

  /** One call, with the two clock readings it makes: one for the visitor, one inside the bucket. */
  function Called(l: Limit, v: Option<Visitor>, seen: nat, now: nat): (bool, Visitor)
    requires Enabled(l)
  {
    var (ok, b) := Take(l, Bought(l, v), now);
    (ok, Visitor(b, seen))
  }

  function Kept(l: Limit, v: Option<Visitor>, now: nat): Option<Visitor> {
    if v.Some? && now - v.value.lastSeen >= l.window then None else v
  }

  function Find(visitors: map<string, Visitor>, key: string): Option<Visitor> {
    if key in visitors then Some(visitors[key]) else None
  }

  class Limiter {
    const limit: Limit
    var visitors: map<string, Visitor>

    constructor (limit: Limit)
      ensures this.limit == limit && visitors == map[]
    {
      this.limit := limit;
      visitors := map[];
    }

    method Allow(key: string, seen: nat, now: nat) returns (ok: bool)
      requires Enabled(limit)
      modifies this
      ensures ok == Called(limit, Find(old(visitors), key), seen, now).0
      ensures visitors == old(visitors)[key := Called(limit, Find(old(visitors), key), seen, now).1]
      ensures visitors[key].lastSeen == seen
      ensures !ok && key in old(visitors) ==> visitors[key].bucket == old(visitors)[key].bucket
    {
      if key !in visitors {
        visitors := visitors[key := Visitor(Bucket(Capacity(limit), 0), 0)];
      }
      var v := visitors[key].(lastSeen := seen);
      var (taken, bucket) := Take(limit, v.bucket, now);
      ok := taken;
      visitors := visitors[key := v.(bucket := bucket)];
    }

    /** The map is walked in an arbitrary order. */
    method Sweep(now: nat)
      modifies this
      ensures forall k :: Find(visitors, k) == Kept(limit, Find(old(visitors), k), now)
    {
      var todo := visitors.Keys;
      while todo != {}
        invariant todo <= visitors.Keys <= old(visitors).Keys
        invariant forall k :: k in todo ==> visitors[k] == old(visitors)[k]
        invariant forall k :: k !in todo ==> Find(visitors, k) == Kept(limit, Find(old(visitors), k), now)
        decreases |todo|
      {
        var key :| key in todo;
        todo := todo - {key};
        if now - visitors[key].lastSeen >= limit.window {
          visitors := visitors - {key};
        }
      }
    }
  }

  method NewLimiter(limit: Limit) returns (l: Limiter?)
    ensures l == null <==> !Enabled(limit)
    ensures l != null ==> fresh(l) && l.limit == limit && l.visitors == map[]
  {
    if !Enabled(limit) {
      return null;
    }
    l := new Limiter(limit);
  }

  datatype Event =
    | Call(key: string, seen: nat, now: nat)
    | Sweep(now: nat)

  function Apply(l: Limit, key: string, v: Option<Visitor>, event: Event): Option<Visitor>
    requires Enabled(l)
  {
    match event
    case Call(k, seen, now) => if k == key then Some(Called(l, v, seen, now).1) else v
    case Sweep(now) => Kept(l, v, now)
  }

  function After(l: Limit, key: string, events: seq<Event>): Option<Visitor>
    requires Enabled(l)
  {
    if events == [] then None
    else Apply(l, key, After(l, key, events[..|events| - 1]), events[|events| - 1])
  }

  datatype Answer = Answer(now: nat, ok: bool)

  function Told(l: Limit, key: string, v: Option<Visitor>, event: Event): seq<Answer>
    requires Enabled(l)
  {
    if event.Call? && event.key == key then [Answer(event.now, Called(l, v, event.seen, event.now).0)] else []
  }

  /** What a key's callers were told, call by call. */
  function Answers(l: Limit, key: string, events: seq<Event>): seq<Answer>
    requires Enabled(l)
  {
    if events == [] then []
    else
      var before, event := events[..|events| - 1], events[|events| - 1];
      Answers(l, key, before) + Told(l, key, After(l, key, before), event)
  }

  /** The limiter object answers one key as the fold over the events does, whatever other keys do. */
  method Drive(l: Limiter, key: string, events: seq<Event>) returns (answers: seq<Answer>)
    requires Enabled(l.limit) && l.visitors == map[]
    modifies l
    ensures Find(l.visitors, key) == After(l.limit, key, events)
    ensures answers == Answers(l.limit, key, events)
  {
    answers := [];
    for i := 0 to |events|
      invariant Find(l.visitors, key) == After(l.limit, key, events[..i])
      invariant answers == Answers(l.limit, key, events[..i])
    {
      assert events[..i + 1][..i] == events[..i];
      match events[i] {
        case Call(k, seen, now) =>
          var ok := l.Allow(k, seen, now);
          if k == key {
            answers := answers + [Answer(now, ok)];
          }
        case Sweep(now) =>
          l.Sweep(now);
      }
    }
    assert events[..|events|] == events;
  }

  /** The key's last call, passed or refused, by the reading it made for its visitor. */
  ghost predicate LastCall(key: string, events: seq<Event>, i: nat) {
    && i < |events| && events[i].Call? && events[i].key == key
    && forall j | i < j < |events| :: !(events[j].Call? && events[j].key == key)
  }

  lemma {:induction false} VisitorIsDated(l: Limit, key: string, events: seq<Event>) returns (i: nat)
    requires Enabled(l)
    ensures var v := After(l, key, events);
            v.Some? ==> LastCall(key, events, i) && v.value.lastSeen == events[i].seen
  {
    i := 0;
    if events != [] {
      var before, event := events[..|events| - 1], events[|events| - 1];
      i := VisitorIsDated(l, key, before);
      hide Take;
      if event.Call? && event.key == key {
        i := |before|;
      }
      assert events == before + [event];
    }
  }

  /** A sweep drops a key exactly when its last call, passed or refused, was seen at least a window ago. */
  lemma SweepDropsExactly(l: Limit, key: string, events: seq<Event>, i: nat, now: nat)
    requires Enabled(l) && After(l, key, events).Some? && LastCall(key, events, i)
    ensures After(l, key, events + [Sweep(now)]) ==
            if events[i].seen + l.window <= now then None else After(l, key, events)
  {
    var j := VisitorIsDated(l, key, events);
    assert i == j;
    OneMore(l, key, events, Sweep(now));
    hide After;
  }

  function WithoutSweeps(events: seq<Event>): seq<Event> {
    if events == [] then []
    else
      var event := events[|events| - 1];
      WithoutSweeps(events[..|events| - 1]) + if event.Sweep? then [] else [event]
  }

  function Max(a: nat, b: nat): nat {
    if a < b then b else a
  }

  /** What the clock shows once a run is over. A sweep may come late with the reading it was given. */
  function Clock(events: seq<Event>): nat {
    if events == [] then 0
    else Max(Clock(events[..|events| - 1]), events[|events| - 1].now)
  }

  /** The clock never goes back, and no call lets more than `gap` pass between its two readings. */
  ghost predicate Timed(events: seq<Event>, gap: nat) {
    if events == [] then true
    else
      var before, event := events[..|events| - 1], events[|events| - 1];
      && Timed(before, gap)
      && (event.Call? ==> Clock(before) <= event.seen <= event.now <= event.seen + gap)
  }

  ghost predicate Full(l: Limit, b: Bucket, now: nat)
    requires Enabled(l)
  {
    Level(l, b, now) == Capacity(l)
  }

  lemma IntervalFits(l: Limit)
    requires Enabled(l)
    ensures Interval(l) <= Capacity(l) <= l.window
  {
    assert Capacity(l) == Interval(l) + (l.events - 1) * Interval(l);
  }

  lemma OneMore(l: Limit, key: string, events: seq<Event>, event: Event)
    requires Enabled(l)
    ensures After(l, key, events + [event]) == Apply(l, key, After(l, key, events), event)
    ensures Answers(l, key, events + [event]) == Answers(l, key, events) + Told(l, key, After(l, key, events), event)
    ensures WithoutSweeps(events + [event]) ==
            if event.Sweep? then WithoutSweeps(events) else WithoutSweeps(events) + [event]
    ensures event.Sweep? ==> Answers(l, key, events + [event]) == Answers(l, key, events)
  {
    assert (events + [event])[..|events|] == events;
  }

  lemma OneMoreIsTimed(events: seq<Event>, event: Event, gap: nat)
    ensures Timed(events + [event], gap) <==>
            Timed(events, gap) && (event.Call? ==> Clock(events) <= event.seen <= event.now <= event.seen + gap)
    ensures Clock(events + [event]) == Max(Clock(events), event.now)
    ensures WithoutSweeps(events + [event]) == WithoutSweeps(events) + if event.Sweep? then [] else [event]
  {
    assert (events + [event])[..|events|] == events;
  }

  lemma {:induction false} TimedWidens(events: seq<Event>, gap: nat, wider: nat)
    requires Timed(events, gap) && gap <= wider
    ensures Timed(events, wider)
  {
    if events != [] {
      TimedWidens(events[..|events| - 1], gap, wider);
    }
  }

  function Burst(key: string, now: nat, n: nat): seq<Event> {
    seq(n, _ => Call(key, now, now))
  }

  /** How many of the key's calls passed at times in the closed interval. */
  function Admitted(answers: seq<Answer>, from: nat, to: nat): nat {
    if answers == [] then 0
    else
      var last := answers[|answers| - 1];
      Admitted(answers[..|answers| - 1], from, to) + (if last.ok && from <= last.now <= to then 1 else 0)
  }

  lemma AdmittedOneMore(answers: seq<Answer>, answer: Answer, from: nat, to: nat)
    ensures Admitted(answers + [answer], from, to) ==
            Admitted(answers, from, to) + if answer.ok && from <= answer.now <= to then 1 else 0
  {
    assert (answers + [answer])[..|answers|] == answers;
  }

  /** What the key's bucket holds after a run. */
  function Left(l: Limit, key: string, events: seq<Event>, now: nat): nat
    requires Enabled(l)
  {
    Level(l, Bought(l, After(l, key, events)), now)
  }

  lemma CallSpends(l: Limit, key: string, events: seq<Event>, now: nat)
    requires Enabled(l) && Interval(l) > 0
    ensures var left, ok := Left(l, key, events, now), Left(l, key, events, now) >= Interval(l);
            && Answers(l, key, events + [Call(key, now, now)]) == Answers(l, key, events) + [Answer(now, ok)]
            && Left(l, key, events + [Call(key, now, now)], now) == left - (if ok then Interval(l) else 0)
            && (ok ==> After(l, key, events + [Call(key, now, now)]) ==
                       Some(Visitor(Bucket(left - Interval(l), now), now)))
  {
    hide Answers, After, Interval;
    OneMore(l, key, events, Call(key, now, now));
  }

  /** After a run, the `n`-th of `n` calls made at one instant passes exactly when the bucket held
      `n` events' worth. */
  lemma {:induction false} BurstMeasuresLevel(l: Limit, key: string, events: seq<Event>, now: nat, n: nat)
    requires Enabled(l) && Interval(l) > 0
    ensures var left, all := Left(l, key, events, now), Answers(l, key, events + Burst(key, now, n));
            && |all| == |Answers(l, key, events)| + n
            && (n > 0 ==> (all[|all| - 1].ok <==> n * Interval(l) <= left))
    ensures var left, rest := Left(l, key, events, now), Left(l, key, events + Burst(key, now, n), now);
            if n * Interval(l) <= left then rest == left - n * Interval(l) else rest < Interval(l)
  {
    hide Left, Answers, Interval;
    if n == 0 {
      assert events + Burst(key, now, 0) == events;
    } else {
      var fewer := events + Burst(key, now, n - 1);
      assert events + Burst(key, now, n) == fewer + [Call(key, now, now)];
      BurstMeasuresLevel(l, key, events, now, n - 1);
      CallSpends(l, key, fewer, now);
      assert n * Interval(l) == (n - 1) * Interval(l) + Interval(l);
    }
  }

  lemma {:induction false} BurstIsTimed(key: string, events: seq<Event>, gap: nat, now: nat, n: nat)
    requires Timed(events, gap) && Clock(events) <= now
    ensures Timed(events + Burst(key, now, n), gap) && Clock(events + Burst(key, now, n)) <= now
    ensures WithoutSweeps(events + Burst(key, now, n)) == WithoutSweeps(events) + Burst(key, now, n)
  {
    hide Timed, Clock, WithoutSweeps;
    if n == 0 {
      assert events + Burst(key, now, n) == events;
    } else {
      var fewer, call := events + Burst(key, now, n - 1), Call(key, now, now);
      BurstIsTimed(key, events, gap, now, n - 1);
      OneMoreIsTimed(fewer, call, gap);
      assert events + Burst(key, now, n) == fewer + [call];
      assert WithoutSweeps(events) + Burst(key, now, n) == WithoutSweeps(events) + Burst(key, now, n - 1) + [call];
    }
  }
}
