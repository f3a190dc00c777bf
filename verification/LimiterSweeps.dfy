/** When the sweep of idle buckets can be noticed by the callers. */
module LimiterSweeps {
  import opened Wrappers
  import opened Limiter

  /** The largest gap between the two readings that keeps every sweep out of sight. */
  function Tolerance(l: Limit): (gap: nat)
    requires Enabled(l)
    ensures gap <= l.window
  {
    if Slack(l) < Interval(l) then Slack(l) else l.window - Interval(l)
  }

  /** What a drop may give away at most: the credit still missing from the bucket, a window after the
      call was seen. */
  function Excess(l: Limit, gap: nat): nat
    requires Enabled(l)
  {
    if gap <= Tolerance(l) then 0
    else if gap - Slack(l) < Capacity(l) then gap - Slack(l)
    else Capacity(l)
  }

  lemma ExcessCovers(l: Limit, b: Bucket, seen: nat, now: nat, gap: nat)
    requires Enabled(l) && Interval(l) > 0
    requires b.last <= seen <= now <= seen + gap
    requires b.credit <= Capacity(l)
    ensures Take(l, b, now).0 ==>
              Level(l, Take(l, b, now).1, seen + l.window) + Excess(l, gap) >= Capacity(l)
  {
    IntervalFits(l);
  }

  /** The bucket of a visitor that may be dropped lacks no more than the excess. */
  ghost predicate InDebt(l: Limit, v: Option<Visitor>, gap: nat, clock: nat)
    requires Enabled(l)
  {
    v.Some? ==>
      && v.value.lastSeen <= clock
      && v.value.bucket.last <= clock
      && v.value.bucket.last <= v.value.lastSeen + gap
      && v.value.bucket.credit <= Capacity(l)
      && Level(l, v.value.bucket, v.value.lastSeen + l.window) + Excess(l, gap) >= Capacity(l)
  }

  lemma CallKeepsDebt(l: Limit, v: Option<Visitor>, gap: nat, clock: nat, seen: nat, now: nat)
    requires Enabled(l) && Interval(l) > 0 && InDebt(l, v, gap, clock)
    requires clock <= seen <= now <= seen + gap
    ensures InDebt(l, Some(Called(l, v, seen, now).1), gap, now)
  {
    IntervalFits(l);
    ExcessCovers(l, Bought(l, v), seen, now, gap);
  }

  lemma {:induction false} RunKeepsDebt(l: Limit, key: string, events: seq<Event>, gap: nat)
    requires Enabled(l) && Interval(l) > 0 && Timed(events, gap)
    ensures InDebt(l, After(l, key, events), gap, Clock(events))
  {
    if events != [] {
      hide Called, Excess, Interval, Level;
      var before, event := events[..|events| - 1], events[|events| - 1];
      RunKeepsDebt(l, key, before, gap);
      if event.Call? && event.key == key {
        CallKeepsDebt(l, After(l, key, before), gap, Clock(before), event.seen, event.now);
      }
    }
  }

  /** The sweep drops the key's visitor. */
  predicate Drops(l: Limit, v: Option<Visitor>, event: Event) {
    event.Sweep? && v.Some? && Kept(l, v, event.now).None?
  }

  /** In this run, every bucket the sweep drops is full. */
  ghost predicate DropsOnlyFull(l: Limit, key: string, events: seq<Event>)
    requires Enabled(l)
  {
    if events == [] then true
    else
      var before, event := events[..|events| - 1], events[|events| - 1];
      var v := After(l, key, before);
      && DropsOnlyFull(l, key, before)
      && (Drops(l, v, event) ==> Full(l, v.value.bucket, Max(Clock(before), event.now)))
  }

  /** In this run, a visitor is dropped only once `gap` more than the window has passed. */
  ghost predicate DropsLate(l: Limit, key: string, events: seq<Event>, gap: nat)
    requires Enabled(l)
  {
    if events == [] then true
    else
      var before, event := events[..|events| - 1], events[|events| - 1];
      var v := After(l, key, before);
      && DropsLate(l, key, before, gap)
      && (Drops(l, v, event) ==> event.now - v.value.lastSeen >= l.window + gap)
  }

  lemma {:induction false} ToleratedDropsAreFull(l: Limit, key: string, events: seq<Event>)
    requires Enabled(l) && Interval(l) > 0 && Timed(events, Tolerance(l))
    ensures DropsOnlyFull(l, key, events)
  {
    if events != [] {
      hide After, Interval;
      var before := events[..|events| - 1];
      ToleratedDropsAreFull(l, key, before);
      RunKeepsDebt(l, key, before, Tolerance(l));
    }
  }

  /** Whatever the gap between the two readings: a sweep that waits that much longer than the window
      drops only full buckets. */
  lemma {:induction false} LateDropsAreFull(l: Limit, key: string, events: seq<Event>, gap: nat)
    requires Enabled(l) && Interval(l) > 0 && Timed(events, gap) && DropsLate(l, key, events, gap)
    ensures DropsOnlyFull(l, key, events)
  {
    if events != [] {
      hide After, Interval;
      var before := events[..|events| - 1];
      LateDropsAreFull(l, key, before, gap);
      RunKeepsDebt(l, key, before, gap);
      IntervalFits(l);
    }
  }

  /** The visitor with sweeps against the visitor without. */
  ghost predicate Rel(l: Limit, v: Option<Visitor>, w: Option<Visitor>, clock: nat)
    requires Enabled(l)
  {
    && (v.Some? ==> v == w)
    && (v.None? && w.Some? ==> Full(l, w.value.bucket, clock))
  }

  lemma CallKeepsRel(l: Limit, v: Option<Visitor>, w: Option<Visitor>, clock: nat, seen: nat, now: nat)
    requires Enabled(l) && Interval(l) > 0 && Rel(l, v, w, clock) && clock <= now
    ensures Called(l, v, seen, now) == Called(l, w, seen, now)
  {
    IntervalFits(l);
  }

  lemma ApplyKeepsRel(l: Limit, key: string, v: Option<Visitor>, w: Option<Visitor>, clock: nat, event: Event)
    requires Enabled(l) && Interval(l) > 0 && Rel(l, v, w, clock)
    requires event.Call? ==> clock <= event.now
    requires Drops(l, v, event) ==> Full(l, v.value.bucket, Max(clock, event.now))
    ensures var w' := if event.Sweep? then w else Apply(l, key, w, event);
            Rel(l, Apply(l, key, v, event), w', Max(clock, event.now))
    ensures event.Call? && event.key == key ==>
              Called(l, v, event.seen, event.now).0 == Called(l, w, event.seen, event.now).0
  {
    hide Called, Interval;
    if event.Call? && event.key == key {
      CallKeepsRel(l, v, w, clock, event.seen, event.now);
    }
  }

  /** A run that drops only full buckets answers as the same calls do without any sweep. */
  lemma {:induction false} RunKeepsRel(l: Limit, key: string, events: seq<Event>, gap: nat)
    requires Enabled(l) && Interval(l) > 0 && Timed(events, gap) && DropsOnlyFull(l, key, events)
    ensures Rel(l, After(l, key, events), After(l, key, WithoutSweeps(events)), Clock(events))
    ensures Answers(l, key, events) == Answers(l, key, WithoutSweeps(events))
  {
    if events != [] {
      hide Rel, Apply, Called, After, Answers, Interval, WithoutSweeps, Drops, Full;
      var before, event := events[..|events| - 1], events[|events| - 1];
      var calls := WithoutSweeps(before);
      RunKeepsRel(l, key, before, gap);
      ApplyKeepsRel(l, key, After(l, key, before), After(l, key, calls), Clock(before), event);
      assert events == before + [event];
      OneMore(l, key, before, event);
      OneMore(l, key, calls, event);
    } else {
      assert WithoutSweeps(events) == [];
    }
  }

  lemma NeverRefuses(l: Limit, key: string, v: Option<Visitor>, event: Event)
    requires Enabled(l) && Interval(l) == 0
    ensures forall a :: a in Told(l, key, v, event) ==> a.ok
    ensures forall w :: Told(l, key, w, event) == Told(l, key, v, event)
  {
  }

  lemma {:induction false} NeverDry(l: Limit, key: string, events: seq<Event>)
    requires Enabled(l) && Interval(l) == 0
    ensures Answers(l, key, events) == Answers(l, key, WithoutSweeps(events))
    ensures forall a :: a in Answers(l, key, events) ==> a.ok
  {
    if events != [] {
      hide Apply, After, Answers, Interval, WithoutSweeps, Told;
      var before, event := events[..|events| - 1], events[|events| - 1];
      var calls := WithoutSweeps(before);
      NeverRefuses(l, key, After(l, key, before), event);
      NeverDry(l, key, before);
      assert events == before + [event];
      OneMore(l, key, before, event);
      OneMore(l, key, calls, event);
    }
  }

  /** A run of calls, then a sweep that drops a bucket which is not full: the callers can tell. */
  lemma EarlyDropShows(l: Limit, key: string, calls: seq<Event>, gap: nat, now: nat)
    requires Enabled(l) && Interval(l) > 0
    requires Timed(calls, gap) && WithoutSweeps(calls) == calls && Clock(calls) <= now
    requires After(l, key, calls).Some? && now - After(l, key, calls).value.lastSeen >= l.window
    requires Left(l, key, calls, now) < Capacity(l)
    ensures var events := calls + [Sweep(now)] + Burst(key, now, l.events);
            Timed(events, gap) && Answers(l, key, events) != Answers(l, key, WithoutSweeps(events))
  {
    var swept, n := calls + [Sweep(now)], l.events;
    assert swept[..|calls|] == calls;
    OneMore(l, key, calls, Sweep(now));
    BurstIsTimed(key, swept, gap, now, n);
    BurstMeasuresLevel(l, key, calls, now, n);
    BurstMeasuresLevel(l, key, swept, now, n);
  }

  /** The worst run when the slack is shorter than the interval: an emptied bucket, then a call that
      reads the clock for its visitor just too early to afford the token it gets. */
  function NearMiss(l: Limit, key: string): seq<Event>
    requires Enabled(l) && Slack(l) < Interval(l)
  {
    Burst(key, 1, l.events) + [Call(key, Interval(l) - Slack(l), 1 + Interval(l))]
  }

  lemma FreshIsFull(l: Limit, key: string, now: nat)
    requires Enabled(l)
    ensures Left(l, key, [], now) == Capacity(l)
  {
  }

  lemma BurstDrains(l: Limit, key: string, now: nat)
    requires Enabled(l) && Interval(l) > 0
    ensures After(l, key, Burst(key, now, l.events)) == Some(Visitor(Bucket(0, now), now))
  {
    hide After, Answers, Interval, Slack, Left;
    var n, i := l.events, Interval(l);
    var fewer := [] + Burst(key, now, n - 1);
    CallSpends(l, key, fewer, now);
    assert Burst(key, now, n) == fewer + [Call(key, now, now)];
    FreshIsFull(l, key, now);
    BurstMeasuresLevel(l, key, [], now, n - 1);
    assert n * i == (n - 1) * i + i;
  }

  lemma IntervalIsPositive(l: Limit)
    requires 0 < l.events <= l.window
    ensures Interval(l) == l.window / l.events > 0
  {
  }

  /** Of the calls that a new key makes at one instant, exactly the first `events` pass. */
  lemma BurstPassesExactly(l: Limit, key: string, now: nat, n: nat)
    requires 0 < l.events <= l.window && 0 < n
    ensures var all := Answers(l, key, Burst(key, now, n)); |all| == n && (all[n - 1].ok <==> n <= l.events)
  {
    IntervalIsPositive(l);
    FreshIsFull(l, key, now);
    assert [] + Burst(key, now, n) == Burst(key, now, n);
    hide Answers, Interval, Left;
    BurstMeasuresLevel(l, key, [], now, n);
    assert Answers(l, key, []) == [] by {
      NoAnswers(l, key);
    }
    Multiples(n, l.events, Interval(l));
  }

  lemma NoAnswers(l: Limit, key: string)
    requires Enabled(l)
    ensures Answers(l, key, []) == []
  {
  }

  /** The next call passes exactly when the window divided by `events` has gone by. */
  lemma RefillPassesExactly(l: Limit, key: string, now: nat, later: nat)
    requires 0 < l.events <= l.window && now <= later
    ensures var all := Answers(l, key, Burst(key, now, l.events) + [Call(key, later, later)]);
            |all| == l.events + 1 && (all[l.events].ok <==> later - now >= l.window / l.events)
  {
    IntervalIsPositive(l);
    IntervalFits(l);
    BurstPassesExactly(l, key, now, l.events);
    BurstDrains(l, key, now);
    hide Answers, Interval, Capacity, After, Burst;
    OneMore(l, key, Burst(key, now, l.events), Call(key, later, later));
  }

  lemma Multiples(n: nat, m: nat, i: nat)
    requires i > 0
    ensures n * i <= m * i <==> n <= m
  {
  }

  lemma DrainedIsTimed(l: Limit, key: string, gap: nat)
    ensures var calls := Burst(key, 1, l.events);
            Timed(calls, gap) && WithoutSweeps(calls) == calls && Clock(calls) <= 1
  {
    var calls := Burst(key, 1, l.events);
    assert [] + calls == calls;
    BurstIsTimed(key, [], gap, 1, l.events);
  }

  lemma NearMissIsTimed(l: Limit, key: string)
    requires Enabled(l) && Slack(l) < Interval(l)
    ensures var calls, now := NearMiss(l, key), Interval(l) - Slack(l) + l.window;
            Timed(calls, Slack(l) + 1) && WithoutSweeps(calls) == calls && Clock(calls) <= now
  {
    hide Interval, Slack, Capacity, Timed, Clock, WithoutSweeps, Burst, After, Answers;
    IntervalFits(l);
    var drained, i := Burst(key, 1, l.events), Interval(l);
    var last := Call(key, i - Slack(l), 1 + i);
    DrainedIsTimed(l, key, Slack(l) + 1);
    OneMoreIsTimed(drained, last, Slack(l) + 1);
    OneMore(l, key, drained, last);
  }

  lemma NearMissShows(l: Limit, key: string)
    requires Enabled(l) && Slack(l) < Interval(l)
    ensures After(l, key, NearMiss(l, key)) == Some(Visitor(Bucket(0, 1 + Interval(l)), Interval(l) - Slack(l)))
    ensures Left(l, key, NearMiss(l, key), Interval(l) - Slack(l) + l.window) == Capacity(l) - 1
  {
    IntervalFits(l);
    BurstDrains(l, key, 1);
    OneMore(l, key, Burst(key, 1, l.events), Call(key, Interval(l) - Slack(l), 1 + Interval(l)));
  }

  /** The worst run otherwise: a first call that reads the clock for its visitor long before its
      token is taken. */
  lemma LateTokenShows(l: Limit, key: string)
    requires Enabled(l) && 0 < Interval(l) <= Slack(l)
    ensures var gap := l.window - Interval(l) + 1;
            var calls := [Call(key, 1, 1 + gap)];
            && Timed(calls, gap) && WithoutSweeps(calls) == calls && Clock(calls) <= 1 + l.window
            && After(l, key, calls) == Some(Visitor(Bucket(Capacity(l) - Interval(l), 1 + gap), 1))
            && Left(l, key, calls, 1 + l.window) == Capacity(l) - 1
  {
    IntervalFits(l);
    var call := Call(key, 1, 1 + l.window - Interval(l) + 1);
    assert [call][..0] == [];
    assert Clock([]) == 0;
    OneMore(l, key, [], call);
    assert [] + [call] == [call];
  }

  lemma BeyondToleranceShows(l: Limit, key: string, gap: nat) returns (events: seq<Event>)
    requires Enabled(l) && Interval(l) > 0 && gap > Tolerance(l)
    ensures Timed(events, gap) && Answers(l, key, events) != Answers(l, key, WithoutSweeps(events))
  {
    hide Timed, Answers, WithoutSweeps, After, Left;
    IntervalFits(l);
    if Slack(l) < Interval(l) {
      var now := Interval(l) - Slack(l) + l.window;
      NearMissIsTimed(l, key);
      NearMissShows(l, key);
      EarlyDropShows(l, key, NearMiss(l, key), Slack(l) + 1, now);
      events := NearMiss(l, key) + [Sweep(now)] + Burst(key, now, l.events);
      TimedWidens(events, Slack(l) + 1, gap);
    } else {
      var used := l.window - Interval(l) + 1;
      LateTokenShows(l, key);
      EarlyDropShows(l, key, [Call(key, 1, 1 + used)], used, 1 + l.window);
      events := [Call(key, 1, 1 + used)] + [Sweep(1 + l.window)] + Burst(key, 1 + l.window, l.events);
      TimedWidens(events, used, gap);
    }
  }

  /** Sweeping never changes what a caller is told, in any run, exactly when no call lets more than
      `Tolerance` pass between its two clock readings. */
  lemma SweepsAreInvisibleExactly(l: Limit, key: string, gap: nat)
    requires Enabled(l) && Interval(l) > 0
    ensures (forall events :: Timed(events, gap) ==>
               Answers(l, key, events) == Answers(l, key, WithoutSweeps(events))) <==>
            gap <= Tolerance(l)
  {
    hide Timed, Answers, WithoutSweeps, Tolerance, Interval;
    if gap <= Tolerance(l) {
      forall events | Timed(events, gap)
        ensures Answers(l, key, events) == Answers(l, key, WithoutSweeps(events))
      {
        TimedWidens(events, gap, Tolerance(l));
        ToleratedDropsAreFull(l, key, events);
        RunKeepsRel(l, key, events, Tolerance(l));
      }
    } else {
      var events := BeyondToleranceShows(l, key, gap);
    }
  }
}
