/** How many calls the limiter lets through in a span of time, sweeps included. */
module LimiterRate {
  import opened Wrappers
  import opened Limiter
  import opened LimiterSweeps

  function Earned(clock: nat, from: nat, to: nat): nat
    requires from <= to
  {
    if clock < from then 0 else if clock <= to then clock - from else to - from
  }

  /** What the bucket still holds counts until the span is over. */
  function Owned(l: Limit, v: Option<Visitor>, clock: nat, to: nat): nat
    requires Enabled(l)
  {
    if clock <= to then Level(l, Bought(l, v), clock) else 0
  }

  /** The drops of the key's visitor within the span. */
  function DropsIn(l: Limit, key: string, events: seq<Event>, from: nat, to: nat): nat
    requires Enabled(l)
  {
    if events == [] then 0
    else
      var before, event := events[..|events| - 1], events[|events| - 1];
      var clock := Max(Clock(before), event.now);
      DropsIn(l, key, before, from, to) +
      if Drops(l, After(l, key, before), event) && from <= clock <= to then 1 else 0
  }

  /** The rate's invariant: the calls that passed since `from`, together with what the bucket still
      holds, were in it at `from`, or have been earned since, or were given away by a drop. */
  ghost predicate Solvent(l: Limit, v: Option<Visitor>, passed: nat, given: nat, clock: nat, from: nat, to: nat)
    requires Enabled(l) && from <= to
  {
    && (v.Some? ==> v.value.bucket.last <= clock)
    && passed * Interval(l) + Owned(l, v, clock, to) <= Capacity(l) + Earned(clock, from, to) + given
    && (clock < from ==> passed == 0)
  }

  lemma TimeKeepsSolvent(l: Limit, v: Option<Visitor>, passed: nat, given: nat, clock: nat, now: nat,
                         from: nat, to: nat)
    requires Enabled(l) && from <= to && clock <= now
    requires Solvent(l, v, passed, given, clock, from, to)
    ensures Solvent(l, v, passed, given, now, from, to)
  {
    hide Interval;
  }

  /** Taking in the instant it is paid for. */
  lemma TakeKeepsSolvent(l: Limit, v: Option<Visitor>, passed: nat, given: nat, seen: nat, now: nat, from: nat, to: nat)
    requires Enabled(l) && Interval(l) > 0 && from <= to
    requires Solvent(l, v, passed, given, now, from, to)
    ensures var (ok, v') := Called(l, v, seen, now);
            Solvent(l, Some(v'), passed + (if ok && from <= now <= to then 1 else 0), given, now, from, to)
  {
    assert (passed + 1) * Interval(l) == passed * Interval(l) + Interval(l);
    hide Interval, Capacity;
  }

  lemma DropKeepsSolvent(l: Limit, v: Option<Visitor>, passed: nat, given: nat, clock: nat, event: Event,
                         gap: nat, from: nat, to: nat)
    requires Enabled(l) && Interval(l) > 0 && from <= to
    requires Solvent(l, v, passed, given, clock, from, to) && InDebt(l, v, gap, clock) && Drops(l, v, event)
    ensures var now := Max(clock, event.now);
            Solvent(l, None, passed, given + (if from <= now <= to then Excess(l, gap) else 0), now, from, to)
  {
    TimeKeepsSolvent(l, v, passed, given, clock, Max(clock, event.now), from, to);
    hide Interval, Excess;
  }

  function Passes(l: Limit, key: string, v: Option<Visitor>, event: Event, from: nat, to: nat): nat
    requires Enabled(l)
  {
    if event.Call? && event.key == key && from <= event.now <= to && Called(l, v, event.seen, event.now).0 then 1 else 0
  }

  lemma AnswersPass(l: Limit, key: string, events: seq<Event>, event: Event, from: nat, to: nat)
    requires Enabled(l)
    ensures Admitted(Answers(l, key, events + [event]), from, to) ==
            Admitted(Answers(l, key, events), from, to) + Passes(l, key, After(l, key, events), event, from, to)
  {
    hide After, Called;
    var answers, v := Answers(l, key, events), After(l, key, events);
    OneMore(l, key, events, event);
    hide Answers;
    if event.Call? && event.key == key {
      AdmittedOneMore(answers, Answer(event.now, Called(l, v, event.seen, event.now).0), from, to);
    } else {
      assert answers + [] == answers;
    }
  }

  lemma ApplyKeepsSolvent(l: Limit, key: string, v: Option<Visitor>, passed: nat, drops: nat, clock: nat, event: Event,
                          gap: nat, from: nat, to: nat)
    requires Enabled(l) && Interval(l) > 0 && from <= to
    requires Solvent(l, v, passed, drops * Excess(l, gap), clock, from, to) && InDebt(l, v, gap, clock)
    requires event.Call? ==> clock <= event.now
    ensures var now := Max(clock, event.now);
            var drops' := drops + if Drops(l, v, event) && from <= now <= to then 1 else 0;
            Solvent(l, Apply(l, key, v, event), passed + Passes(l, key, v, event, from, to), drops' * Excess(l, gap),
                    now, from, to)
  {
    hide Solvent, InDebt, Called, Excess, Interval;
    var e, now := Excess(l, gap), Max(clock, event.now);
    if Drops(l, v, event) {
      DropKeepsSolvent(l, v, passed, drops * e, clock, event, gap, from, to);
      assert (drops + 1) * e == drops * e + e;
    } else {
      TimeKeepsSolvent(l, v, passed, drops * e, clock, now, from, to);
      if event.Call? && event.key == key {
        TakeKeepsSolvent(l, v, passed, drops * e, event.seen, event.now, from, to);
      }
    }
  }

  lemma OneMoreDrop(l: Limit, key: string, before: seq<Event>, event: Event, from: nat, to: nat)
    requires Enabled(l)
    ensures var clock := Max(Clock(before), event.now);
            DropsIn(l, key, before + [event], from, to) ==
            DropsIn(l, key, before, from, to) +
            if Drops(l, After(l, key, before), event) && from <= clock <= to then 1 else 0
  {
    assert (before + [event])[..|before|] == before;
  }

  lemma NothingIsSolvent(l: Limit, key: string, gap: nat, from: nat, to: nat)
    requires Enabled(l) && Interval(l) > 0 && from <= to
    ensures Solvent(l, After(l, key, []), Admitted(Answers(l, key, []), from, to),
                    DropsIn(l, key, [], from, to) * Excess(l, gap), Clock([]), from, to)
  {
    hide Excess, Interval;
  }

  lemma {:induction false} RunIsSolvent(l: Limit, key: string, events: seq<Event>, gap: nat, from: nat, to: nat)
    requires Enabled(l) && Interval(l) > 0 && from <= to && Timed(events, gap)
    ensures Solvent(l, After(l, key, events), Admitted(Answers(l, key, events), from, to),
                    DropsIn(l, key, events, from, to) * Excess(l, gap), Clock(events), from, to)
  {
    hide Solvent, Answers, Interval, Admitted, Timed, Excess, InDebt, Passes, Apply, Drops, After, DropsIn, Clock;
    if events == [] {
      NothingIsSolvent(l, key, gap, from, to);
    } else {
      var before, event := events[..|events| - 1], events[|events| - 1];
      assert events == before + [event];
      OneMore(l, key, before, event);
      OneMoreIsTimed(before, event, gap);
      OneMoreDrop(l, key, before, event, from, to);
      AnswersPass(l, key, before, event, from, to);
      RunIsSolvent(l, key, before, gap, from, to);
      RunKeepsDebt(l, key, before, gap);
      ApplyKeepsSolvent(l, key, After(l, key, before), Admitted(Answers(l, key, before), from, to),
                        DropsIn(l, key, before, from, to), Clock(before), event, gap, from, to);
    }
  }

  /** Between two drops of a visitor a whole window passes. */
  ghost predicate Spread(l: Limit, v: Option<Visitor>, drops: nat, clock: nat, from: nat, to: nat) {
    drops > 0 ==>
      && from + (drops - 1) * l.window <= (if v.Some? then v.value.lastSeen else clock)
      && from + (drops - 1) * l.window <= to
  }

  lemma DropKeepsSpread(l: Limit, v: Option<Visitor>, drops: nat, clock: nat, event: Event, from: nat, to: nat)
    requires Spread(l, v, drops, clock, from, to) && Drops(l, v, event)
    requires from <= Max(clock, event.now) <= to
    ensures Spread(l, None, drops + 1, Max(clock, event.now), from, to)
  {
    if drops > 0 {
      assert drops * l.window == (drops - 1) * l.window + l.window;
    }
  }

  lemma {:induction false} RunKeepsSpread(l: Limit, key: string, events: seq<Event>, gap: nat, from: nat, to: nat)
    requires Enabled(l) && Timed(events, gap)
    ensures Spread(l, After(l, key, events), DropsIn(l, key, events, from, to), Clock(events), from, to)
    ensures After(l, key, events).Some? ==> After(l, key, events).value.lastSeen <= Clock(events)
  {
    if events != [] {
      hide Interval, Take;
      var before, event := events[..|events| - 1], events[|events| - 1];
      RunKeepsSpread(l, key, before, gap, from, to);
      var drops, v, clock := DropsIn(l, key, before, from, to), After(l, key, before), Clock(before);
      if Drops(l, v, event) && from <= Max(clock, event.now) <= to {
        DropKeepsSpread(l, v, drops, clock, event, from, to);
      }
    }
  }

  lemma LessFromProduct(a: nat, b: nat, i: nat)
    requires a * i < b * i
    ensures a < b
  {
  }

  lemma Quotient(k: nat, i: nat, rest: nat)
    requires i > 0
    ensures (k * i + rest) / i >= k
  {
    var x := k * i + rest;
    var q := x / i;
    assert x == q * i + x % i;
    assert (q + 1) * i == q * i + i;
    LessFromProduct(k, q + 1, i);
  }

  lemma EventsIn(n: nat, events: nat, i: nat, span: nat)
    requires i > 0 && n * i <= events * i + span
    ensures n <= events + span / i
  {
    if n > events {
      var k := n - events;
      assert n * i == events * i + k * i;
      Quotient(k, i, span - k * i);
    }
  }

  lemma DropsAreRare(l: Limit, key: string, events: seq<Event>, gap: nat, from: nat, to: nat)
    requires Enabled(l) && Interval(l) > 0 && from <= to && Timed(events, gap)
    ensures DropsIn(l, key, events, from, to) <= 1 + (to - from) / l.window
  {
    RunKeepsSpread(l, key, events, gap, from, to);
    IntervalFits(l);
    hide Interval, Slack, DropsIn, After, Timed, Capacity;
    var drops := DropsIn(l, key, events, from, to);
    if drops > 0 {
      Quotient(drops - 1, l.window, to - from - (drops - 1) * l.window);
    }
  }

  /** A drop gives away no more than the gap reaches beyond the part of the window left unused. */
  lemma ExcessIsSmall(l: Limit, gap: nat)
    requires Enabled(l) && Interval(l) > 0
    ensures Excess(l, gap) <= l.window
    ensures Excess(l, gap) <= if gap <= l.window % l.events then 0 else gap - l.window % l.events
  {
    IntervalFits(l);
  }

  /** The rate for any gap between the two readings: the burst, what the span earns, and the excess
      for each drop, of which a span holds at most one and one more per window. */
  lemma RateForAnyGap(l: Limit, key: string, events: seq<Event>, gap: nat, from: nat, to: nat)
    requires Enabled(l) && Interval(l) > 0 && from <= to && Timed(events, gap)
    ensures DropsIn(l, key, events, from, to) <= 1 + (to - from) / l.window
    ensures Admitted(Answers(l, key, events), from, to) <=
            l.events + (to - from + DropsIn(l, key, events, from, to) * Excess(l, gap)) / Interval(l)
  {
    hide Interval, Excess, Slack, DropsIn, Answers, After, Admitted, Timed, Solvent, Clock;
    RunIsSolvent(l, key, events, gap, from, to);
    DropsAreRare(l, key, events, gap, from, to);
    var passed := Admitted(Answers(l, key, events), from, to);
    var given := DropsIn(l, key, events, from, to) * Excess(l, gap);
    SolventPays(l, After(l, key, events), passed, given, Clock(events), from, to);
    EventsIn(passed, l.events, Interval(l), to - from + given);
  }

  lemma SolventPays(l: Limit, v: Option<Visitor>, passed: nat, given: nat, clock: nat, from: nat, to: nat)
    requires Enabled(l) && from <= to && Solvent(l, v, passed, given, clock, from, to)
    ensures passed * Interval(l) <= l.events * Interval(l) + (to - from + given)
  {
    hide Interval, Level;
  }

  /** The rate a limit promises: any span of time lets at most `events` calls of a key through, and
      one more for every interval that fits into the span. */
  ghost predicate RateHolds(l: Limit, key: string, events: seq<Event>)
    requires Enabled(l) && Interval(l) > 0
  {
    forall from: nat, to: nat :: from <= to ==>
      Admitted(Answers(l, key, events), from, to) <= l.events + (to - from) / Interval(l)
  }

  /** It is kept in every run that drops only full buckets, whatever the gap. */
  lemma RateIsBounded(l: Limit, key: string, events: seq<Event>, gap: nat)
    requires Enabled(l) && Interval(l) > 0 && Timed(events, gap) && DropsOnlyFull(l, key, events)
    ensures RateHolds(l, key, events)
  {
    hide Interval, DropsOnlyFull, Answers, After, Rel, Admitted, WithoutSweeps, Timed, Clock;
    hide CallsOnly, Excess, DropsIn;
    RunKeepsRel(l, key, events, gap);
    SweeplessIsTimed(events, gap);
    SweeplessAreCalls(events);
    forall from: nat, to: nat | from <= to
      ensures Admitted(Answers(l, key, events), from, to) <= l.events + (to - from) / Interval(l)
    {
      NoDropsWithoutSweeps(l, key, WithoutSweeps(events), from, to);
      RateForAnyGap(l, key, WithoutSweeps(events), gap, from, to);
    }
  }

  ghost predicate CallsOnly(events: seq<Event>) {
    forall e :: e in events ==> e.Call?
  }

  lemma {:induction false} NoDropsWithoutSweeps(l: Limit, key: string, events: seq<Event>, from: nat, to: nat)
    requires Enabled(l) && CallsOnly(events)
    ensures DropsIn(l, key, events, from, to) == 0
  {
    if events != [] {
      assert events[|events| - 1] in events;
      NoDropsWithoutSweeps(l, key, events[..|events| - 1], from, to);
    }
  }

  lemma SweepDropsOut(events: seq<Event>)
    requires events != []
    ensures var calls, event := WithoutSweeps(events[..|events| - 1]), events[|events| - 1];
            WithoutSweeps(events) == if event.Sweep? then calls else calls + [event]
  {
  }

  lemma {:induction false} SweeplessAreCalls(events: seq<Event>)
    ensures CallsOnly(WithoutSweeps(events))
  {
    if events != [] {
      SweeplessAreCalls(events[..|events| - 1]);
      SweepDropsOut(events);
    }
  }

  lemma {:induction false} SweeplessIsTimed(events: seq<Event>, gap: nat)
    requires Timed(events, gap)
    ensures Timed(WithoutSweeps(events), gap) && Clock(WithoutSweeps(events)) <= Clock(events)
  {
    if events != [] {
      var before, event := events[..|events| - 1], events[|events| - 1];
      SweeplessIsTimed(before, gap);
      SweepDropsOut(events);
      if event.Call? {
        var calls := WithoutSweeps(before);
        assert Clock(calls) <= Clock(before) <= event.seen;
        hide WithoutSweeps, CallsOnly;
        OneMoreIsTimed(calls, event, gap);
      }
    }
  }

  // -- Beyond the tolerance ----------------------------------------------------------------

  lemma {:induction false} BurstIsAdmitted(l: Limit, key: string, events: seq<Event>, now: nat, n: nat,
                                           from: nat, to: nat)
    requires Enabled(l) && Interval(l) > 0 && from <= now <= to
    requires n * Interval(l) <= Left(l, key, events, now)
    ensures Admitted(Answers(l, key, events + Burst(key, now, n)), from, to) ==
            Admitted(Answers(l, key, events), from, to) + n
  {
    hide Left, Answers, Interval, Admitted;
    if n == 0 {
      assert events + Burst(key, now, 0) == events;
    } else {
      var fewer := events + Burst(key, now, n - 1);
      assert events + Burst(key, now, n) == fewer + [Call(key, now, now)];
      assert n * Interval(l) == (n - 1) * Interval(l) + Interval(l);
      BurstIsAdmitted(l, key, events, now, n - 1, from, to);
      BurstMeasuresLevel(l, key, events, now, n - 1);
      CallSpends(l, key, fewer, now);
      AdmittedOneMore(Answers(l, key, fewer), Answer(now, true), from, to);
    }
  }

  /** A run of calls, a sweep that drops the visitor, and then as many calls as a fresh bucket holds. */
  lemma DropRefills(l: Limit, key: string, calls: seq<Event>, now: nat, from: nat)
    requires Enabled(l) && Interval(l) > 0 && from <= now
    requires Drops(l, After(l, key, calls), Sweep(now))
    ensures Admitted(Answers(l, key, calls + [Sweep(now)] + Burst(key, now, l.events)), from, now) ==
            Admitted(Answers(l, key, calls), from, now) + l.events
  {
    var swept := calls + [Sweep(now)];
    OneMore(l, key, calls, Sweep(now));
    assert Left(l, key, swept, now) == l.events * Interval(l);
    BurstIsAdmitted(l, key, swept, now, l.events, from, now);
  }

  /** An interval after it was drained, the bucket affords one call. */
  lemma DrainedEarnsOne(l: Limit, seen: nat)
    requires Enabled(l) && Interval(l) > 0
    ensures Called(l, Some(Visitor(Bucket(0, 1), 1)), seen, 1 + Interval(l)).0
  {
    IntervalFits(l);
  }

  lemma DrainedPasses(l: Limit, key: string, to: nat)
    requires Enabled(l) && Interval(l) > 0 && 1 <= to
    ensures Admitted(Answers(l, key, Burst(key, 1, l.events)), 1, to) == l.events
  {
    FreshIsFull(l, key, 1);
    hide Answers, After, Interval, Admitted, Left, Burst;
    BurstIsAdmitted(l, key, [], 1, l.events, 1, to);
    assert [] + Burst(key, 1, l.events) == Burst(key, 1, l.events);
    NothingAdmitted(l, key, 1, to);
  }

  lemma NothingAdmitted(l: Limit, key: string, from: nat, to: nat)
    requires Enabled(l)
    ensures Admitted(Answers(l, key, []), from, to) == 0
  {
  }

  lemma NearMissPasses(l: Limit, key: string, to: nat)
    requires Enabled(l) && Slack(l) < Interval(l) && 1 + Interval(l) <= to
    ensures Admitted(Answers(l, key, NearMiss(l, key)), 1, to) == l.events + 1
  {
    hide Answers, After, Interval, Admitted, Slack, Burst, Called, Capacity;
    var drained, last := Burst(key, 1, l.events), Call(key, Interval(l) - Slack(l), 1 + Interval(l));
    DrainedPasses(l, key, to);
    BurstDrains(l, key, 1);
    DrainedEarnsOne(l, last.seen);
    AnswersPass(l, key, drained, last, 1, to);
  }

  lemma Floor(k: nat, i: nat, rest: nat)
    requires rest < i
    ensures (k * i + rest) / i == k
  {
    var x := k * i + rest;
    Quotient(k, i, rest);
    assert (k + 1) * i == k * i + i;
    assert x / i * i <= x;
    LessFromProduct(x / i, k + 1, i);
  }

  lemma RateFails(l: Limit, key: string, events: seq<Event>, from: nat, to: nat)
    requires Enabled(l) && Interval(l) > 0 && from <= to
    requires Admitted(Answers(l, key, events), from, to) > l.events + (to - from) / Interval(l)
    ensures !RateHolds(l, key, events)
  {
  }

  lemma NearMissCounts(l: Limit, key: string, now: nat)
    requires Enabled(l) && Slack(l) < Interval(l) && now == Interval(l) - Slack(l) + l.window
    ensures var events := NearMiss(l, key) + [Sweep(now)] + Burst(key, now, l.events);
            Timed(events, Slack(l) + 1) && Admitted(Answers(l, key, events), 1, now) == 2 * l.events + 1
  {
    hide Interval, Slack, NearMiss, Timed, Answers, After, Left, WithoutSweeps, Burst, Admitted, Clock, Capacity;
    IntervalFits(l);
    NearMissIsTimed(l, key);
    NearMissShows(l, key);
    NearMissPasses(l, key, now);
    EarlyDropShows(l, key, NearMiss(l, key), Slack(l) + 1, now);
    DropRefills(l, key, NearMiss(l, key), now, 1);
  }

  lemma NearMissSpan(l: Limit)
    requires Enabled(l) && Slack(l) < Interval(l)
    ensures (Interval(l) - Slack(l) + l.window - 1) / Interval(l) == l.events
  {
    var i := Interval(l);
    assert i - Slack(l) + l.window - 1 == l.events * i + (i - 1);
    hide Interval, Slack;
    Floor(l.events, i, i - 1);
  }

  lemma NearMissExceeds(l: Limit, key: string) returns (events: seq<Event>)
    requires Enabled(l) && Slack(l) < Interval(l)
    ensures Timed(events, Slack(l) + 1) && !RateHolds(l, key, events)
  {
    hide Interval, Slack, NearMiss, Timed, Answers, Burst, RateHolds, Admitted, Capacity;
    var now := Interval(l) - Slack(l) + l.window;
    IntervalFits(l);
    NearMissCounts(l, key, now);
    NearMissSpan(l);
    events := NearMiss(l, key) + [Sweep(now)] + Burst(key, now, l.events);
    RateFails(l, key, events, 1, now);
  }

  lemma LateTokenPasses(l: Limit, key: string, now: nat)
    requires Enabled(l) && 0 < Interval(l) <= Slack(l) && now == 1 + l.window
    ensures var at := 2 + l.window - Interval(l);
            at <= now && Admitted(Answers(l, key, [Call(key, 1, at)]), at, now) == 1
  {
    IntervalFits(l);
    var at := 2 + l.window - Interval(l);
    OneMore(l, key, [], Call(key, 1, at));
    assert [] + [Call(key, 1, at)] == [Call(key, 1, at)];
    AdmittedOneMore([], Answer(at, true), at, now);
    assert [] + [Answer(at, true)] == [Answer(at, true)];
  }

  lemma LateTokenCounts(l: Limit, key: string, now: nat)
    requires Enabled(l) && 0 < Interval(l) <= Slack(l) && now == 1 + l.window
    ensures var at := 2 + l.window - Interval(l);
            var events := [Call(key, 1, at)] + [Sweep(now)] + Burst(key, now, l.events);
            && at <= now
            && Timed(events, l.window - Interval(l) + 1)
            && Admitted(Answers(l, key, events), at, now) == l.events + 1
  {
    hide Interval, Slack, Timed, Answers, After, Left, WithoutSweeps, Burst, Admitted, Clock, Capacity;
    LateTokenShows(l, key);
    LateTokenPasses(l, key, now);
    IntervalFits(l);
    var at := 2 + l.window - Interval(l);
    EarlyDropShows(l, key, [Call(key, 1, at)], l.window - Interval(l) + 1, now);
    DropRefills(l, key, [Call(key, 1, at)], now, at);
  }

  lemma LateTokenExceeds(l: Limit, key: string) returns (events: seq<Event>)
    requires Enabled(l) && 0 < Interval(l) <= Slack(l)
    ensures Timed(events, l.window - Interval(l) + 1) && !RateHolds(l, key, events)
  {
    hide Interval, Slack, Timed, Answers, Burst, RateHolds, Admitted, Capacity;
    var now, at := 1 + l.window, 2 + l.window - Interval(l);
    LateTokenCounts(l, key, now);
    events := [Call(key, 1, at)] + [Sweep(now)] + Burst(key, now, l.events);
    Floor(0, Interval(l), Interval(l) - 1);
    RateFails(l, key, events, at, now);
  }

  /** The promised rate is kept in every run, however it is swept, exactly when no call lets more
      than the tolerance pass between its two clock readings. */
  lemma RateHoldsExactly(l: Limit, key: string, gap: nat)
    requires Enabled(l) && Interval(l) > 0
    ensures (forall events :: Timed(events, gap) ==> RateHolds(l, key, events)) <==> gap <= Tolerance(l)
  {
    hide RateHolds, Interval, Timed;
    if gap <= Tolerance(l) {
      forall events | Timed(events, gap)
        ensures RateHolds(l, key, events)
      {
        TimedWidens(events, gap, Tolerance(l));
        ToleratedDropsAreFull(l, key, events);
        RateIsBounded(l, key, events, gap);
      }
    } else if Slack(l) < Interval(l) {
      var events := NearMissExceeds(l, key);
      TimedWidens(events, Slack(l) + 1, gap);
    } else {
      var events := LateTokenExceeds(l, key);
      TimedWidens(events, l.window - Interval(l) + 1, gap);
    }
  }
}
