/** The login lockout: a consecutive-failure counter per account with a window that is armed once. */
module Lockouts {
  import opened Wrappers

  /** Times are nanoseconds; 0 is the zero time, which `lockedUntil` uses for "not armed". */
  datatype Entry = Entry(failures: nat, lockedUntil: nat, lastFailure: nat)

  datatype Policy = Policy(threshold: int, duration: nat)

  function Find(entries: map<string, Entry>, key: string): Option<Entry> {
    if key in entries then Some(entries[key]) else None
  }

  predicate IsLocked(e: Option<Entry>, now: nat) {
    e.Some? && now < e.value.lockedUntil
  }

  predicate Elapsed(e: Entry, now: nat) {
    e.lockedUntil != 0 && now >= e.lockedUntil
  }

  /** One failure. A window that has run out ends the streak, and only the failure that brings the
      count to the threshold arms a window. */
  function Failed(p: Policy, e: Option<Entry>, now: nat): Entry {
    var was := if e.Some? then e.value else Entry(0, 0, 0);
    var streak := if Elapsed(was, now) then was.(failures := 0, lockedUntil := 0) else was;
    Entry(streak.failures + 1,
          if streak.failures + 1 == p.threshold then now + p.duration else streak.lockedUntil,
          now)
  }

  predicate Dropped(p: Policy, e: Entry, now: nat) {
    now >= e.lockedUntil && now - e.lastFailure >= p.duration
  }

  function Kept(p: Policy, e: Option<Entry>, now: nat): Option<Entry> {
    if e.Some? && Dropped(p, e.value, now) then None else e
  }

  class Lockout {
    const policy: Policy
    var entries: map<string, Entry>

    constructor (policy: Policy)
      ensures this.policy == policy && entries == map[]
    {
      this.policy := policy;
      entries := map[];
    }

    method Locked(key: string, now: nat) returns (locked: bool)
      ensures locked == IsLocked(Find(entries, key), now)
    {
      if key !in entries {
        return false;
      }
      locked := now < entries[key].lockedUntil;
    }

    method Fail(key: string, now: nat)
      modifies this
      ensures entries == old(entries)[key := Failed(policy, Find(old(entries), key), now)]
    {
      if key !in entries {
        entries := entries[key := Entry(0, 0, 0)];
      }
      var entry := entries[key];
      if entry.lockedUntil != 0 && !(now < entry.lockedUntil) {
        entry := entry.(failures := 0, lockedUntil := 0);
      }
      entry := entry.(failures := entry.failures + 1);
      entry := entry.(lastFailure := now);
      if entry.failures == policy.threshold {
        entry := entry.(lockedUntil := now + policy.duration);
      }
      entries := entries[key := entry];
    }

    method Reset(key: string)
      modifies this
      ensures entries == old(entries) - {key}
    {
      entries := entries - {key};
    }

    /** The map is walked in an arbitrary order. */
    method Sweep(now: nat)
      modifies this
      ensures forall k :: Find(entries, k) == Kept(policy, Find(old(entries), k), now)
    {
      var todo := entries.Keys;
      while todo != {}
        invariant todo <= entries.Keys <= old(entries).Keys
        invariant forall k :: k in todo ==> entries[k] == old(entries)[k]
        invariant forall k :: k !in todo ==> Find(entries, k) == Kept(policy, Find(old(entries), k), now)
        decreases |todo|
      {
        var key :| key in todo;
        todo := todo - {key};
        var entry := entries[key];
        if now < entry.lockedUntil {
          continue;
        }
        if now - entry.lastFailure >= policy.duration {
          entries := entries - {key};
        }
      }
    }
  }

  /** A threshold of 0 or less gives no lockout at all, and every operation accepts that. */
  method NewLockout(threshold: int, duration: nat) returns (l: Lockout?)
    ensures l == null <==> threshold <= 0
    ensures l != null ==> fresh(l) && l.policy == Policy(threshold, duration) && l.entries == map[]
  {
    if threshold <= 0 {
      return null;
    }
    l := new Lockout(Policy(threshold, duration));
  }

  datatype Event =
    | Fail(key: string, now: nat)
    | Reset(key: string)
    | Sweep(now: nat)

  function Apply(p: Policy, key: string, e: Option<Entry>, event: Event): Option<Entry> {
    match event
    case Fail(k, now) => if k == key then Some(Failed(p, e, now)) else e
    case Reset(k) => if k == key then None else e
    case Sweep(now) => Kept(p, e, now)
  }

  /** What an account's entry is after a run, taking the account alone. */
  function After(p: Policy, key: string, start: Option<Entry>, events: seq<Event>): Option<Entry> {
    if events == [] then start
    else Apply(p, key, After(p, key, start, events[..|events| - 1]), events[|events| - 1])
  }

  function Guessed(key: string, e: Option<Entry>, guesses: seq<nat>, event: Event): seq<nat> {
    match event
    case Fail(k, now) => if k == key && !IsLocked(e, now) then guesses + [now] else guesses
    case Reset(k) => if k == key then [] else guesses
    case Sweep(_) => guesses
  }

  /** The times of the account's failures that found it unlocked, since its last reset. */
  function Guesses(p: Policy, key: string, start: Option<Entry>, events: seq<Event>): seq<nat> {
    if events == [] then []
    else
      var before := events[..|events| - 1];
      Guessed(key, After(p, key, start, before), Guesses(p, key, start, before), events[|events| - 1])
  }

  /** The lockout object does to one account what the fold over the events does, whatever else
      happens to other accounts in between. */
  method Drive(l: Lockout, key: string, events: seq<Event>) returns (guesses: seq<nat>)
    requires l.entries == map[]
    modifies l
    ensures Find(l.entries, key) == After(l.policy, key, None, events)
    ensures guesses == Guesses(l.policy, key, None, events)
  {
    guesses := [];
    for i := 0 to |events|
      invariant Find(l.entries, key) == After(l.policy, key, None, events[..i])
      invariant guesses == Guesses(l.policy, key, None, events[..i])
    {
      assert events[..i + 1][..i] == events[..i];
      match events[i] {
        case Fail(k, now) =>
          var locked := l.Locked(k, now);
          l.Fail(k, now);
          if k == key && !locked {
            guesses := guesses + [now];
          }
        case Reset(k) =>
          l.Reset(k);
          if k == key {
            guesses := [];
          }
        case Sweep(now) =>
          l.Sweep(now);
      }
    }
    assert events[..|events|] == events;
  }

  function At(event: Event, clock: nat): nat {
    if event.Reset? then clock else event.now
  }

  /** A clock that never goes back and has left the zero time behind. */
  ghost predicate Timed(events: seq<Event>, first: nat, last: nat) {
    if events == [] then 0 < first <= last
    else
      var event := events[|events| - 1];
      At(event, last) <= last && Timed(events[..|events| - 1], first, At(event, last))
  }

  ghost predicate Ascending(times: seq<nat>) {
    forall i, j :: 0 <= i < j < |times| ==> times[i] <= times[j]
  }

  /** Every `threshold` guesses are followed by a pause of a whole window. */
  ghost predicate Spaced(p: Policy, times: seq<nat>)
    requires p.threshold > 0
  {
    forall i :: 0 <= i < |times| - p.threshold ==> times[i] + p.duration <= times[i + p.threshold]
  }

  /** What an entry remembers of the guesses so far. */
  ghost predicate Remembers(p: Policy, e: Option<Entry>, guesses: seq<nat>, clock: nat)
    requires p.threshold > 0
  {
    var n := |guesses|;
    if e.None? then
      forall i :: 0 <= i < n ==> guesses[i] + p.duration <= clock
    else
      && n > 0
      && guesses[n - 1] <= e.value.lastFailure <= clock
      && if e.value.lockedUntil != 0 then
           e.value.failures >= p.threshold && e.value.lockedUntil == guesses[n - 1] + p.duration
         else
           && 0 < e.value.failures < p.threshold
           && e.value.failures <= n
           && forall i :: 0 <= i < n - e.value.failures ==>
                guesses[i] + p.duration <= guesses[n - e.value.failures]
  }

  ghost predicate Inv(p: Policy, e: Option<Entry>, guesses: seq<nat>, clock: nat)
    requires p.threshold > 0
  {
    && Ascending(guesses)
    && (forall i :: 0 <= i < |guesses| ==> guesses[i] <= clock)
    && Spaced(p, guesses)
    && Remembers(p, e, guesses, clock)
  }

  lemma FailKeepsInv(p: Policy, e: Option<Entry>, guesses: seq<nat>, clock: nat, now: nat)
    requires p.threshold > 0 && Inv(p, e, guesses, clock) && 0 < clock <= now
    ensures Inv(p, Some(Failed(p, e, now)), if IsLocked(e, now) then guesses else guesses + [now], now)
  {
  }

  lemma SweepKeepsInv(p: Policy, e: Option<Entry>, guesses: seq<nat>, clock: nat, now: nat)
    requires p.threshold > 0 && Inv(p, e, guesses, clock) && clock <= now
    ensures Inv(p, Kept(p, e, now), guesses, now)
  {
  }

  lemma TimeKeepsInv(p: Policy, e: Option<Entry>, guesses: seq<nat>, clock: nat, now: nat)
    requires p.threshold > 0 && Inv(p, e, guesses, clock) && clock <= now
    ensures Inv(p, e, guesses, now)
  {
  }

  lemma ResetKeepsInv(p: Policy, clock: nat)
    requires p.threshold > 0
    ensures Inv(p, None, [], clock)
  {
  }

  lemma ApplyKeepsInv(p: Policy, key: string, e: Option<Entry>, guesses: seq<nat>, clock: nat, event: Event)
    requires p.threshold > 0 && Inv(p, e, guesses, clock) && 0 < clock <= At(event, clock)
    ensures Inv(p, Apply(p, key, e, event), Guessed(key, e, guesses, event), At(event, clock))
  {
    hide Inv;
    match event {
      case Fail(k, now) =>
        if k == key {
          FailKeepsInv(p, e, guesses, clock, now);
        } else {
          TimeKeepsInv(p, e, guesses, clock, now);
        }
      case Reset(k) =>
        ResetKeepsInv(p, clock);
      case Sweep(now) =>
        SweepKeepsInv(p, e, guesses, clock, now);
    }
  }

  lemma {:induction false} RunKeepsInv(p: Policy, key: string, events: seq<Event>, first: nat, last: nat)
    requires p.threshold > 0 && Timed(events, first, last)
    ensures 0 < first <= last
    ensures Inv(p, After(p, key, None, events), Guesses(p, key, None, events), last)
  {
    if events != [] {
      hide Inv;
      var before, event := events[..|events| - 1], events[|events| - 1];
      var clock := At(event, last);
      RunKeepsInv(p, key, before, first, clock);
      ApplyKeepsInv(p, key, After(p, key, None, before), Guesses(p, key, None, before), clock, event);
      TimeKeepsInv(p, After(p, key, None, events), Guesses(p, key, None, events), clock, last);
    }
  }

  /** How many of the times lie in the half-open interval. */
  function CountIn(times: seq<nat>, from: nat, to: nat): nat {
    if times == [] then 0
    else
      CountIn(times[..|times| - 1], from, to) + (if from <= times[|times| - 1] < to then 1 else 0)
  }

  lemma {:induction false} CountSplit(times: seq<nat>, k: nat, from: nat, to: nat)
    requires k <= |times|
    ensures CountIn(times, from, to) <= CountIn(times[..k], from, to) + |times| - k
  {
    if k == |times| {
      assert times[..k] == times;
    } else {
      assert times[..|times| - 1][..k] == times[..k];
      CountSplit(times[..|times| - 1], k, from, to);
    }
  }

  lemma {:induction false} NoneBefore(times: seq<nat>, from: nat, to: nat)
    requires forall i :: 0 <= i < |times| ==> times[i] < from
    ensures CountIn(times, from, to) == 0
  {
    if times != [] {
      NoneBefore(times[..|times| - 1], from, to);
    }
  }

  /** Within a window's length before the last guess there are at most `threshold` of them. */
  lemma LastCount(p: Policy, times: seq<nat>, from: nat)
    requires p.threshold > 0 && Ascending(times) && Spaced(p, times) && |times| > p.threshold
    requires from <= times[|times| - 1] < from + p.duration
    ensures CountIn(times, from, from + p.duration) <= p.threshold
  {
    hide CountIn;
    var to, k := from + p.duration, |times| - p.threshold;
    assert times[k - 1] + p.duration <= times[k - 1 + p.threshold];
    NoneBefore(times[..k], from, to);
    CountSplit(times, k, from, to);
  }

  lemma {:induction false} SpacedCount(p: Policy, times: seq<nat>, from: nat)
    requires p.threshold > 0 && Ascending(times) && Spaced(p, times)
    ensures CountIn(times, from, from + p.duration) <= p.threshold
  {
    var n := |times|;
    if n <= p.threshold {
      CountSplit(times, 0, from, from + p.duration);
    } else if from <= times[n - 1] < from + p.duration {
      LastCount(p, times, from);
    } else {
      var init := times[..n - 1];
      assert forall i :: 0 <= i < |init| ==> init[i] == times[i];
      assert Spaced(p, init);
      hide Spaced, Ascending;
      SpacedCount(p, init, from);
    }
  }

  /** The lockout's bound: whatever the failures and sweeps, any half-open interval as long as the
      window holds at most `threshold` failures that found the account unlocked. */
  lemma GuessesAreBounded(p: Policy, key: string, events: seq<Event>, first: nat, last: nat, from: nat)
    requires p.threshold > 0 && Timed(events, first, last)
    ensures CountIn(Guesses(p, key, None, events), from, from + p.duration) <= p.threshold
  {
    RunKeepsInv(p, key, events, first, last);
    SpacedCount(p, Guesses(p, key, None, events), from);
  }

  /** The window of an armed account is still the one that ends at `end`, or it has been left
      behind and the failures counted since then are all among the guesses made since. */
  ghost predicate Since(p: Policy, end: nat, e: Option<Entry>, guesses: seq<nat>, clock: nat) {
    if e.Some? && e.value.lockedUntil == end && guesses == [] then
      e.value.failures >= p.threshold
    else
      && end <= clock
      && (forall t :: t in guesses ==> end <= t)
      && (e.Some? && |guesses| < p.threshold ==>
            e.value.lockedUntil == 0 && e.value.failures <= |guesses|)
  }

  predicate NoReset(key: string, events: seq<Event>) {
    Event.Reset(key) !in events
  }

  lemma ApplyKeepsSince(p: Policy, key: string, end: nat, e: Option<Entry>, guesses: seq<nat>, clock: nat, event: Event)
    requires p.threshold > 0 && 0 < end && 0 < clock <= At(event, clock)
    requires Since(p, end, e, guesses, clock) && event != Event.Reset(key)
    ensures Since(p, end, Apply(p, key, e, event), Guessed(key, e, guesses, event), At(event, clock))
  {
  }

  lemma {:induction false} RunKeepsSince(p: Policy, key: string, end: nat, start: Option<Entry>,
                                         events: seq<Event>, first: nat, last: nat)
    requires p.threshold > 0 && 0 < end && Timed(events, first, last) && NoReset(key, events)
    requires Since(p, end, start, [], first)
    ensures 0 < first <= last
    ensures Since(p, end, After(p, key, start, events), Guesses(p, key, start, events), last)
  {
    if events != [] {
      var before, event := events[..|events| - 1], events[|events| - 1];
      RunKeepsSince(p, key, end, start, before, first, At(event, last));
      var e, guesses := After(p, key, start, before), Guesses(p, key, start, before);
      ApplyKeepsSince(p, key, end, e, guesses, At(event, last), event);
    }
  }

  /** An armed window stands until its end, and a window with another end takes at least
      `threshold` guesses, every one of them at or after the end of the first. */
  lemma ArmedWindowStands(p: Policy, key: string, events: seq<Event>, first: nat, mid: nat, more: seq<Event>, last: nat)
    requires p.threshold > 0 && Timed(events, first, mid) && Timed(more, mid, last) && NoReset(key, more)
    requires var e := After(p, key, None, events); e.Some? && e.value.lockedUntil != 0
    ensures var start := After(p, key, None, events);
            var end, e := start.value.lockedUntil, After(p, key, start, more);
            && (last < end ==> e.Some? && e.value.lockedUntil == end)
            && (e.Some? && e.value.lockedUntil !in {0, end} ==>
                  && |Guesses(p, key, start, more)| >= p.threshold
                  && forall t :: t in Guesses(p, key, start, more) ==> end <= t)
  {
    var start := After(p, key, None, events);
    RunKeepsInv(p, key, events, first, mid);
    RunKeepsSince(p, key, start.value.lockedUntil, start, more, mid, last);
  }

  function Failures(key: string, events: seq<Event>): seq<nat> {
    if events == [] then []
    else
      var event := events[|events| - 1];
      Failures(key, events[..|events| - 1]) + (if event.Fail? && event.key == key then [event.now] else [])
  }

  /** An entry carries the time of the account's last failure, and its window ends at most a window
      later. */
  ghost predicate Dated(p: Policy, e: Option<Entry>, times: seq<nat>) {
    e.Some? ==>
      && times != []
      && e.value.lastFailure == times[|times| - 1]
      && e.value.lockedUntil <= e.value.lastFailure + p.duration
  }

  lemma ApplyKeepsDated(p: Policy, key: string, e: Option<Entry>, times: seq<nat>, event: Event)
    requires Dated(p, e, times)
    requires event.Fail? && times != [] ==> times[|times| - 1] <= event.now
    ensures Dated(p, Apply(p, key, e, event), times + if event.Fail? && event.key == key then [event.now] else [])
  {
  }

  lemma {:induction false} FailuresInTime(key: string, events: seq<Event>, first: nat, last: nat)
    requires Timed(events, first, last)
    ensures first <= last
    ensures forall t :: t in Failures(key, events) ==> first <= t <= last
  {
    if events != [] {
      FailuresInTime(key, events[..|events| - 1], first, At(events[|events| - 1], last));
    }
  }

  lemma {:induction false} RunIsDated(p: Policy, key: string, events: seq<Event>, first: nat, last: nat)
    requires Timed(events, first, last)
    ensures Dated(p, After(p, key, None, events), Failures(key, events))
  {
    if events != [] {
      hide Apply, Dated;
      var before, event := events[..|events| - 1], events[|events| - 1];
      RunIsDated(p, key, before, first, At(event, last));
      FailuresInTime(key, before, first, At(event, last));
      var times := Failures(key, before);
      assert times != [] ==> times[|times| - 1] in times;
      ApplyKeepsDated(p, key, After(p, key, None, before), times, event);
      assert times + [] == times;
    } else {
      assert After(p, key, None, events) == None;
    }
  }

  /** A sweep forgets an account exactly when its last failure is at least a window ago. */
  lemma SweepForgetsExactly(p: Policy, key: string, events: seq<Event>, first: nat, last: nat, now: nat)
    requires Timed(events, first, last) && last <= now && After(p, key, None, events).Some?
    ensures var times, swept := Failures(key, events), After(p, key, None, events + [Event.Sweep(now)]);
            && times != []
            && (swept == None <==> times[|times| - 1] + p.duration <= now)
            && (swept.Some? ==> swept == After(p, key, None, events))
  {
    RunIsDated(p, key, events, first, last);
    FailuresInTime(key, events, first, last);
    assert (events + [Event.Sweep(now)])[..|events|] == events;
  }

  /** Each failure comes less than a window after the one before, and the run ends less than a
      window after the last. */
  ghost predicate Burst(p: Policy, times: seq<nat>, last: nat) {
    && (forall i :: 0 < i < |times| ==> times[i] < times[i - 1] + p.duration)
    && (times != [] ==> last < times[|times| - 1] + p.duration)
  }

  /** The entry that a burst of failures from a fresh account should leave. */
  function Streak(p: Policy, times: seq<nat>): Option<Entry> {
    if times == [] then None
    else
      var latest := times[|times| - 1];
      Some(Entry(|times|, if |times| == p.threshold then latest + p.duration else 0, latest))
  }

  lemma BurstPrefix(p: Policy, times: seq<nat>, now: nat, last: nat)
    requires Burst(p, times + [now], last)
    ensures Burst(p, times, now)
  {
    var all := times + [now];
    assert forall i :: 0 <= i < |times| ==> all[i] == times[i];
    if times != [] {
      assert all[|times|] < all[|times| - 1] + p.duration;
    }
  }

  lemma ApplyExtendsStreak(p: Policy, key: string, times: seq<nat>, event: Event)
    requires p.threshold > 0 && |times| <= p.threshold && event != Event.Reset(key)
    requires event.Sweep? && times != [] ==> event.now < times[|times| - 1] + p.duration
    requires event.Fail? && event.key == key ==> |times| < p.threshold
    ensures Apply(p, key, Streak(p, times), event) ==
            Streak(p, times + if event.Fail? && event.key == key then [event.now] else [])
  {
  }

  /** The lockout does lock, and no earlier: a burst of failures from a fresh account, whatever
      sweeps and other accounts' calls come in between, arms the window at the failure that makes
      `threshold` of them, and a shorter burst leaves the account open. */
  lemma {:induction false} BurstLocksAtThreshold(p: Policy, key: string, events: seq<Event>, first: nat, last: nat)
    requires p.threshold > 0 && Timed(events, first, last) && NoReset(key, events)
    requires |Failures(key, events)| <= p.threshold && Burst(p, Failures(key, events), last)
    ensures After(p, key, None, events) == Streak(p, Failures(key, events))
  {
    if events != [] {
      hide Apply, Streak;
      var before, event := events[..|events| - 1], events[|events| - 1];
      if event.Fail? && event.key == key {
        BurstPrefix(p, Failures(key, before), event.now, last);
      } else {
        assert Failures(key, events) == Failures(key, before);
      }
      BurstLocksAtThreshold(p, key, before, first, At(event, last));
      ApplyExtendsStreak(p, key, Failures(key, before), event);
    } else {
      assert Failures(key, events) == [];
    }
  }

  /** What the callers see of a burst: the account is locked exactly once `threshold` failures have been
      counted, and exactly until a window has passed since the last of them. */
  lemma BurstLocksExactly(p: Policy, key: string, events: seq<Event>, first: nat, last: nat, now: nat)
    requires p.threshold > 0 && Timed(events, first, last) && NoReset(key, events) && last <= now
    requires |Failures(key, events)| <= p.threshold && Burst(p, Failures(key, events), last)
    ensures var times := Failures(key, events);
            IsLocked(After(p, key, None, events), now) <==>
            |times| == p.threshold && now < times[|times| - 1] + p.duration
  {
    BurstLocksAtThreshold(p, key, events, first, last);
    if |Failures(key, events)| == p.threshold {
      FailuresInTime(key, events, first, last);
    }
  }

  /** No later events tell the two entries apart by whether the account is locked. */
  ghost predicate SameToCallers(p: Policy, key: string, a: Option<Entry>, b: Option<Entry>, from: nat) {
    forall events, last: nat, now: nat :: Timed(events, from, last) && last <= now ==>
      (IsLocked(After(p, key, a, events), now) <==> IsLocked(After(p, key, b, events), now))
  }

  /** An entry whose window has run out behaves like none. */
  ghost predicate Alike(a: Option<Entry>, b: Option<Entry>, clock: nat) {
    a == b || (b == None && a.Some? && Elapsed(a.value, clock))
  }

  lemma {:induction false} AlikeStay(p: Policy, key: string, a: Option<Entry>, b: Option<Entry>,
                                     events: seq<Event>, from: nat, last: nat)
    requires Alike(a, b, from) && Timed(events, from, last)
    ensures from <= last
    ensures Alike(After(p, key, a, events), After(p, key, b, events), last)
  {
    if events != [] {
      var event := events[|events| - 1];
      AlikeStay(p, key, a, b, events[..|events| - 1], from, At(event, last));
    }
  }

  function Repeated(key: string, now: nat, n: nat): seq<Event> {
    seq(n, _ => Event.Fail(key, now))
  }

  lemma {:induction false} RepeatedFailuresCount(p: Policy, key: string, e: Option<Entry>, now: nat, n: nat)
    requires p.threshold > 0 && 0 < now && n > 0
    requires e.Some? ==> e.value.lockedUntil == 0
    requires (if e.Some? then e.value.failures else 0) + n <= p.threshold
    ensures Timed(Repeated(key, now, n), now, now)
    ensures var k := (if e.Some? then e.value.failures else 0) + n;
            After(p, key, e, Repeated(key, now, n)) ==
            Some(Entry(k, if k == p.threshold then now + p.duration else 0, now))
  {
    var events := Repeated(key, now, n);
    assert events[..n - 1] == Repeated(key, now, n - 1);
    if n > 1 {
      RepeatedFailuresCount(p, key, e, now, n - 1);
    }
  }

  /** A sweep forgets. What it drops is missed by the callers exactly when it is a streak of
      failures that has not locked the account; a window that has run out is not missed. */
  lemma DropShowsExactly(p: Policy, key: string, e: Entry, now: nat)
    requires p.threshold > 0 && p.duration > 0 && 0 < now && Dropped(p, e, now)
    requires if e.lockedUntil == 0 then 0 < e.failures < p.threshold else e.failures >= p.threshold
    ensures SameToCallers(p, key, Some(e), None, now) <==> e.lockedUntil != 0
  {
    if e.lockedUntil != 0 {
      forall events, last: nat, later: nat | Timed(events, now, last) && last <= later
        ensures IsLocked(After(p, key, Some(e), events), later) <==> IsLocked(After(p, key, None, events), later)
      {
        AlikeStay(p, key, Some(e), None, events, now, last);
      }
    } else {
      var n := p.threshold - e.failures;
      RepeatedFailuresCount(p, key, Some(e), now, n);
      RepeatedFailuresCount(p, key, None, now, n);
      var events := Repeated(key, now, n);
      assert IsLocked(After(p, key, Some(e), events), now) && !IsLocked(After(p, key, None, events), now);
    }
  }
}
