/** The cap on live client registrations over whole runs. */
module RegistrationCap {
  import opened Wrappers
  import opened Records
  import opened StoreSpec
  import R = StoreRuns

  datatype Sys = Sys(store: Store, clock: nat, touches: set<R.TouchJob>)

  /** A touch reads in one transaction and writes in another. */
  datatype Step =
    | Wait(until: nat)
    | RegisterClient(client: Client)
    | FindClient(id: string)
    | TouchRead(id: string)
    | TouchWrite(touch: R.TouchJob, expiresAt: nat)
    | SweepClients
    | RevokeScope(scope: Scope)
    | SweepSessions(cutoffs: Cutoffs)

  ghost predicate Next(max: nat, s: Sys, step: Step, s': Sys) {
    match step
    case Wait(until) => s.clock <= until && s' == s.(clock := until)
    case RegisterClient(client) => s' == s.(store := Register(s.store, client, max, s.clock).0)
    case FindClient(id) => Lookup(s.store, id, s.clock).Ok? && s' == s
    case TouchRead(id) =>
      var found := Fetch(s.store, Key(ClientKind, id));
      found.Ok? && s' == s.(touches := s.touches + {R.TouchJob(id, found.value.client)})
    case TouchWrite(touch, expiresAt) =>
      && touch in s.touches
      && s' == s.(store := R.Touched(s.store, touch, expiresAt), touches := s.touches - {touch})
    case SweepClients => s' == s.(store := ExpireClients(s.store, s.clock))
    case RevokeScope(scope) => s' == s.(store := Revoke(s.store, scope).0)
    case SweepSessions(cutoffs) => s' == s.(store := ExpireSessions(s.store, cutoffs))
  }

  predicate WithinCap(max: nat, s: Sys) {
    |LiveClients(s.store, s.clock)| <= max
  }

  /** A stored registration that no longer counts: expired, or not decodable. */
  predicate Dormant(store: Store, id: string, now: nat) {
    var k := Key(ClientKind, id);
    k in store && k !in LiveClients(store, now)
  }

  lemma SubsetCount(a: set<Key>, b: set<Key>)
    requires a <= b
    ensures |a| <= |b|
  {
    assert b == a + (b - a);
  }

  lemma LiveAfterPut(store: Store, client: Client, now: nat)
    ensures var k := Key(ClientKind, client.id);
            var live, live' := LiveClients(store, now), LiveClients(store[k := Registration(client)], now);
            |live'| == |live - {k}| + if Unexpired(client, now) then 1 else 0
  {
    var k := Key(ClientKind, client.id);
    var live, live' := LiveClients(store, now), LiveClients(store[k := Registration(client)], now);
    if Unexpired(client, now) {
      assert live' == (live - {k}) + {k};
    } else {
      assert live' == live - {k};
    }
  }

  /** A registration that reaches past the cap is one that revives a dormant ID while the cap is
      full, and nothing else; the count in the transaction stops every other one. */
  lemma RegisterExceedsExactly(max: nat, s: Sys, client: Client)
    requires max > 0 && WithinCap(max, s)
    ensures !WithinCap(max, s.(store := Register(s.store, client, max, s.clock).0)) <==>
            Dormant(s.store, client.id, s.clock) && Unexpired(client, s.clock) && |LiveClients(s.store, s.clock)| == max
  {
    var k := Key(ClientKind, client.id);
    var live := LiveClients(s.store, s.clock);
    LiveAfterPut(s.store, client, s.clock);
    if k in live {
      assert |live - {k}| == |live| - 1;
    } else {
      assert live - {k} == live;
    }
  }

  /** A new ID refused now is refused later exactly as long as the cap was full and none of the live
      registrations has expired since: expiry makes room without any sweep. */
  lemma RefusalsLastExactly(max: nat, s: Sys, client: Client, later: nat)
    requires max > 0 && WithinCap(max, s) && s.clock <= later && Key(ClientKind, client.id) !in s.store
    ensures Register(s.store, client, max, later) == (s.store, Err(CapReached)) <==>
            && |LiveClients(s.store, s.clock)| == max
            && forall k | k in LiveClients(s.store, s.clock) :: Unexpired(s.store[k].client, later)
  {
    var live, live' := LiveClients(s.store, s.clock), LiveClients(s.store, later);
    assert live' <= live;
    SubsetCount(live', live);
    if live' != live {
      var k :| k in live && k !in live';
      SubsetCount(live', live - {k});
    }
  }

  /** A touch reaches past the cap exactly when, between its read and its write or before both, the
      registration has expired and its place has been taken. */
  lemma TouchExceedsExactly(max: nat, s: Sys, touch: R.TouchJob, expiresAt: nat)
    requires WithinCap(max, s) && touch.client.id == touch.id
    ensures !WithinCap(max, s.(store := R.Touched(s.store, touch, expiresAt))) <==>
            && touch.client.expiresAt != 0
            && Dormant(s.store, touch.id, s.clock)
            && (expiresAt == 0 || expiresAt > s.clock)
            && |LiveClients(s.store, s.clock)| == max
  {
    var k := Key(ClientKind, touch.id);
    if k in s.store && touch.client.expiresAt != 0 {
      var live := LiveClients(s.store, s.clock);
      LiveAfterPut(s.store, touch.client.(expiresAt := expiresAt), s.clock);
      if k in live {
        assert |live - {k}| == |live| - 1;
      } else {
        assert live - {k} == live;
      }
    }
  }

  predicate Inv(s: Sys) {
    IdsMatch(s.store) && forall touch | touch in s.touches :: touch.client.id == touch.id
  }

  /** The steps that write over a registration which no longer counts. */
  predicate Revives(s: Sys, step: Step) {
    match step
    case RegisterClient(client) => Dormant(s.store, client.id, s.clock)
    case TouchWrite(touch, _) => Dormant(s.store, touch.id, s.clock)
    case _ => false
  }

  lemma StepKeepsInv(max: nat, s: Sys, step: Step, s': Sys)
    requires Next(max, s, step, s') && Inv(s)
    ensures Inv(s')
  {
    hide Revoke, ExpireSessions, LiveClients;
    if step.RevokeScope? {
      RevokeIsExact(s.store, step.scope);
    } else if step.SweepSessions? {
      assert forall k | k in ExpireSessions(s.store, step.cutoffs) :: k in s.store by {
        SweepKeeps(s.store, step.cutoffs);
      }
      SweepKeeps(s.store, step.cutoffs);
    }
  }

  lemma SweepKeeps(store: Store, c: Cutoffs)
    ensures forall k | k in ExpireSessions(store, c) :: k in store && ExpireSessions(store, c)[k] == store[k]
  {
  }

  lemma StepKeepsCap(max: nat, s: Sys, step: Step, s': Sys)
    requires max > 0 && Next(max, s, step, s') && !Revives(s, step) && WithinCap(max, s) && Inv(s)
    ensures WithinCap(max, s')
  {
    match step
    case RegisterClient(client) => RegisterExceedsExactly(max, s, client);
    case TouchWrite(touch, expiresAt) => TouchExceedsExactly(max, s, touch, expiresAt);
    case _ => SubsetCount(LiveClients(s'.store, s'.clock), LiveClients(s.store, s.clock));
  }

  ghost predicate Run(max: nat, states: seq<Sys>, steps: seq<Step>) {
    && |states| == |steps| + 1
    && states[0].store == map[] && states[0].touches == {}
    && forall n | 0 <= n < |steps| :: Next(max, states[n], steps[n], states[n + 1])
  }

  /** Over every run from an empty store that revives no dormant ID, the live registrations never
      exceed the cap. */
  lemma {:induction false} CapHolds(max: nat, states: seq<Sys>, steps: seq<Step>, i: nat)
    requires max > 0 && Run(max, states, steps) && i < |states|
    requires forall n | 0 <= n < i :: !Revives(states[n], steps[n])
    ensures WithinCap(max, states[i]) && Inv(states[i])
  {
    if i > 0 {
      CapHolds(max, states, steps, i - 1);
      StepKeepsInv(max, states[i - 1], steps[i - 1], states[i]);
      StepKeepsCap(max, states[i - 1], steps[i - 1], states[i]);
    } else {
      assert LiveClients(map[], states[0].clock) == {};
    }
  }

  // -- The revivals can happen ----------------------------------------------------------------

  /** A registration with an expiry; everything else about it is the same. */
  function Expiring(client: Client, expiresAt: nat): Client {
    client.(expiresAt := expiresAt)
  }

  lemma LiveOf(store: Store, clock: nat, a: Client, b: Client)
    requires a.id != b.id
    requires store == map[Key(ClientKind, a.id) := Registration(a), Key(ClientKind, b.id) := Registration(b)]
    requires Unexpired(a, clock) && Unexpired(b, clock)
    ensures |LiveClients(store, clock)| == 2
  {
    assert LiveClients(store, clock) == {Key(ClientKind, a.id), Key(ClientKind, b.id)};
  }

  /** At a cap of one, `b` takes the place of `a`, whose registration expired at time 10. */
  function Crowded(a: Client, b: Client): Store {
    map[Key(ClientKind, a.id) := Registration(a), Key(ClientKind, b.id) := Registration(b)]
  }

  lemma PlaceIsTaken(a: Client, b: Client) returns (states: seq<Sys>, steps: seq<Step>)
    requires a.id != b.id && b.expiresAt == 0
    ensures Run(1, states, steps) && |steps| == 4
    ensures steps == [RegisterClient(Expiring(a, 10)), FindClient(a.id), Wait(20), RegisterClient(b)]
    ensures states[4] == Sys(Crowded(Expiring(a, 10), b), 20, {})
  {
    var brief := Expiring(a, 10);
    var s0 := Sys(map[], 5, {});
    var s1 := s0.(store := map[Key(ClientKind, a.id) := Registration(brief)]);
    var s3 := s1.(clock := 20);
    states := [s0, s1, s1, s3, s3.(store := Crowded(brief, b))];
    steps := [RegisterClient(brief), FindClient(a.id), Wait(20), RegisterClient(b)];
    assert LiveClients(s0.store, 5) == {} && LiveClients(s3.store, 20) == {};
    assert Next(1, s0, steps[0], states[1]) && Next(1, s1, steps[1], states[2]);
    assert Next(1, s1, steps[2], states[3]) && Next(1, s3, steps[3], states[4]);
  }

  lemma RunExtends(max: nat, states: seq<Sys>, steps: seq<Step>, step: Step, s': Sys)
    requires Run(max, states, steps) && Next(max, states[|steps|], step, s')
    ensures Run(max, states + [s'], steps + [step])
  {
  }

  lemma TouchRevives(a: Client, b: Client)
    requires a.id != b.id
    ensures var job := R.TouchJob(a.id, Expiring(a, 10));
            var s := Sys(Crowded(Expiring(a, 10), b), 20, {});
            && Next(1, s, TouchRead(a.id), s.(touches := {job}))
            && Next(1, s.(touches := {job}), TouchWrite(job, 100), Sys(Crowded(Expiring(a, 100), b), 20, {}))
  {
  }

  /** A registration is looked up for a token request, expires, its place is taken, and the touch that
      follows the token revives it past the cap. */
  lemma TouchExceeds(a: Client, b: Client) returns (states: seq<Sys>, steps: seq<Step>)
    requires a.id != b.id && b.expiresAt == 0
    ensures Run(1, states, steps) && |steps| == 6 && !WithinCap(1, states[6])
    ensures steps[1] == FindClient(a.id) && steps[4] == TouchRead(a.id) && steps[5].TouchWrite?
  {
    states, steps := PlaceIsTaken(a, b);
    TouchRevives(a, b);
    LiveOf(Crowded(Expiring(a, 100), b), 20, Expiring(a, 100), b);
    hide Next, Crowded, LiveClients;
    var job := R.TouchJob(a.id, Expiring(a, 10));
    var s5 := states[4].(touches := {job});
    var s6 := Sys(Crowded(Expiring(a, 100), b), 20, {});
    RunExtends(1, states, steps, TouchRead(a.id), s5);
    RunExtends(1, states + [s5], steps + [TouchRead(a.id)], TouchWrite(job, 100), s6);
    states, steps := states + [s5] + [s6], steps + [TouchRead(a.id)] + [TouchWrite(job, 100)];
  }

  /** So does a second registration of an expired ID, for a caller that may choose the ID. */
  lemma RegisterExceeds(a: Client, b: Client) returns (states: seq<Sys>, steps: seq<Step>)
    requires a.id != b.id && b.expiresAt == 0
    ensures Run(1, states, steps) && |steps| == 5 && !WithinCap(1, states[5])
    ensures steps[0] == RegisterClient(Expiring(a, 10)) && steps[4] == RegisterClient(Expiring(a, 100))
  {
    states, steps := PlaceIsTaken(a, b);
    LiveOf(Crowded(Expiring(a, 100), b), 20, Expiring(a, 100), b);
    hide LiveClients;
    var s' := Sys(Crowded(Expiring(a, 100), b), 20, {});
    assert Next(1, states[4], RegisterClient(Expiring(a, 100)), s');
    hide Next, Crowded;
    RunExtends(1, states, steps, RegisterClient(Expiring(a, 100)), s');
    states, steps := states + [s'], steps + [RegisterClient(Expiring(a, 100))];
  }
}
