/** Whole runs of one key directory: signing, rotation, sweeping, failed writes, crashes, restarts
    and KEY_ALG changes, and what every outstanding token may rely on across them. */
module KeyRuns {
  import opened Wrappers
  import opened KeyDirectory
  import opened KeyManager

  /** How long rotated-out keys verify, and what the tokens and clocks look like. */
  datatype Params = Params(ttl: nat, skew: nat, window: nat)

  function RetireWindow(ttl: nat, skew: nat): nat {
    ttl + 2 * skew
  }

  datatype Token = Token(key: SigningKey, issuedAt: nat, expiresAt: nat)

  datatype Sys = Sys(
    disk: Disk,
    legacy: Option<Pem>,
    /** None while no process is running. */
    memory: Option<KeySet>,
    alg: Alg,
    clock: nat,
    lastSignature: nat,
    /** Keys read by signatures that have not finished. */
    signers: set<SigningKey>,
    tokens: set<Token>,
    usedKids: set<string>)

  datatype Call = RotateCall(newKey: PrivateKey) | SweepCall
  datatype Outcome = Done | Failed | Died

  datatype Step =
    | Wait(until: nat)
    | Snapshot
    | Sign(token: Token)
    | Save(call: Call, now: nat, outcome: Outcome, disk: Disk)
    | Stop
    | Restart(alg: Alg, now: nat)
    | FirstStart(alg: Alg, now: nat, generated: PrivateKey, outcome: Outcome, disk: Disk)

  function After(ks: KeySet, call: Call, alg: Alg, window: nat, now: nat): KeySet {
    match call
    case RotateCall(newKey) => Rotated(ks, newKey, alg, window, now)
    case SweepCall => Swept(ks, now)
  }

  function KidsOf(call: Call): set<string> {
    match call
    case RotateCall(newKey) => {newKey.fingerprint}
    case SweepCall => {}
  }

  /** A rotation may carry a `now` that is behind the last signature, but by no more than the
      clock skew; keys it generates have never been used. */
  ghost predicate MayCall(p: Params, s: Sys, call: Call, now: nat) {
    && now <= s.clock
    && (call.RotateCall? ==>
          && s.lastSignature <= now + p.skew
          && AlgForKey(call.newKey) == Some(s.alg)
          && call.newKey.fingerprint !in s.usedKids)
  }

  /** A signature may finish after its key was rotated out, within the same lag. */
  ghost predicate MaySign(p: Params, s: Sys, token: Token) {
    && s.memory.Some?
    && token.key in s.signers
    && token.issuedAt == s.clock
    && token.expiresAt <= s.clock + p.ttl
    && (|| token.key == s.memory.value.active
        || exists r :: r in s.memory.value.retiring && r.signing == token.key
                       && s.clock + p.window <= r.notAfter + p.skew)
  }

  ghost predicate Next(p: Params, s: Sys, step: Step, s': Sys) {
    match step
    case Wait(until) =>
      s.clock <= until && s' == s.(clock := until)
    case Snapshot =>
      s.memory.Some? && s' == s.(signers := s.signers + {s.memory.value.active})
    case Sign(token) =>
      MaySign(p, s, token) && s' == s.(tokens := s.tokens + {token}, lastSignature := s.clock)
    case Save(call, now, outcome, d) =>
      && s.memory.Some?
      && MayCall(p, s, call, now)
      && d.files.Keys <= s.disk.files.Keys + KidsOf(call)
      && var ks := s.memory.value;
         var ks' := After(ks, call, s.alg, p.window, now);
         && (match outcome
             case Done => Home(d, ks') && s'.memory == Some(ks') && s'.signers == s.signers
             case Failed => Home(d, ks) && s'.memory == Some(ks) && s'.signers == s.signers
             case Died => (Home(d, ks) || Home(d, ks')) && s'.memory == None && s'.signers == {})
         && s' == s.(disk := d, memory := s'.memory, signers := s'.signers, usedKids := s.usedKids + KidsOf(call))
    case Stop =>
      s' == s.(memory := None, signers := {})
    case Restart(alg, now) =>
      && s.memory.None?
      && s.disk.manifest.Some?
      && now <= s.clock
      && Load(s.disk, now).Ok?
      && s' == s.(memory := Some(Load(s.disk, now).value), alg := alg)
    case FirstStart(alg, now, generated, outcome, d) =>
      && s.memory.None?
      && s.disk.manifest.None?
      && now <= s.clock
      && AlgForKey(generated) == Some(alg)
      && generated.fingerprint !in s.usedKids
      && var first := FirstKey(s.legacy, Some(generated));
         && first.Some?
         && d.files.Keys <= s.disk.files.Keys + {first.value.fingerprint}
         && (if outcome.Done? then Home(d, FirstSet(first.value, now)) && s'.memory == Some(FirstSet(first.value, now))
             else (d.manifest.None? || (outcome.Died? && Home(d, FirstSet(first.value, now)))) && s'.memory == None)
         && s' == s.(disk := d, memory := s'.memory, alg := alg,
                     usedKids := s.usedKids + {generated.fingerprint, first.value.fingerprint})
  }

  /** Before the first start: no manifest; tokens in circulation were signed by the legacy key. */
  ghost predicate Init(p: Params, s: Sys) {
    && s.memory.None? && s.disk.manifest.None? && s.signers == {}
    && s.disk.files.Keys <= s.usedKids
    && s.lastSignature <= s.clock
    && (s.legacy.Some? && s.legacy.value.KeyPem? ==> s.legacy.value.key.fingerprint in s.usedKids)
    && forall tok | tok in s.tokens :: Dated(p, s, tok) && SignedByLegacy(s, tok)
  }

  ghost predicate Dated(p: Params, s: Sys, tok: Token) {
    tok.expiresAt <= tok.issuedAt + p.ttl && tok.issuedAt <= s.lastSignature
  }

  ghost predicate SignedByLegacy(s: Sys, tok: Token) {
    s.legacy.Some? && ParsePem(s.legacy.value) == Some(tok.key.key) && WellMade(tok.key)
  }

  /** `states` is a run: it starts in `Init` and each state follows from the one before. */
  ghost predicate Run(p: Params, states: seq<Sys>, steps: seq<Step>) {
    && |states| == |steps| + 1
    && Init(p, states[0])
    && forall i | 0 <= i < |steps| :: Next(p, states[i], steps[i], states[i + 1])
  }

  // -- The invariant -----------------------------------------------------------

  /** The set a process has, or the one the next process will load. */
  ghost function DurableKeys(s: Sys): Option<KeySet> {
    if s.memory.Some? then s.memory
    else if s.disk.manifest.Some? && Load(s.disk, 0).Ok? then Some(Load(s.disk, 0).value)
    else None
  }

  ghost predicate Live(p: Params, s: Sys, tok: Token) {
    s.clock < tok.expiresAt + p.skew
  }

  ghost predicate Held(p: Params, ks: KeySet, tok: Token) {
    || tok.key == ks.active
    || exists r :: r in ks.retiring && r.signing == tok.key && tok.expiresAt + p.skew <= r.notAfter
  }

  ghost predicate Inv(p: Params, s: Sys) {
    && Recoverable(s.disk)
    && s.disk.files.Keys <= s.usedKids
    && s.lastSignature <= s.clock
    && (s.memory.Some? ==> Home(s.disk, s.memory.value))
    && (forall tok | tok in s.tokens :: Dated(p, s, tok))
    && (s.disk.manifest.None? ==> forall tok | tok in s.tokens :: SignedByLegacy(s, tok))
    && (s.disk.manifest.Some? ==> forall tok | tok in s.tokens && Live(p, s, tok) :: Held(p, DurableKeys(s).value, tok))
  }

  /** The set of a home is the durable set, up to the age of its active key. */
  lemma HomeDecides(disk: Disk, ks: KeySet)
    requires Home(disk, ks)
    ensures Recoverable(disk) && disk.manifest.Some?
    ensures Load(disk, 0).Ok? && Load(disk, 0).value.active == ks.active && Load(disk, 0).value.retiring == ks.retiring
  {
    HomeIsRecoverable(disk, ks, 0);
  }

  lemma CallKeepsHold(p: Params, s: Sys, call: Call, now: nat, ks: KeySet, tok: Token)
    requires p.window >= RetireWindow(p.ttl, p.skew)
    requires MayCall(p, s, call, now) && Dated(p, s, tok) && Live(p, s, tok) && Held(p, ks, tok)
    ensures Held(p, After(ks, call, s.alg, p.window, now), tok)
  {
    var ks' := After(ks, call, s.alg, p.window, now);
    if tok.key == ks.active {
      if call.RotateCall? {
        var r := RetiredKey(ks.active, now + p.window);
        assert ks'.retiring[|ks.retiring|] == r;
        assert r in ks'.retiring;
      }
    } else {
      var r :| r in ks.retiring && r.signing == tok.key && tok.expiresAt + p.skew <= r.notAfter;
      assert r in ks'.retiring;
    }
  }

  lemma SaveKeepsInv(p: Params, s: Sys, step: Step, s': Sys)
    requires p.window >= RetireWindow(p.ttl, p.skew)
    requires Inv(p, s) && step.Save? && Next(p, s, step, s')
    ensures Inv(p, s')
  {
    var ks := s.memory.value;
    var ks' := After(ks, step.call, s.alg, p.window, step.now);
    HomeDecides(s.disk, ks);
    if Home(step.disk, ks) {
      HomeDecides(step.disk, ks);
    } else {
      HomeDecides(step.disk, ks');
    }
    forall tok | tok in s'.tokens && Live(p, s', tok)
      ensures Held(p, DurableKeys(s').value, tok)
    {
      CallKeepsHold(p, s, step.call, step.now, ks, tok);
    }
  }

  lemma FirstStartKeepsInv(p: Params, s: Sys, step: Step, s': Sys)
    requires Inv(p, s) && step.FirstStart? && Next(p, s, step, s')
    ensures Inv(p, s')
  {
    var first := FirstSet(FirstKey(s.legacy, Some(step.generated)).value, step.now);
    if Home(step.disk, first) {
      HomeDecides(step.disk, first);
    }
  }

  lemma NextKeepsInv(p: Params, s: Sys, step: Step, s': Sys)
    requires p.window >= RetireWindow(p.ttl, p.skew)
    requires Inv(p, s) && Next(p, s, step, s')
    ensures Inv(p, s')
  {
    match step
    case Wait(_) =>
    case Snapshot =>
    case Sign(token) =>
      forall tok | tok in s'.tokens && Live(p, s', tok)
        ensures Held(p, s'.memory.value, tok)
      {
      }
    case Save(_, _, _, _) => SaveKeepsInv(p, s, step, s');
    case Stop =>
      if s.memory.Some? {
        HomeDecides(s.disk, s.memory.value);
      }
    case Restart(_, now) =>
      HomeIsRecoverable(s.disk, Load(s.disk, 0).value, now);
    case FirstStart(_, _, _, _, _) => FirstStartKeepsInv(p, s, step, s');
  }

  lemma {:induction false} RunKeepsInv(p: Params, states: seq<Sys>, steps: seq<Step>, i: nat)
    requires p.window >= RetireWindow(p.ttl, p.skew)
    requires Run(p, states, steps) && i < |states|
    ensures Inv(p, states[i])
  {
    if i > 0 {
      RunKeepsInv(p, states, steps, i - 1);
      NextKeepsInv(p, states[i - 1], steps[i - 1], states[i]);
    }
  }

  // -- Main results ---------------------------------------------------------------

  ghost predicate TokenResolves(s: Sys, tok: Token) {
    s.memory.Some? ==> Resolve(s.memory.value, tok.key.kid) == Some(tok.key)
  }

  /** In every run, at every moment a process is up, each unexpired token resolves to the very
      key and algorithm that signed it. */
  lemma LiveTokensResolve(p: Params, states: seq<Sys>, steps: seq<Step>, i: nat, tok: Token)
    requires p.window >= RetireWindow(p.ttl, p.skew)
    requires Run(p, states, steps) && i < |states|
    requires tok in states[i].tokens && Live(p, states[i], tok)
    ensures TokenResolves(states[i], tok)
  {
    RunKeepsInv(p, states, steps, i);
    if states[i].memory.Some? {
      ResolvesOwnKeys(states[i].memory.value, states[i].disk.files, tok.key);
    }
  }

  /** What the disk keeps whatever the retiring window: it can be loaded, and it says what a running
      process has in memory. */
  ghost predicate OnDisk(s: Sys) {
    Recoverable(s.disk) && (s.memory.Some? ==> Home(s.disk, s.memory.value))
  }

  lemma NextKeepsOnDisk(p: Params, s: Sys, step: Step, s': Sys)
    requires OnDisk(s) && Next(p, s, step, s')
    ensures OnDisk(s')
  {
    match step
    case Wait(_) =>
    case Snapshot =>
    case Sign(_) =>
    case Stop =>
    case Save(call, now, _, d) =>
      var ks := s.memory.value;
      HomeDecides(d, if Home(d, ks) then ks else After(ks, call, s.alg, p.window, now));
    case Restart(_, now) =>
      HomeIsRecoverable(s.disk, Load(s.disk, 0).value, now);
    case FirstStart(_, now, generated, _, d) =>
      var first := FirstSet(FirstKey(s.legacy, Some(generated)).value, now);
      if Home(d, first) {
        HomeDecides(d, first);
      }
  }

  lemma {:induction false} RunStaysOnDisk(p: Params, states: seq<Sys>, steps: seq<Step>, i: nat)
    requires Run(p, states, steps) && i < |states|
    ensures OnDisk(states[i])
  {
    if i > 0 {
      RunStaysOnDisk(p, states, steps, i - 1);
      NextKeepsOnDisk(p, states[i - 1], steps[i - 1], states[i]);
    }
  }

  /** At no point of any run is the directory in a state a restart could not load, and whenever a
      process is up the manifest says what it has in memory. */
  lemma EveryRunIsRestartable(p: Params, states: seq<Sys>, steps: seq<Step>, i: nat, now: nat)
    requires Run(p, states, steps) && i < |states|
    ensures states[i].memory.Some? ==> Reflects(states[i].disk, states[i].memory.value)
    ensures states[i].disk.manifest.Some? ==>
              && Load(states[i].disk, now).Ok?
              && Sound(Load(states[i].disk, now).value, states[i].disk.files)
  {
    RunStaysOnDisk(p, states, steps, i);
    if states[i].disk.manifest.Some? {
      HomeIsRecoverable(states[i].disk, Load(states[i].disk, 0).value, now);
    }
  }

  ghost predicate AlwaysResolves(p: Params) {
    forall states: seq<Sys>, steps: seq<Step>, i: nat, tok: Token ::
      Run(p, states, steps) && 0 <= i < |states| && tok in states[i].tokens && Live(p, states[i], tok) ==>
        TokenResolves(states[i], tok)
  }

  function Kid(c: char): Fingerprint {
    [c, c, c, c, c, c, c, c, c, c, c, c, c, c, c, c]
  }

  const KEY_A := SigningKey(Kid('a'), RS256, Rsa(Kid('a'), 2048))
  const KEY_B := SigningKey(Kid('b'), RS256, Rsa(Kid('b'), 2048))

  function OneFile(): map<string, Pem> {
    map[KEY_A.kid := KeyPem(KEY_A.key)]
  }

  function TwoFiles(): map<string, Pem> {
    OneFile()[KEY_B.kid := KeyPem(KEY_B.key)]
  }

  lemma SmallSetsAreHome(since: nat, notAfter: nat)
    ensures Home(Disk(OneFile(), Some(Readable(ManifestOf(KeySet(KEY_A, since, [])))), None), KeySet(KEY_A, since, []))
    ensures KEY_A.kid != KEY_B.kid
    ensures Sound(KeySet(KEY_B, since, [RetiredKey(KEY_A, notAfter)]), TwoFiles())
    ensures Sound(KeySet(KEY_B, since, []), TwoFiles())
  {
    assert KEY_A.kid[0] != KEY_B.kid[0];
  }

  lemma SweepsPair(since: nat, notAfter: nat)
    ensures Swept(KeySet(KEY_B, since, [RetiredKey(KEY_A, notAfter)]), notAfter) == KeySet(KEY_B, since, [])
  {
    var retiring := [RetiredKey(KEY_A, notAfter)];
    assert retiring[..|retiring| - 1] == [];
    assert Unexpired(retiring, notAfter) == [];
  }

  function ManifestDisk(files: map<string, Pem>, ks: KeySet): Disk {
    Disk(files, Some(Readable(ManifestOf(ks))), None)
  }

  /** The gateway has started with key A, and A has signed a token, at time `skew`. */
  function Signed(p: Params): Sys {
    var ks := KeySet(KEY_A, p.skew, []);
    Sys(ManifestDisk(OneFile(), ks), None, Some(ks), RS256, p.skew, p.skew, {KEY_A},
        {Token(KEY_A, p.skew, p.skew + p.ttl)}, {KEY_A.kid})
  }

  lemma SignedIsReachable(p: Params) returns (states: seq<Sys>, steps: seq<Step>)
    ensures Run(p, states, steps) && states[|steps|] == Signed(p)
    ensures |steps| == 3 && steps[2] == Sign(Token(KEY_A, p.skew, p.skew + p.ttl))
  {
    var ks := KeySet(KEY_A, p.skew, []);
    SmallSetsAreHome(p.skew, 0);
    var tok := Token(KEY_A, p.skew, p.skew + p.ttl);
    var s0 := Sys(Disk(map[], None, None), None, None, RS256, p.skew, 0, {}, {}, {});
    var s1 := s0.(disk := ManifestDisk(OneFile(), ks), memory := Some(ks), usedKids := {KEY_A.kid});
    var s2 := s1.(signers := {KEY_A});
    assert FirstSet(KEY_A.key, p.skew) == ks;
    steps := [FirstStart(RS256, p.skew, KEY_A.key, Done, s1.disk), Snapshot, Sign(tok)];
    states := [s0, s1, s2, Signed(p)];
    assert Next(p, s2, steps[2], Signed(p));
  }

  lemma RunExtends(p: Params, states: seq<Sys>, steps: seq<Step>, step: Step, s': Sys)
    requires Run(p, states, steps) && Next(p, states[|steps|], step, s')
    ensures Run(p, states + [s'], steps + [step])
  {
  }

  function Pair(p: Params): KeySet {
    KeySet(KEY_B, 0, [RetiredKey(KEY_A, p.window)])
  }

  /** Key A was rotated out by a call whose clock lags the signature by the full skew. */
  function RotatedOut(p: Params): Sys {
    Signed(p).(disk := ManifestDisk(TwoFiles(), Pair(p)), memory := Some(Pair(p)), usedKids := {KEY_A.kid, KEY_B.kid})
  }

  function Wiped(p: Params): Sys {
    var ks := KeySet(KEY_B, 0, []);
    RotatedOut(p).(clock := if p.window < p.skew then p.skew else p.window,
                   disk := ManifestDisk(TwoFiles(), ks), memory := Some(ks))
  }

  lemma RotatesOut(p: Params)
    ensures Next(p, Signed(p), Save(RotateCall(KEY_B.key), 0, Done, RotatedOut(p).disk), RotatedOut(p))
  {
    SmallSetsAreHome(0, p.window);
    assert Rotated(Signed(p).memory.value, KEY_B.key, RS256, p.window, 0) == Pair(p);
  }

  lemma WipesOut(p: Params, s: Sys)
    requires s == RotatedOut(p).(clock := Wiped(p).clock)
    ensures Next(p, s, Save(SweepCall, p.window, Done, Wiped(p).disk), Wiped(p))
  {
    SmallSetsAreHome(0, p.window);
    SweepsPair(0, p.window);
  }

  lemma WipedIsReachable(p: Params) returns (states: seq<Sys>, steps: seq<Step>)
    ensures Run(p, states, steps) && states[|steps|] == Wiped(p)
  {
    states, steps := SignedIsReachable(p);
    RotatesOut(p);
    var rotate := Save(RotateCall(KEY_B.key), 0, Done, RotatedOut(p).disk);
    RunExtends(p, states, steps, rotate, RotatedOut(p));
    states, steps := states + [RotatedOut(p)], steps + [rotate];
    var s := RotatedOut(p).(clock := Wiped(p).clock);
    RunExtends(p, states, steps, Wait(s.clock), s);
    states, steps := states + [s], steps + [Wait(s.clock)];
    WipesOut(p, s);
    var sweep := Save(SweepCall, p.window, Done, Wiped(p).disk);
    RunExtends(p, states, steps, sweep, Wiped(p));
    states, steps := states + [Wiped(p)], steps + [sweep];
  }

  /** A shorter window drops the key of a token that is still live: sign, rotate with a clock
      that lags by the full skew, sweep as soon as the window allows. */
  lemma ShortWindowLosesAToken(p: Params)
    requires p.window < RetireWindow(p.ttl, p.skew)
    ensures !AlwaysResolves(p)
  {
    var states, steps := WipedIsReachable(p);
    assert KEY_A.kid[0] != KEY_B.kid[0];
    var tok := Token(KEY_A, p.skew, p.skew + p.ttl);
    assert tok in states[|steps|].tokens && Live(p, states[|steps|], tok) && !TokenResolves(states[|steps|], tok);
  }

  /** The retiring window the gateway configures is exactly what outstanding tokens need. */
  lemma RetireWindowIsExact(p: Params)
    ensures AlwaysResolves(p) <==> p.window >= RetireWindow(p.ttl, p.skew)
  {
    if p.window >= RetireWindow(p.ttl, p.skew) {
      forall states: seq<Sys>, steps: seq<Step>, i: nat, tok: Token |
        Run(p, states, steps) && 0 <= i < |states| && tok in states[i].tokens && Live(p, states[i], tok)
        ensures TokenResolves(states[i], tok)
      {
        LiveTokensResolve(p, states, steps, i, tok);
      }
    } else {
      ShortWindowLosesAToken(p);
    }
  }

  // -- The manager's calls are steps of the runs -------------------------------------

  ghost predicate Corresponds(m: Manager, p: Params, s: Sys)
    reads m, m.dir
  {
    && !m.fixed && m.Valid() && m.retireWindow == p.window
    && s.memory == Some(m.Keys()) && s.disk == m.dir.disk && s.alg == m.alg
    && s.disk.files.Keys <= s.usedKids
  }

  /** The state after a process died while the disk looked like `d`. */
  ghost function DeadAt(s: Sys, call: Call, d: Disk): Sys {
    s.(disk := d, memory := None, signers := {}, usedKids := s.usedKids + KidsOf(call))
  }

  method RotateIsAStep(m: Manager, p: Params, ghost s: Sys, now: nat, newKey: PrivateKey)
    returns (ok: bool, ghost s': Sys)
    requires Corresponds(m, p, s) && MayCall(p, s, RotateCall(newKey), now)
    modifies m, m.dir
    ensures Corresponds(m, p, s')
    ensures Next(p, s, Save(RotateCall(newKey), now, if ok then Done else Failed, m.dir.disk), s')
    ensures forall d | d in m.dir.seen :: d in old(m.dir.seen) ||
              Next(p, s, Save(RotateCall(newKey), now, Died, d), DeadAt(s, RotateCall(newKey), d))
  {
    ok := m.RotateLocked(now, Some(newKey));
    s' := s.(disk := m.dir.disk, memory := Some(m.Keys()), usedKids := s.usedKids + {newKey.fingerprint});
  }

  method SweepIsAStep(m: Manager, p: Params, ghost s: Sys, now: nat) returns (ok: bool, ghost s': Sys)
    requires Corresponds(m, p, s) && MayCall(p, s, SweepCall, now)
    modifies m, m.dir
    ensures Corresponds(m, p, s')
    ensures Next(p, s, Save(SweepCall, now, if ok then Done else Failed, m.dir.disk), s')
    ensures forall d | d in m.dir.seen :: d in old(m.dir.seen) ||
              Next(p, s, Save(SweepCall, now, Died, d), DeadAt(s, SweepCall, d))
  {
    ok := m.SweepLocked(now);
    s' := s.(disk := m.dir.disk, memory := Some(m.Keys()));
  }

  /** The signer reads the active key before it signs. */
  method SigningKeyIsAStep(m: Manager, p: Params, ghost s: Sys) returns (k: SigningKey, ghost s': Sys)
    requires Corresponds(m, p, s)
    ensures k == m.active
    ensures Next(p, s, Snapshot, s') && k in s'.signers && k == s'.memory.value.active
  {
    k := m.ActiveKey();
    s' := s.(signers := s.signers + {k});
  }

  /** Some steps lead from the one state to the other. */
  ghost predicate Leads(p: Params, s: Sys, t: Sys) {
    exists states: seq<Sys>, steps: seq<Step> :: Path(p, states, steps) && states[0] == s && states[|steps|] == t
  }

  ghost predicate Path(p: Params, states: seq<Sys>, steps: seq<Step>) {
    |states| == |steps| + 1 && forall i | 0 <= i < |steps| :: Next(p, states[i], steps[i], states[i + 1])
  }

  lemma OneStepLeads(p: Params, s: Sys, step: Step, t: Sys)
    requires Next(p, s, step, t)
    ensures Leads(p, s, t)
  {
    hide Next;
    assert Path(p, [s, t], [step]);
  }

  lemma LeadsOn(p: Params, s: Sys, t: Sys, u: Sys)
    requires Leads(p, s, t) && Leads(p, t, u)
    ensures Leads(p, s, u)
  {
    hide Next;
    var a, x :| Path(p, a, x) && a[0] == s && a[|x|] == t;
    var b, y :| Path(p, b, y) && b[0] == t && b[|y|] == u;
    var states, steps := a + b[1..], x + y;
    forall i | 0 <= i < |steps|
      ensures Next(p, states[i], steps[i], states[i + 1])
    {
      assert i >= |x| ==> states[i] == b[i - |x|] && states[i + 1] == b[i + 1 - |x|] && steps[i] == y[i - |x|];
    }
    assert Path(p, states, steps);
  }

  /** The state after a maintenance pass: the process is up with `ks`, or died leaving it on disk. */
  ghost function PassEnd(s: Sys, newKey: PrivateKey, d: Disk, ks: KeySet, up: bool): Sys {
    s.(disk := d, memory := if up then Some(ks) else None, signers := if up then s.signers else {},
       usedKids := s.usedKids + {newKey.fingerprint})
  }

  lemma RotationLeads(p: Params, s: Sys, now: nat, newKey: PrivateKey, d: Disk, ks': KeySet, up: bool)
    requires s.memory.Some? && MayCall(p, s, RotateCall(newKey), now) && Home(s.disk, s.memory.value)
    requires ks' == s.memory.value || ks' == Rotated(s.memory.value, newKey, s.alg, p.window, now)
    requires Home(d, ks') && d.files.Keys <= s.disk.files.Keys + {newKey.fingerprint}
    ensures Leads(p, s, PassEnd(s, newKey, d, ks', up))
  {
    hide Home, Rotated, Leads;
    var outcome := if !up then Died else if ks' == s.memory.value then Failed else Done;
    OneStepLeads(p, s, Save(RotateCall(newKey), now, outcome, d), PassEnd(s, newKey, d, ks', up));
  }

  lemma SweepLeads(p: Params, s: Sys, now: nat, d: Disk, up: bool)
    requires s.memory.Some? && now <= s.clock
    requires Home(d, Swept(s.memory.value, now)) && d.files.Keys <= s.disk.files.Keys
    ensures Leads(p, s, s.(disk := d, memory := if up then Some(Swept(s.memory.value, now)) else None,
                           signers := if up then s.signers else {}))
  {
    hide Home, Swept, Leads;
    var t := s.(disk := d, memory := if up then Some(Swept(s.memory.value, now)) else None,
                signers := if up then s.signers else {});
    OneStepLeads(p, s, Save(SweepCall, now, if up then Done else Died, d), t);
  }

  /** Between the two halves: the rotation is durable, or it failed and left an orphaned key file. */
  lemma MidPass(p: Params, s: Sys, now: nat, newKey: PrivateKey, rotated: bool) returns (d: Disk)
    requires s.memory.Some? && Home(s.disk, s.memory.value) && s.disk.files.Keys <= s.usedKids
    requires MayCall(p, s, RotateCall(newKey), now)
    ensures d.files.Keys == s.disk.files.Keys + {newKey.fingerprint}
    ensures var ks := s.memory.value;
            Home(d, if rotated then Rotated(ks, newKey, s.alg, p.window, now) else ks)
  {
    var ks, kid := s.memory.value, newKey.fingerprint;
    var files := s.disk.files[kid := KeyPem(newKey)];
    RotatedIsSound(ks, s.disk.files, newKey, s.alg, p.window, now);
    if rotated {
      d := ManifestDisk(files, Rotated(ks, newKey, s.alg, p.window, now));
    } else {
      d := s.disk.(files := files);
      SoundKidsExist(ks, s.disk.files, kid);
      assert s.disk.files - {kid} == files - {kid};
      OtherFilesStayBacked(ks, s.disk.files, files, kid);
    }
  }

  lemma SoundKidsExist(ks: KeySet, files: map<string, Pem>, kid: string)
    requires Sound(ks, files) && kid !in files
    ensures !Holds(ks, kid)
  {
  }

  /** Every state a maintenance pass may leave, on disk and in memory, is reached by steps. */
  lemma PassLeads(p: Params, s: Sys, now: nat, newKey: PrivateKey, d: Disk, ks': KeySet, up: bool)
    requires s.memory.Some? && Home(s.disk, s.memory.value) && s.disk.files.Keys <= s.usedKids
    requires MayCall(p, s, RotateCall(newKey), now)
    requires OfPass(ks', s.memory.value, s.alg, p.window, now, Some(newKey))
    requires Home(d, ks') && d.files.Keys <= s.disk.files.Keys + {newKey.fingerprint}
    ensures Leads(p, s, PassEnd(s, newKey, d, ks', up))
  {
    hide Home, Rotated, Swept, Leads, MayCall;
    var ks := s.memory.value;
    var next := Rotated(ks, newKey, s.alg, p.window, now);
    if ks' == ks || ks' == next {
      RotationLeads(p, s, now, newKey, d, ks', up);
    } else {
      var half := if ks' == Swept(ks, now) then ks else next;
      var mid := MidPass(p, s, now, newKey, half == next);
      var t := PassEnd(s, newKey, mid, half, true);
      RotationLeads(p, s, now, newKey, mid, half, true);
      CallIsDue(p, s, newKey, now);
      SweepLeads(p, t, now, d, up);
      LeadsOn(p, s, t, PassEnd(s, newKey, d, ks', up));
    }
  }

  lemma CallIsDue(p: Params, s: Sys, newKey: PrivateKey, now: nat)
    requires MayCall(p, s, RotateCall(newKey), now)
    ensures now <= s.clock
  {
  }

  /** Every disk state the pass may die in is one that a run reaches. */
  lemma PassDisksAreReached(p: Params, s: Sys, now: nat, newKey: PrivateKey, d: Disk)
    requires s.memory.Some? && Home(s.disk, s.memory.value) && s.disk.files.Keys <= s.usedKids
    requires MayCall(p, s, RotateCall(newKey), now)
    requires HomeOfPass(d, s.memory.value, s.alg, p.window, now, Some(newKey))
    requires d.files.Keys <= s.disk.files.Keys + {newKey.fingerprint}
    ensures Leads(p, s, PassEnd(s, newKey, d, s.memory.value, false))
  {
    hide Home, OfPass, Leads, MayCall;
    var ks' :| OfPass(ks', s.memory.value, s.alg, p.window, now, Some(newKey)) && Home(d, ks');
    PassLeads(p, s, now, newKey, d, ks', false);
  }

  /** A maintenance pass is steps of a run, and so is its death at any disk state in between. */
  method MaintainIsSteps(m: Manager, p: Params, ghost s: Sys, now: nat, newKey: PrivateKey)
    returns (ok: bool, ghost s': Sys)
    requires Corresponds(m, p, s) && MayCall(p, s, RotateCall(newKey), now)
    modifies m, m.dir
    ensures Corresponds(m, p, s') && Leads(p, s, s')
    ensures ok ==> s'.memory == Some(Maintained(s.memory.value, s.alg, m.rotationInterval, p.window, now, Some(newKey)))
    ensures forall d | d in m.dir.seen :: d in old(m.dir.seen) ||
              Leads(p, s, PassEnd(s, newKey, d, s.memory.value, false))
  {
    hide Home, OfPass, Leads, MayCall, Maintained, RotationDue;
    assert AlgForKey(newKey) == Some(m.alg) && newKey.fingerprint !in m.dir.disk.files by {
      KeyIsNew(p, s, newKey, now);
    }
    ghost var before := m.dir.disk;
    ok := m.Maintain(now, Some(newKey));
    s' := PassEnd(s, newKey, m.dir.disk, m.Keys(), true);
    assert m.dir.disk.files.Keys <= before.files.Keys + {newKey.fingerprint};
    assert Home(m.dir.disk, m.Keys());
    PassLeads(p, s, now, newKey, m.dir.disk, m.Keys(), true);
    forall d | d in m.dir.seen && d !in old(m.dir.seen)
      ensures Leads(p, s, PassEnd(s, newKey, d, s.memory.value, false))
    {
      PassDisksAreReached(p, s, now, newKey, d);
    }
  }

  lemma KeyIsNew(p: Params, s: Sys, newKey: PrivateKey, now: nat)
    requires MayCall(p, s, RotateCall(newKey), now)
    ensures AlgForKey(newKey) == Some(s.alg) && newKey.fingerprint !in s.usedKids
  {
  }

  // -- Start-up ---------------------------------------------------------------------------

  /** What a start-up needs: no process is up, and the keys it may generate are new. */
  ghost predicate MayStart(p: Params, s: Sys, alg: Alg, now: nat, first: PrivateKey, next: PrivateKey) {
    && s.memory.None? && s.disk.files.Keys <= s.usedKids && LoadsDistinct(s.disk, now)
    && now <= s.clock && s.lastSignature <= now + p.skew
    && AlgForKey(first) == Some(alg) && first.fingerprint !in s.usedKids
    && AlgForKey(next) == Some(alg) && next.fingerprint !in s.usedKids + {first.fingerprint}
    && (s.legacy.Some? && s.legacy.value.KeyPem? ==> s.legacy.value.key.fingerprint in s.usedKids)
  }

  /** The state after the first half of a start-up that found or made the set `ks`. */
  ghost function Begun(s: Sys, alg: Alg, first: PrivateKey, d: Disk, ks: KeySet): Sys
    requires AlgForKey(first) == Some(alg)
  {
    s.(disk := d, memory := Some(ks), alg := alg,
       usedKids := if s.disk.manifest.Some? then s.usedKids
                   else s.usedKids + {first.fingerprint} + StartKid(s.disk, s.legacy, Some(first)))
  }

  ghost function BegunDead(s: Sys, alg: Alg, first: PrivateKey, d: Disk): Sys
    requires AlgForKey(first) == Some(alg)
  {
    s.(disk := d, alg := alg, usedKids := s.usedKids + {first.fingerprint} + StartKid(s.disk, s.legacy, Some(first)))
  }

  /** The first half, at a disk `d` that holds the set. */
  lemma BeginLeads(p: Params, s: Sys, alg: Alg, now: nat, first: PrivateKey, d: Disk, ks: KeySet)
    requires s.memory.None? && now <= s.clock
    requires AlgForKey(first) == Some(alg) && first.fingerprint !in s.usedKids
    requires StartSet(s.disk, s.legacy, Some(first), now) == Some(ks) && Home(d, ks)
    requires s.disk.manifest.Some? ==> d == s.disk
    requires d.files.Keys <= s.disk.files.Keys + StartKid(s.disk, s.legacy, Some(first))
    ensures Leads(p, s, Begun(s, alg, first, d, ks))
  {
    hide Home, Leads;
    if s.disk.manifest.Some? {
      OneStepLeads(p, s, Restart(alg, now), Begun(s, alg, first, d, ks));
    } else {
      OneStepLeads(p, s, FirstStart(alg, now, first, Done, d), Begun(s, alg, first, d, ks));
    }
  }

  /** The first half, dead at any disk state it may pass through. */
  lemma BeginDisksAreReached(p: Params, s: Sys, alg: Alg, now: nat, first: PrivateKey, d: Disk)
    requires s.memory.None? && now <= s.clock
    requires AlgForKey(first) == Some(alg) && first.fingerprint !in s.usedKids
    requires HomeOfStart(d, s.disk, s.legacy, Some(first), now)
    ensures Leads(p, s, BegunDead(s, alg, first, d))
  {
    hide Home, Leads;
    OneStepLeads(p, s, FirstStart(alg, now, first, Died, d), BegunDead(s, alg, first, d));
  }

  /** A disk that holds the set a start-up began with and every file it may have written. */
  lemma BegunDisk(s: Sys, alg: Alg, now: nat, first: PrivateKey, ks: KeySet) returns (d: Disk)
    requires AlgForKey(first) == Some(alg) && LoadsDistinct(s.disk, now)
    requires StartSet(s.disk, s.legacy, Some(first), now) == Some(ks)
    ensures Home(d, ks)
    ensures s.disk.manifest.Some? ==> d == s.disk
    ensures d.files.Keys == s.disk.files.Keys + StartKid(s.disk, s.legacy, Some(first))
  {
    if s.disk.manifest.Some? {
      d := s.disk;
    } else {
      var key := FirstKey(s.legacy, Some(first)).value;
      d := ManifestDisk(s.disk.files[key.fingerprint := KeyPem(key)], ks);
    }
  }

  /** The set a start-up begins with, up and running before the maintenance pass. */
  lemma StartBegins(p: Params, s: Sys, alg: Alg, now: nat, first: PrivateKey, next: PrivateKey, ks: KeySet)
    returns (t: Sys)
    requires MayStart(p, s, alg, now, first, next)
    requires StartSet(s.disk, s.legacy, Some(first), now) == Some(ks)
    ensures Leads(p, s, t) && t.memory == Some(ks) && Home(t.disk, ks) && t.alg == alg
    ensures t.disk.files.Keys == s.disk.files.Keys + StartKid(s.disk, s.legacy, Some(first))
    ensures t.disk.files.Keys <= t.usedKids && MayCall(p, t, RotateCall(next), now)
  {
    hide Home, Leads, LoadsDistinct;
    var d := BegunDisk(s, alg, now, first, ks);
    t := Begun(s, alg, first, d, ks);
    BeginLeads(p, s, alg, now, first, d, ks);
  }

  /** Every disk state the start-up may die in is one that a run reaches. */
  lemma StartDisksAreReached(p: Params, s: Sys, alg: Alg, now: nat, first: PrivateKey, next: PrivateKey, d: Disk)
    returns (t: Sys)
    requires MayStart(p, s, alg, now, first, next)
    requires HomeOfStart(d, s.disk, s.legacy, Some(first), now)
             || HomeAfterStart(d, s.disk, s.legacy, Some(first), alg, p.window, now, Some(next))
    ensures Leads(p, s, t) && t.disk == d && t.memory.None?
  {
    hide Home, Leads, HomeOfPass;
    if HomeOfStart(d, s.disk, s.legacy, Some(first), now) {
      BeginDisksAreReached(p, s, alg, now, first, d);
      t := BegunDead(s, alg, first, d);
    } else {
      var ks := StartSet(s.disk, s.legacy, Some(first), now).value;
      var mid := StartBegins(p, s, alg, now, first, next, ks);
      hide StartSet, StartKid;
      PassDisksAreReached(p, mid, now, next, d);
      t := PassEnd(mid, next, d, ks, false);
      LeadsOn(p, s, mid, t);
    }
  }

  lemma MaintainedIsOfPass(ks: KeySet, alg: Alg, interval: nat, window: nat, now: nat, newKey: Option<PrivateKey>)
    ensures OfPass(Maintained(ks, alg, interval, window, now, newKey), ks, alg, window, now, newKey)
  {
  }

  /** A start-up that succeeds is steps of a run. */
  lemma StartLeads(p: Params, s: Sys, alg: Alg, now: nat, first: PrivateKey, next: PrivateKey,
                   d: Disk, ks: KeySet, ks': KeySet)
    returns (t: Sys)
    requires MayStart(p, s, alg, now, first, next)
    requires StartSet(s.disk, s.legacy, Some(first), now) == Some(ks)
    requires OfPass(ks', ks, alg, p.window, now, Some(next)) && Home(d, ks')
    requires d.files.Keys <= s.disk.files.Keys + StartKid(s.disk, s.legacy, Some(first)) + {next.fingerprint}
    ensures Leads(p, s, t) && t.disk == d && t.memory == Some(ks') && t.alg == alg && d.files.Keys <= t.usedKids
  {
    hide Home, Leads, OfPass;
    var mid := StartBegins(p, s, alg, now, first, next, ks);
    hide StartSet, StartKid, MayStart;
    PassLeads(p, mid, now, next, d, ks', true);
    t := PassEnd(mid, next, d, ks', true);
    LeadsOn(p, s, mid, t);
  }

  /** A start-up is steps of a run, and so is its death at any disk state in between. A failed one is
      a process that died. */
  method StartIsSteps(m: Manager, p: Params, ghost s: Sys, now: nat, first: PrivateKey, next: PrivateKey)
    returns (r: Result<(), StartError>, ghost s': Sys)
    requires !m.fixed && m.retiring == [] && m.retireWindow == p.window
    requires s.disk == m.dir.disk && s.legacy == m.dir.legacy && MayStart(p, s, m.alg, now, first, next)
    modifies m, m.dir
    ensures r.Ok? ==> Leads(p, s, s') && Corresponds(m, p, s')
    ensures forall d | d in m.dir.seen && d !in old(m.dir.seen) ::
              exists t :: Leads(p, s, t) && t.disk == d && t.memory.None?
  {
    hide Home, OfPass, Leads, Maintained, HomeOfStart, HomeAfterStart, StartKid, StartSet, LoadsDistinct;
    KeysAreNew(p, s, m.alg, now, first, next);
    r := m.Start(now, Some(first), Some(next));
    s' := s;
    if r.Ok? {
      var ks := StartSet(s.disk, s.legacy, Some(first), now).value;
      MaintainedIsOfPass(ks, m.alg, m.rotationInterval, p.window, now, Some(next));
      s' := StartLeads(p, s, m.alg, now, first, next, m.dir.disk, ks, m.Keys());
    }
    forall d | d in m.dir.seen && d !in old(m.dir.seen)
      ensures exists t :: Leads(p, s, t) && t.disk == d && t.memory.None?
    {
      var t := StartDisksAreReached(p, s, m.alg, now, first, next, d);
    }
  }

  lemma KeysAreNew(p: Params, s: Sys, alg: Alg, now: nat, first: PrivateKey, next: PrivateKey)
    requires MayStart(p, s, alg, now, first, next)
    ensures AlgForKey(first) == Some(alg) && AlgForKey(next) == Some(alg)
    ensures KidOf(Some(next)) !! s.disk.files.Keys + StartKid(s.disk, s.legacy, Some(first))
    ensures LoadsDistinct(s.disk, now)
  {
  }
}
