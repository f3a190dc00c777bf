/** How long an access token that nobody revokes is accepted: key maintenance and record sweeps
    taken together. */
module TokenLifetime {
  import opened Wrappers
  import opened Records
  import opened StoreSpec
  import opened KeyManager
  import K = KeyRuns

  /** The cutoffs of the periodic sweep: a record outlives its token by the clock skew. */
  function SweepCutoffs(p: K.Params, refreshTtl: nat, codeTtl: nat, now: nat): Cutoffs {
    Cutoffs(now - p.ttl - p.skew, now - refreshTtl - p.skew, now - codeTtl - p.skew)
  }

  predicate SweptAt(p: K.Params, requestedAt: nat, now: nat) {
    requestedAt + p.ttl + p.skew < now
  }

  /** One pass of the sweeper over one record: tokens, codes and PKCE sessions go once their own lifetime and
      the clock skew have passed since the request, pending requests with the codes or when they cannot
      be read, and nothing else goes. */
  lemma SweepTakesExactly(p: K.Params, refreshTtl: nat, codeTtl: nat, now: nat, store: Store, k: Key)
    requires k in store
    ensures var after := ExpireSessions(store, SweepCutoffs(p, refreshTtl, codeTtl, now));
            && after.Keys <= store.Keys
            && (k in after ==> after[k] == store[k])
            && (k !in after <==>
                  match k.kind
                  case AccessToken => store[k].Session? && store[k].request.requestedAt + p.ttl + p.skew < now
                  case RefreshToken => store[k].Session? && store[k].request.requestedAt + refreshTtl + p.skew < now
                  case AuthorizeCode => store[k].Session? && store[k].request.requestedAt + codeTtl + p.skew < now
                  case PkceRequest => store[k].Session? && store[k].request.requestedAt + codeTtl + p.skew < now
                  case AuthorizeRequestKind =>
                    !store[k].Pending? || store[k].ar.request.None? ||
                    store[k].ar.request.value.requestedAt + codeTtl + p.skew < now
                  case _ => false)
  {
    var kinds := SESSION_KINDS + [AuthorizeRequestKind];
    assert kinds == [AccessToken, RefreshToken, AuthorizeCode, PkceRequest, AuthorizeRequestKind];
  }

  lemma SweepDropsExactly(p: K.Params, refreshTtl: nat, codeTtl: nat, now: nat, store: Store, signature: string)
    requires var k := Key(AccessToken, signature); k in store && store[k].Session?
    ensures var k := Key(AccessToken, signature);
            k in ExpireSessions(store, SweepCutoffs(p, refreshTtl, codeTtl, now)) <==>
            !SweptAt(p, store[k].request.requestedAt, now)
  {
    SweepTakesExactly(p, refreshTtl, codeTtl, now, store, Key(AccessToken, signature));
  }

  /** No sweep takes the record of a token that still counts, exactly when the token expires at
      most one tick after its request time plus the configured lifetime. */
  lemma RecordOutlivesTokenExactly(p: K.Params, requestedAt: nat, expiresAt: nat)
    ensures (forall now: nat | now < expiresAt + p.skew :: !SweptAt(p, requestedAt, now)) <==>
            expiresAt <= requestedAt + p.ttl + 1
  {
    if expiresAt > requestedAt + p.ttl + 1 {
      assert SweptAt(p, requestedAt, requestedAt + p.ttl + p.skew + 1);
    }
  }

  datatype Gateway = Gateway(keys: K.Sys, store: Store)

  datatype Step =
    | KeyStep(step: K.Step)
    | Issue(token: K.Token, request: Request)
    | Sweep(refreshTtl: nat, codeTtl: nat, now: nat)
    | StoreCall

  /** One token and its record, under `k`, are followed. Issuing signs the token and creates the
      record. Any other store call may do anything except revoke or rewrite that record. */
  ghost predicate Next(p: K.Params, k: Key, g: Gateway, step: Step, g': Gateway) {
    match step
    case KeyStep(inner) => K.Next(p, g.keys, inner, g'.keys) && g'.store == g.store
    case Issue(token, request) =>
      && K.Next(p, g.keys, K.Sign(token), g'.keys)
      && k.kind == AccessToken && k !in g.store
      && InTime(p, token, request)
      && g'.store == g.store[k := Session(request)]
    case Sweep(refreshTtl, codeTtl, now) =>
      && now <= g.keys.clock
      && g' == g.(store := ExpireSessions(g.store, SweepCutoffs(p, refreshTtl, codeTtl, now)))
    case StoreCall =>
      && g'.keys == g.keys
      && (k in g.store ==> k in g'.store && g'.store[k] == g.store[k])
  }

  /** The expiry claim is at most a tick after the request time plus the lifetime. */
  predicate InTime(p: K.Params, tok: K.Token, request: Request) {
    tok.expiresAt <= request.requestedAt + p.ttl + 1
  }

  ghost predicate Run(p: K.Params, k: Key, states: seq<Gateway>, steps: seq<Step>) {
    && |states| == |steps| + 1
    && K.Init(p, states[0].keys)
    && forall i | 0 <= i < |steps| :: Next(p, k, states[i], steps[i], states[i + 1])
  }

  function KeyStates(states: seq<Gateway>): (r: seq<K.Sys>)
    ensures |r| == |states|
  {
    seq(|states|, i requires 0 <= i < |states| => states[i].keys)
  }

  /** Issuing is a signature, and steps of the store are waits without a change of the clock. */
  function KeySteps(states: seq<Gateway>, steps: seq<Step>): (r: seq<K.Step>)
    requires |states| == |steps| + 1
    ensures |r| == |steps|
  {
    seq(|steps|, i requires 0 <= i < |steps| =>
      match steps[i]
      case KeyStep(step) => step
      case Issue(token, _) => K.Sign(token)
      case _ => K.Wait(states[i].keys.clock))
  }

  lemma KeyRunOf(p: K.Params, k: Key, states: seq<Gateway>, steps: seq<Step>)
    requires Run(p, k, states, steps)
    ensures K.Run(p, KeyStates(states), KeySteps(states, steps))
  {
    var ss, ts := KeyStates(states), KeySteps(states, steps);
    forall i | 0 <= i < |ts| ensures K.Next(p, ss[i], ts[i], ss[i + 1]) {
      assert Next(p, k, states[i], steps[i], states[i + 1]);
    }
  }

  lemma ClockAndTokensGrow(p: K.Params, k: Key, g: Gateway, step: Step, g': Gateway)
    requires Next(p, k, g, step, g')
    ensures g.keys.clock <= g'.keys.clock && g.keys.tokens <= g'.keys.tokens
  {
  }

  /** The record under `k` is the token's. */
  predicate RecordOf(p: K.Params, tok: K.Token, k: Key, store: Store) {
    k.kind == AccessToken && k in store && store[k].Session? && InTime(p, tok, store[k].request)
  }

  lemma StepKeepsRecord(p: K.Params, k: Key, g: Gateway, step: Step, g': Gateway, tok: K.Token)
    requires Next(p, k, g, step, g') && RecordOf(p, tok, k, g.store)
    requires g'.keys.clock < tok.expiresAt + p.skew
    ensures RecordOf(p, tok, k, g'.store)
  {
    ClockAndTokensGrow(p, k, g, step, g');
    if step.Sweep? {
      SweepDropsExactly(p, step.refreshTtl, step.codeTtl, step.now, g.store, k.id);
    }
  }

  lemma {:induction false} RecordStays(p: K.Params, k: Key, states: seq<Gateway>, steps: seq<Step>,
                                       i: nat, j: nat, tok: K.Token)
    requires Run(p, k, states, steps) && i <= j < |states|
    requires tok in states[i].keys.tokens && RecordOf(p, tok, k, states[i].store)
    ensures tok in states[j].keys.tokens && states[i].keys.clock <= states[j].keys.clock
    ensures states[j].keys.clock < tok.expiresAt + p.skew ==> RecordOf(p, tok, k, states[j].store)
    decreases j
  {
    hide RecordOf, Next;
    if i < j {
      RecordStays(p, k, states, steps, i, j - 1, tok);
      var g, step, g' := states[j - 1], steps[j - 1], states[j];
      assert Next(p, k, g, step, g');
      ClockAndTokensGrow(p, k, g, step, g');
      if g'.keys.clock < tok.expiresAt + p.skew {
        StepKeepsRecord(p, k, g, step, g', tok);
      }
    }
  }

  /** The proxy's decision: the kid resolves to the signing key, the expiry with leeway has not
      passed, and the record is there. */
  predicate Accepted(p: K.Params, g: Gateway, tok: K.Token, k: Key)
    requires g.keys.memory.Some?
  {
    && Resolve(g.keys.memory.value, tok.key.kid) == Some(tok.key)
    && g.keys.clock < tok.expiresAt + p.skew
    && Fetch(g.store, k).Ok?
  }

  /** Across every schedule of key maintenance, restarts and sweeps, a token whose record nobody
      revokes is accepted exactly until its expiry plus the clock skew. */
  lemma AcceptedExactlyWhileLive(p: K.Params, k: Key, states: seq<Gateway>, steps: seq<Step>,
                                 i: nat, j: nat, tok: K.Token)
    requires p.window >= K.RetireWindow(p.ttl, p.skew)
    requires Run(p, k, states, steps) && i <= j < |states| && states[j].keys.memory.Some?
    requires tok in states[i].keys.tokens && RecordOf(p, tok, k, states[i].store)
    ensures Accepted(p, states[j], tok, k) <==> states[j].keys.clock < tok.expiresAt + p.skew
  {
    RecordStays(p, k, states, steps, i, j, tok);
    if states[j].keys.clock < tok.expiresAt + p.skew {
      KeyRunOf(p, k, states, steps);
      K.LiveTokensResolve(p, KeyStates(states), KeySteps(states, steps), j, tok);
    }
  }

  /** A token issued in the run is accepted from then on, exactly until its expiry plus the skew. */
  lemma IssuedIsAccepted(p: K.Params, k: Key, states: seq<Gateway>, steps: seq<Step>, i: nat, j: nat)
    requires p.window >= K.RetireWindow(p.ttl, p.skew)
    requires Run(p, k, states, steps) && i < j < |states| && states[j].keys.memory.Some?
    requires steps[i].Issue?
    ensures var tok := steps[i].token;
            Accepted(p, states[j], tok, k) <==> states[j].keys.clock < tok.expiresAt + p.skew
  {
    assert Next(p, k, states[i], steps[i], states[i + 1]);
    AcceptedExactlyWhileLive(p, k, states, steps, i + 1, j, steps[i].token);
  }

  /** Such runs exist: the first start, then a token issued with its record. */
  lemma TokensAreIssued(p: K.Params, signature: string, request: Request)
    returns (states: seq<Gateway>, steps: seq<Step>)
    requires request.requestedAt == p.skew
    ensures Run(p, Key(AccessToken, signature), states, steps) && |steps| == 3 && steps[2].Issue?
    ensures states[0].store == map[] && states[3].keys.memory.Some?
    ensures states[3].store == map[Key(AccessToken, signature) := Session(request)]
  {
    var k := Key(AccessToken, signature);
    var ks, inner := K.SignedIsReachable(p);
    var tok := K.Token(K.KEY_A, p.skew, p.skew + p.ttl);
    assert K.Next(p, ks[0], inner[0], ks[1]) && K.Next(p, ks[1], inner[1], ks[2]) && K.Next(p, ks[2], inner[2], ks[3]);
    steps := [KeyStep(inner[0]), KeyStep(inner[1]), Issue(tok, request)];
    states := [Gateway(ks[0], map[]), Gateway(ks[1], map[]), Gateway(ks[2], map[]),
               Gateway(ks[3], map[k := Session(request)])];
    assert Next(p, k, states[0], steps[0], states[1]);
    assert Next(p, k, states[1], steps[1], states[2]);
    assert Next(p, k, states[2], steps[2], states[3]);
  }
}
