/** Whole runs over the store: flows that mint tokens, rotations and touches whose read and write
    are separate transactions, deletions, sweeps and revocations, all interleaved. */
module StoreRuns {
  import opened Wrappers
  import opened Records
  import opened StoreSpec

  /** A flow has read a record it will turn into new ones. */
  datatype Flow = Flow(source: Kind, request: Request)
  datatype Rotation = Rotation(signature: string, request: Request)
  datatype TouchJob = TouchJob(id: string, client: Client)

  datatype Sys = Sys(
    store: Store,
    flows: set<Flow>,
    rotations: set<Rotation>,
    touches: set<TouchJob>,
    /** Keys session records were ever created under; signatures and codes do not repeat. */
    used: set<Key>)

  datatype Step =
    | Authorize(id: string, ar: AuthorizeRequest)
    | Begin(k: Key)
    | Write(flow: Flow, k: Key, request: Request)
    | End(flow: Flow)
    | RotateRead(signature: string)
    | RotateWrite(rotation: Rotation, now: nat)
    | TouchRead(id: string)
    | TouchWrite(touch: TouchJob, expiresAt: nat)
    | RegisterClient(client: Client, max: int, now: nat)
    | DeleteRecord(k: Key)
    | SweepSessions(cutoffs: Cutoffs)
    | SweepClients(now: nat)
    | RevokeTokens(kind: Kind, requestId: string)
    | RevokeScope(scope: Scope)

  /** What a flow may create: consent gives a code and its PKCE session, a code or a refresh token
      gives an access and a refresh token. */
  predicate Mints(source: Kind, target: Kind) {
    match source
    case AuthorizeRequestKind => target in {AuthorizeCode, PkceRequest}
    case AuthorizeCode => target in {AccessToken, RefreshToken}
    case RefreshToken => target in {AccessToken, RefreshToken}
    case _ => false
  }

  predicate IsSource(kind: Kind) {
    kind in {AuthorizeRequestKind, AuthorizeCode, RefreshToken}
  }

  /** The second half of a touch: a registration read without an expiry is left alone. */
  function Touched(store: Store, touch: TouchJob, expiresAt: nat): Store {
    if touch.client.expiresAt == 0 then store
    else UpdateIfPresent(store, Key(ClientKind, touch.id), Registration(touch.client.(expiresAt := expiresAt)))
  }

  ghost predicate Next(s: Sys, step: Step, s': Sys) {
    match step
    case Authorize(id, ar) =>
      var k := Key(AuthorizeRequestKind, id);
      k !in s.used && s' == s.(store := s.store[k := Pending(ar)], used := s.used + {k})
    case Begin(k) =>
      && k in s.store && IsSource(k.kind) && RequestOf(k, s.store[k]).Some?
      && s' == s.(flows := s.flows + {Flow(k.kind, RequestOf(k, s.store[k]).value)})
    case Write(flow, k, request) =>
      && flow in s.flows && Mints(flow.source, k.kind) && k !in s.used
      && request.id == flow.request.id && ClientId(request) == ClientId(flow.request)
      && s' == s.(store := s.store[k := Session(request)], used := s.used + {k})
    case End(flow) =>
      s' == s.(flows := s.flows - {flow})
    case RotateRead(signature) =>
      var k := Key(RefreshToken, signature);
      Fetch(s.store, k).Ok? && s' == s.(rotations := s.rotations + {Rotation(signature, s.store[k].request)})
    case RotateWrite(rotation, now) =>
      && rotation in s.rotations
      && s' == s.(store := UpdateIfPresent(s.store, Key(RefreshToken, rotation.signature),
                                            Session(rotation.request.(rotatedAt := now))),
                  rotations := s.rotations - {rotation})
    case TouchRead(id) =>
      var k := Key(ClientKind, id);
      Fetch(s.store, k).Ok? && s' == s.(touches := s.touches + {TouchJob(id, s.store[k].client)})
    case TouchWrite(touch, expiresAt) =>
      && touch in s.touches
      && s' == s.(store := Touched(s.store, touch, expiresAt), touches := s.touches - {touch})
    case RegisterClient(client, max, now) =>
      s' == s.(store := Register(s.store, client, max, now).0)
    case DeleteRecord(k) =>
      s' == s.(store := s.store - {k})
    case SweepSessions(cutoffs) =>
      s' == s.(store := ExpireSessions(s.store, cutoffs))
    case SweepClients(now) =>
      s' == s.(store := ExpireClients(s.store, now))
    case RevokeTokens(kind, requestId) =>
      s' == s.(store := DeleteWhere(s.store, kind, (req: Request) => req.id == requestId))
    case RevokeScope(scope) =>
      s' == s.(store := Revoke(s.store, scope).0)
  }

  ghost predicate Run(states: seq<Sys>, steps: seq<Step>) {
    |states| == |steps| + 1 && forall i | 0 <= i < |steps| :: Next(states[i], steps[i], states[i + 1])
  }

  /** The records a flow may write: consent a code and its PKCE session, a code or a refresh token a
      token of either kind, all for the client and grant the flow was begun for. */
  lemma FlowsWriteExactly(s: Sys, flow: Flow, k: Key, request: Request)
    requires flow in s.flows && k !in s.used
    ensures (exists s' :: Next(s, Write(flow, k, request), s')) <==>
            && request.id == flow.request.id
            && (if flow.request.client.Some? then
                  request.client.Some? && request.client.value.id == flow.request.client.value.id
                else request.client.None?)
            && match k.kind
               case AuthorizeCode => flow.source == AuthorizeRequestKind
               case PkceRequest => flow.source == AuthorizeRequestKind
               case AccessToken => flow.source in {AuthorizeCode, RefreshToken}
               case RefreshToken => flow.source in {AuthorizeCode, RefreshToken}
               case _ => false
  {
    var s' := s.(store := s.store[k := Session(request)], used := s.used + {k});
    if request.id == flow.request.id && ClientId(request) == ClientId(flow.request) && Mints(flow.source, k.kind) {
      assert Next(s, Write(flow, k, request), s');
    }
  }

  // -- No resurrection ------------------------------------------------------------------

  /** The steps that may put a record under a key where there is none. */
  predicate Creates(step: Step, k: Key) {
    match step
    case Authorize(id, _) => k == Key(AuthorizeRequestKind, id)
    case Write(_, k', _) => k == k'
    case RegisterClient(client, _, _) => k == Key(ClientKind, client.id)
    case _ => false
  }

  lemma AbsentAfterStep(s: Sys, step: Step, s': Sys, k: Key)
    requires Next(s, step, s') && k !in s.store && !Creates(step, k)
    ensures k !in s'.store
  {
  }

  /** A removed record stays removed until a create or register call writes its key again,
      however rotations and touches that had already read it are interleaved. */
  lemma {:induction false} NoResurrection(states: seq<Sys>, steps: seq<Step>, i: nat, j: nat, k: Key)
    requires Run(states, steps) && i <= j < |states| && k !in states[i].store
    requires forall n | i <= n < j :: !Creates(steps[n], k)
    ensures k !in states[j].store
    decreases j
  {
    hide Next, Creates;
    if i < j {
      NoResurrection(states, steps, i, j - 1, k);
      AbsentAfterStep(states[j - 1], steps[j - 1], states[j], k);
    }
  }

  // -- The kill switch ---------------------------------------------------------------------

  function ClientId(request: Request): Option<string> {
    if request.client.Some? then Some(request.client.value.id) else None
  }

  /** The record falls under the scope: a client's, a grant's, or any. */
  predicate Carries(scope: Scope, k: Key, v: Value) {
    RequestOf(k, v).Some? && Matches(scope, RequestOf(k, v).value)
  }

  predicate HasAccess(s: Sys, scope: Scope) {
    exists k :: k in s.store && k.kind == AccessToken && Carries(scope, k, s.store[k])
  }

  predicate FlowUnderWay(s: Sys, scope: Scope) {
    exists flow :: flow in s.flows && IsSource(flow.source) && Matches(scope, flow.request)
  }

  /** Nothing is left, stored or under way, that could become an access token of the scope. */
  predicate Unmintable(s: Sys, scope: Scope) {
    && (forall k | k in s.store && (k.kind == AccessToken || IsSource(k.kind)) :: !Carries(scope, k, s.store[k]))
    && !FlowUnderWay(s, scope)
  }

  predicate SameOrigin(a: Request, b: Request) {
    a.id == b.id && ClientId(a) == ClientId(b)
  }

  /** A pending rotation still belongs to the client and the grant of the record under its key. */
  ghost predicate Inv(s: Sys) {
    && (forall k | k in s.store && (IsSessionKind(k.kind) || k.kind == AuthorizeRequestKind) :: k in s.used)
    && (forall r | r in s.rotations :: Key(RefreshToken, r.signature) in s.used)
    && (forall r | r in s.rotations && Key(RefreshToken, r.signature) in s.store ::
          s.store[Key(RefreshToken, r.signature)].Session? &&
          SameOrigin(s.store[Key(RefreshToken, r.signature)].request, r.request))
  }

  predicate AuthorizesFor(step: Step, scope: Scope) {
    step.Authorize? && step.ar.request.Some? && Matches(scope, step.ar.request.value)
  }

  /** Steps that only take records away, or write what falls under no scope. */
  predicate Shrinks(s: Sys, s': Sys) {
    && s'.flows <= s.flows && s'.rotations <= s.rotations && s'.used == s.used
    && forall k | k in s'.store :: (k in s.store && s'.store[k] == s.store[k]) || k.kind == ClientKind
  }

  lemma StepShrinks(s: Sys, step: Step, s': Sys)
    requires Next(s, step, s')
    requires !step.Authorize? && !step.Begin? && !step.Write? && !step.RotateRead? && !step.RotateWrite?
    ensures Shrinks(s, s')
  {
    hide Revoked, SessionExpired;
  }

  lemma ShrinkKeepsInv(s: Sys, s': Sys)
    requires Inv(s) && Shrinks(s, s')
    ensures Inv(s')
  {
    hide SameOrigin;
  }

  lemma StepKeepsInv(s: Sys, step: Step, s': Sys)
    requires Inv(s) && Next(s, step, s')
    ensures Inv(s')
  {
    if !step.Authorize? && !step.Begin? && !step.Write? && !step.RotateRead? && !step.RotateWrite? {
      StepShrinks(s, step, s');
      ShrinkKeepsInv(s, s');
    } else {
      hide Revoked, SessionExpired, Touched, Register, ExpireSessions, ExpireClients, DeleteWhere, Revoke;
    }
  }

  const EMPTY := Sys(map[], {}, {}, {}, {})

  /** The invariant holds in every state of every run that starts with an empty store. */
  lemma {:induction false} RunKeepsInv(states: seq<Sys>, steps: seq<Step>, i: nat)
    requires Run(states, steps) && states[0] == EMPTY && i < |states|
    ensures Inv(states[i])
  {
    if i > 0 {
      RunKeepsInv(states, steps, i - 1);
      StepKeepsInv(states[i - 1], steps[i - 1], states[i]);
    }
  }

  lemma OriginDecides(scope: Scope, a: Request, b: Request)
    requires SameOrigin(a, b)
    ensures Matches(scope, a) <==> Matches(scope, b)
  {
  }

  lemma WriteKeepsUnmintable(s: Sys, step: Step, s': Sys, scope: Scope)
    requires Inv(s) && Next(s, step, s') && Unmintable(s, scope) && step.Write?
    ensures Unmintable(s', scope)
  {
    OriginDecides(scope, step.flow.request, step.request);
    hide Matches;
  }

  lemma RotateKeepsUnmintable(s: Sys, step: Step, s': Sys, scope: Scope)
    requires Inv(s) && Next(s, step, s') && Unmintable(s, scope) && step.RotateWrite?
    ensures Unmintable(s', scope)
  {
    var request := step.rotation.request;
    var k := Key(RefreshToken, step.rotation.signature);
    if k in s.store {
      OriginDecides(scope, s.store[k].request, request);
      OriginDecides(scope, request, request.(rotatedAt := step.now));
    }
    hide Matches;
  }

  lemma ShrinkKeepsUnmintable(s: Sys, s': Sys, scope: Scope)
    requires Unmintable(s, scope) && Shrinks(s, s')
    ensures Unmintable(s', scope)
  {
    hide Matches;
  }

  /** No step brings access back where nothing is left to bring it. */
  lemma UnmintableAfterStep(s: Sys, step: Step, s': Sys, scope: Scope)
    requires Inv(s) && Next(s, step, s') && Unmintable(s, scope) && !AuthorizesFor(step, scope)
    ensures Unmintable(s', scope)
  {
    if step.Write? {
      WriteKeepsUnmintable(s, step, s', scope);
    } else if step.RotateWrite? {
      RotateKeepsUnmintable(s, step, s', scope);
    } else if !step.Authorize? && !step.Begin? && !step.RotateRead? {
      StepShrinks(s, step, s');
      ShrinkKeepsUnmintable(s, s', scope);
    } else {
      hide Matches, Inv;
    }
  }

  lemma {:induction false} UnmintableAfterRun(states: seq<Sys>, steps: seq<Step>, i: nat, scope: Scope)
    requires Run(states, steps) && i < |states| && Inv(states[0]) && Unmintable(states[0], scope)
    requires forall n | 0 <= n < i :: !AuthorizesFor(steps[n], scope)
    ensures Inv(states[i]) && Unmintable(states[i], scope)
  {
    if i > 0 {
      UnmintableAfterRun(states, steps, i - 1, scope);
      StepKeepsInv(states[i - 1], steps[i - 1], states[i]);
      UnmintableAfterStep(states[i - 1], steps[i - 1], states[i], scope);
    }
  }

  /** No continuation without a new authorize request in the scope ever holds an access token record
      of it. */
  ghost predicate StaysDead(s: Sys, scope: Scope) {
    forall states: seq<Sys>, steps: seq<Step>, i: nat |
      && Run(states, steps) && states[0] == s && i < |states|
      && (forall n | 0 <= n < i :: !AuthorizesFor(steps[n], scope)) ::
      !HasAccess(states[i], scope)
  }

  lemma UnmintableStaysDead(s: Sys, scope: Scope)
    requires Inv(s) && Unmintable(s, scope)
    ensures StaysDead(s, scope)
  {
    forall states: seq<Sys>, steps: seq<Step>, i: nat |
      Run(states, steps) && states[0] == s && i < |states| && (forall n | 0 <= n < i :: !AuthorizesFor(steps[n], scope))
      ensures !HasAccess(states[i], scope)
    {
      UnmintableAfterRun(states, steps, i, scope);
    }
  }

  // -- What is left over does come back ------------------------------------------------------

  function Repeat(n: nat): (s: string)
    ensures |s| == n
  {
    if n == 0 then "" else Repeat(n - 1) + "x"
  }

  lemma {:induction false} UnusedKey(used: set<Key>, kind: Kind) returns (n: nat)
    ensures forall m: nat | m >= n :: Key(kind, Repeat(m)) !in used
    decreases |used|
  {
    if used == {} {
      n := 0;
    } else {
      var k :| k in used;
      n := UnusedKey(used - {k}, kind);
      n := if n > |k.id| then n else |k.id| + 1;
      forall m: nat | m >= n ensures Key(kind, Repeat(m)) !in used {
        assert Key(kind, Repeat(m)) !in used - {k};
      }
    }
  }

  /** A flow of the client that is under way can still write an access token. */
  lemma FlowRevives(s: Sys, flow: Flow, scope: Scope)
    requires flow in s.flows && IsSource(flow.source) && Matches(scope, flow.request)
    ensures !StaysDead(s, scope)
  {
    var request := flow.request;
    if flow.source == AuthorizeRequestKind {
      var n := UnusedKey(s.used, AuthorizeCode);
      var code := Key(AuthorizeCode, Repeat(n));
      var s1 := s.(store := s.store[code := Session(request)], used := s.used + {code});
      var s2 := s1.(flows := s1.flows + {Flow(AuthorizeCode, request)});
      assert Next(s, Write(flow, code, request), s1) && Next(s1, Begin(code), s2);
      var m := UnusedKey(s2.used, AccessToken);
      var token := Key(AccessToken, Repeat(m));
      var s3 := s2.(store := s2.store[token := Session(request)], used := s2.used + {token});
      var steps := [Write(flow, code, request), Begin(code), Write(Flow(AuthorizeCode, request), token, request)];
      assert Next(s2, steps[2], s3);
      Revived([s, s1, s2, s3], steps, token, scope);
    } else {
      var m := UnusedKey(s.used, AccessToken);
      var token := Key(AccessToken, Repeat(m));
      var s1 := s.(store := s.store[token := Session(request)], used := s.used + {token});
      assert Next(s, Write(flow, token, request), s1);
      Revived([s, s1], [Write(flow, token, request)], token, scope);
    }
  }

  lemma Revived(states: seq<Sys>, steps: seq<Step>, token: Key, scope: Scope)
    requires Run(states, steps) && forall n | 0 <= n < |steps| :: !AuthorizesFor(steps[n], scope)
    requires token.kind == AccessToken && token in states[|steps|].store
    requires Carries(scope, token, states[|steps|].store[token])
    ensures !StaysDead(states[0], scope)
  {
    assert HasAccess(states[|steps|], scope);
  }

  /** So can a stored record that is one or two flows away from an access token. */
  lemma RecordRevives(s: Sys, k: Key, scope: Scope)
    requires k in s.store && (k.kind == AccessToken || IsSource(k.kind)) && Carries(scope, k, s.store[k])
    ensures !StaysDead(s, scope)
  {
    if k.kind == AccessToken {
      Revived([s], [], k, scope);
    } else {
      var flow := Flow(k.kind, RequestOf(k, s.store[k]).value);
      var s' := s.(flows := s.flows + {flow});
      assert Next(s, Begin(k), s');
      FlowRevives(s', flow, scope);
      if StaysDead(s, scope) {
        DeadStaysDead(s, Begin(k), s', scope);
      }
    }
  }

  lemma DeadStaysDead(s: Sys, step: Step, s': Sys, scope: Scope)
    requires Next(s, step, s') && !AuthorizesFor(step, scope) && StaysDead(s, scope)
    ensures StaysDead(s', scope)
  {
    hide Next, HasAccess, AuthorizesFor;
    forall states: seq<Sys>, steps: seq<Step>, i: nat |
      && Run(states, steps) && states[0] == s' && i < |states|
      && (forall n | 0 <= n < i :: !AuthorizesFor(steps[n], scope))
      ensures !HasAccess(states[i], scope)
    {
      var states', steps' := [s] + states, [step] + steps;
      assert Run(states', steps');
      assert forall n | 0 <= n < i + 1 :: !AuthorizesFor(steps'[n], scope);
      assert states'[i + 1] == states[i];
    }
  }

  /** A client stays without access exactly when no token, refresh token, code or pending
      authorize request of it is stored and no flow of it is under way. */
  lemma StaysDeadExactly(s: Sys, scope: Scope)
    requires Inv(s)
    ensures StaysDead(s, scope) <==> Unmintable(s, scope)
  {
    if Unmintable(s, scope) {
      UnmintableStaysDead(s, scope);
    } else if k :| k in s.store && (k.kind == AccessToken || IsSource(k.kind)) && Carries(scope, k, s.store[k]) {
      RecordRevives(s, k, scope);
    } else {
      var flow :| flow in s.flows && IsSource(flow.source) && Matches(scope, flow.request);
      FlowRevives(s, flow, scope);
    }
  }

  /** Revoking `taken` takes everything in `scope`: the scope itself, or any under the panic revoke. */
  predicate Covers(taken: Scope, scope: Scope) {
    taken == scope || taken == Everything
  }

  /** After a successful revocation of a client, of a grant or of everything, its scope stays without
      access until a new authorize request in it, exactly unless one of its flows had already read
      its record. */
  lemma RevokeKills(s: Sys, taken: Scope, scope: Scope)
    requires Inv(s) && Revoke(s.store, taken).1.Ok? && Covers(taken, scope)
    ensures var s' := s.(store := Revoke(s.store, taken).0);
            Next(s, RevokeScope(taken), s') && (StaysDead(s', scope) <==> !FlowUnderWay(s, scope))
  {
    var s' := s.(store := Revoke(s.store, taken).0);
    assert Next(s, RevokeScope(taken), s');
    StepKeepsInv(s, RevokeScope(taken), s');
    RevokeLeavesNothing(s.store, taken, scope);
    StaysDeadExactly(s', scope);
  }

  lemma RevokeLeavesNothing(store: Store, taken: Scope, scope: Scope)
    requires Revoke(store, taken).1.Ok? && Covers(taken, scope)
    ensures forall k | k in Revoke(store, taken).0 :: !Carries(scope, k, Revoke(store, taken).0[k])
  {
  }

  /** From an open flow alone: a code, and from the code an access token. */
  lemma FlowMints(s: Sys, asks: Flow) returns (states: seq<Sys>, steps: seq<Step>)
    requires s.store == map[] && asks in s.flows && asks.source == AuthorizeRequestKind
    requires Key(AuthorizeCode, "c") !in s.used && Key(AccessToken, "t") !in s.used
    ensures Run(states, steps) && states[0] == s && |steps| == 3
    ensures forall n | 0 <= n < 3 :: !steps[n].Authorize?
    ensures states[3].store == map[Key(AuthorizeCode, "c") := Session(asks.request),
                                   Key(AccessToken, "t") := Session(asks.request)]
  {
    var request, code, token := asks.request, Key(AuthorizeCode, "c"), Key(AccessToken, "t");
    var redeems := Flow(AuthorizeCode, request);
    var s1 := s.(store := map[code := Session(request)], used := s.used + {code});
    var s2 := s1.(flows := s1.flows + {redeems});
    var s3 := s2.(store := map[code := Session(request), token := Session(request)], used := s2.used + {token});
    states, steps := [s, s1, s2, s3], [Write(asks, code, request), Begin(code), Write(redeems, token, request)];
    assert Next(s, steps[0], s1) && Next(s1, steps[1], s2) && Next(s2, steps[2], s3);
  }

  lemma RunsJoin(a: seq<Sys>, p: seq<Step>, b: seq<Sys>, q: seq<Step>)
    requires Run(a, p) && Run(b, q) && a[|p|] == b[0]
    ensures Run(a + b[1..], p + q)
  {
    hide Next;
    var states, steps := a + b[1..], p + q;
    forall i | 0 <= i < |steps|
      ensures Next(states[i], steps[i], states[i + 1])
    {
      assert i >= |p| ==> states[i] == b[i - |p|] && states[i + 1] == b[i + 1 - |p|] && steps[i] == q[i - |p|];
    }
  }

  /** A revoke that misses an open flow, from an empty store: the flow reads the pending request, the
      client is revoked, and the flow still writes its code, which becomes an access token. */
  lemma RevokeMissesOpenFlow(ar: AuthorizeRequest, client: string) returns (states: seq<Sys>, steps: seq<Step>)
    requires ar.request.Some? && ClientId(ar.request.value) == Some(client)
    ensures Run(states, steps) && states[0] == EMPTY && |steps| == 6
    ensures steps[2] == RevokeScope(OfClient(client)) && Revoke(states[2].store, OfClient(client)).1.Ok?
    ensures forall n | 2 <= n < 6 :: !steps[n].Authorize?
    ensures !HasAccess(states[3], OfClient(client)) && HasAccess(states[6], OfClient(client))
  {
    var asked := Key(AuthorizeRequestKind, "r");
    var asks := Flow(AuthorizeRequestKind, ar.request.value);
    var s1 := EMPTY.(store := map[asked := Pending(ar)], used := {asked});
    var s2 := s1.(flows := {asks});
    var s3 := s2.(store := map[]);
    OnlyRecordGoes(asked, ar, client);
    var revokes := RevokeScope(OfClient(client));
    assert Next(EMPTY, Authorize("r", ar), s1) && Next(s1, Begin(asked), s2) && Next(s2, revokes, s3);
    var more, mints := FlowMints(s3, asks);
    hide Next;
    RunsJoin([EMPTY, s1, s2, s3], [Authorize("r", ar), Begin(asked), revokes], more, mints);
    states, steps := [EMPTY, s1, s2, s3] + more[1..], [Authorize("r", ar), Begin(asked), revokes] + mints;
    var token := Key(AccessToken, "t");
    assert Carries(OfClient(client), token, states[6].store[token]);
  }

  lemma OnlyRecordGoes(asked: Key, ar: AuthorizeRequest, client: string)
    requires asked.kind == AuthorizeRequestKind && ar.request.Some? && ClientId(ar.request.value) == Some(client)
    ensures Revoke(map[asked := Pending(ar)], OfClient(client)) == (map[], Ok(1))
  {
    var store: Store := map[asked := Pending(ar)];
    assert RevokedKeys(store, OfClient(client)) == {asked};
    assert store - {asked} == map[];
  }
}
