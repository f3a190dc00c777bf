/** What each repository operation means, on a finite map from typed keys to stored values.
    Both backends are proved against these functions. */
module StoreSpec {
  import opened Wrappers
  import opened Records

  type Store = map<Key, Value>

  datatype StoreError = NotFound | Undecodable | CapReached

  // -- Sessions -------------------------------------------------------------------

  function Fetch(store: Store, k: Key): Result<Value, StoreError> {
    if k !in store then Err(NotFound)
    else if Decodes(k.kind, store[k]) then Ok(store[k])
    else Err(Undecodable)
  }

  /** The value is what the code reading this kind of key expects. */
  predicate Decodes(kind: Kind, v: Value) {
    if IsSessionKind(kind) then v.Session?
    else match kind
      case AuthorizeRequestKind => v.Pending?
      case ClientKind => v.Registration?
      case _ => v.Account?
  }

  /** An update writes only over a key that is still there. */
  function UpdateIfPresent(store: Store, k: Key, v: Value): Store {
    if k in store then store[k := v] else store
  }

  function DeleteWhere(store: Store, kind: Kind, match_: Request -> bool): Store {
    map k | k in store && !(k.kind == kind && store[k].Session? && match_(store[k].request)) :: store[k]
  }

  /** The cutoffs of one expiry sweep. */
  datatype Cutoffs = Cutoffs(accessBefore: int, refreshBefore: int, codeBefore: int)

  function CutoffFor(c: Cutoffs, kind: Kind): int {
    match kind
    case AccessToken => c.accessBefore
    case RefreshToken => c.refreshBefore
    case _ => c.codeBefore
  }

  predicate SessionExpired(c: Cutoffs, k: Key, v: Value) {
    || (IsSessionKind(k.kind) && v.Session? && v.request.requestedAt < CutoffFor(c, k.kind))
    || (k.kind == AuthorizeRequestKind &&
        (!v.Pending? || v.ar.request.None? || v.ar.request.value.requestedAt < c.codeBefore))
  }

  /** The sweep of some of the kinds. */
  function ExpireKinds(store: Store, c: Cutoffs, kinds: seq<Kind>): Store {
    map k | k in store && !(k.kind in kinds && SessionExpired(c, k, store[k])) :: store[k]
  }

  const SESSION_KINDS := [AccessToken, RefreshToken, AuthorizeCode, PkceRequest]

  function ExpireSessions(store: Store, c: Cutoffs): Store {
    ExpireKinds(store, c, SESSION_KINDS + [AuthorizeRequestKind])
  }

  /** Marks a refresh token as rotated; the record and its key stay. */
  function Rotate(store: Store, signature: string, now: nat): (Store, Result<(), StoreError>) {
    var k := Key(RefreshToken, signature);
    match Fetch(store, k)
    case Err(e) => (store, Err(e))
    case Ok(v) => (store[k := v.(request := v.request.(rotatedAt := now))], Ok(()))
  }

  // -- Registrations ---------------------------------------------------------------

  predicate Unexpired(client: Client, now: nat) {
    client.expiresAt == 0 || client.expiresAt > now
  }

  function LiveClients(store: Store, now: nat): set<Key> {
    set k | k in store && k.kind == ClientKind && store[k].Registration? && Unexpired(store[k].client, now)
  }

  /** `max <= 0` means unlimited; a registration under a stored ID replaces it in place. */
  function Register(store: Store, client: Client, max: int, now: nat): (Store, Result<(), StoreError>) {
    var k := Key(ClientKind, client.id);
    if max > 0 && k !in store && |LiveClients(store, now)| >= max then (store, Err(CapReached))
    else (store[k := Registration(client)], Ok(()))
  }

  function Touch(store: Store, id: string, expiresAt: nat): (Store, Result<(), StoreError>) {
    var k := Key(ClientKind, id);
    match Fetch(store, k)
    case Err(e) => (store, Err(e))
    case Ok(v) =>
      if v.client.expiresAt == 0 then (store, Ok(()))
      else (store[k := Registration(v.client.(expiresAt := expiresAt))], Ok(()))
  }

  /** A registration is stored under its own ID. */
  predicate IdsMatch(store: Store) {
    forall k | k in store && k.kind == ClientKind && store[k].Registration? :: store[k].client.id == k.id
  }

  /** An expired registration is absent to a lookup, swept or not. */
  function Lookup(store: Store, id: string, now: nat): Result<Client, StoreError> {
    match Fetch(store, Key(ClientKind, id))
    case Err(e) => Err(e)
    case Ok(v) => if v.client.expiresAt != 0 && v.client.expiresAt < now then Err(NotFound) else Ok(v.client)
  }

  predicate Overdue(client: Client, now: nat) {
    client.expiresAt != 0 && client.expiresAt < now
  }

  function ExpireClients(store: Store, now: nat): Store {
    map k | k in store && !(k.kind == ClientKind && store[k].Registration? && Overdue(store[k].client, now)) :: store[k]
  }

  // -- Revocation -------------------------------------------------------------------

  datatype Scope = OfClient(clientId: string) | OfGrant(requestId: string) | Everything

  predicate Matches(scope: Scope, req: Request) {
    match scope
    case OfClient(clientId) => req.client.Some? && req.client.value.id == clientId
    case OfGrant(requestId) => req.id == requestId
    case Everything => true
  }

  /** The request a session or pending record carries. */
  function RequestOf(k: Key, v: Value): Option<Request> {
    if IsSessionKind(k.kind) && v.Session? then Some(v.request)
    else if k.kind == AuthorizeRequestKind && v.Pending? then v.ar.request
    else None
  }

  predicate Revoked(scope: Scope, k: Key, v: Value) {
    || (RequestOf(k, v).Some? && Matches(scope, RequestOf(k, v).value))
    || (k.kind == ClientKind && (scope == OfClient(k.id) || scope == Everything))
  }

  function RevokedKeys(store: Store, scope: Scope): set<Key> {
    set k | k in store && Revoked(scope, k, store[k])
  }

  predicate AllDecode(store: Store, kind: Kind) {
    forall k | k in store && k.kind == kind :: Decodes(kind, store[k])
  }

  predicate SessionsDecode(store: Store) {
    forall k | k in store && (IsSessionKind(k.kind) || k.kind == AuthorizeRequestKind) :: Decodes(k.kind, store[k])
  }

  /** All or nothing: one record that cannot be read stops the whole sweep. */
  function Revoke(store: Store, scope: Scope): (Store, Result<nat, StoreError>) {
    if !SessionsDecode(store) || (scope == Everything && !AllDecode(store, ClientKind)) then (store, Err(Undecodable))
    else (store - RevokedKeys(store, scope), Ok(|RevokedKeys(store, scope)|))
  }

  // -- What a revocation guarantees -----------------------------------------------------

  lemma {:induction false} RemovalCount(store: Store, ks: set<Key>)
    requires ks <= store.Keys
    ensures |store - ks| == |store| - |ks|
  {
    assert (store - ks).Keys == store.Keys - ks;
    assert |store.Keys - ks| == |store.Keys| - |ks|;
    assert |(store - ks).Keys| == |store - ks| && |store.Keys| == |store|;
  }

  /** A successful revocation removes exactly what its scope names, reports the exact drop in
      the size of the store, and touches nothing else; a failed one changes nothing. */
  lemma RevokeIsExact(store: Store, scope: Scope)
    ensures Revoke(store, scope).1.Err? ==> Revoke(store, scope).0 == store
    ensures Revoke(store, scope).1.Ok? ==> |Revoke(store, scope).0| == |store| - Revoke(store, scope).1.value
    ensures Revoke(store, scope).1.Ok? ==>
              forall k :: k in Revoke(store, scope).0 <==> k in store && !Revoked(scope, k, store[k])
    ensures forall k | k in Revoke(store, scope).0 :: Revoke(store, scope).0[k] == store[k]
  {
    RemovalCount(store, RevokedKeys(store, scope));
  }

  /** The operator account, passkeys and schema marker survive every scope. */
  lemma RevokeKeepsAccounts(store: Store, scope: Scope, k: Key)
    requires k.kind in {UserKind, CredentialKind, MetaKind}
    ensures k in Revoke(store, scope).0 <==> k in store
    ensures k in store ==> Revoke(store, scope).0[k] == store[k]
  {
    RevokeIsExact(store, scope);
  }

  predicate Distinct<T(==)>(s: seq<T>) {
    forall i, j | 0 <= i < j < |s| :: s[i] != s[j]
  }

  function Elements<T(==)>(s: seq<T>): set<T> {
    set x | x in s
  }

  lemma {:induction false} DistinctCount<T>(s: seq<T>)
    requires Distinct(s)
    ensures |Elements(s)| == |s|
  {
    if s != [] {
      var init, last := s[..|s| - 1], s[|s| - 1];
      DistinctCount(init);
      assert Elements(s) == Elements(init) + {last};
    }
  }

  lemma DistinctUnion<T>(a: seq<T>, b: seq<T>)
    requires Distinct(a) && Distinct(b) && forall x | x in a :: x !in b
    ensures Distinct(a + b)
  {
    forall i, j | 0 <= i < j < |a + b| ensures (a + b)[i] != (a + b)[j] {
      if i < |a| <= j {
        assert a[i] in a && b[j - |a|] in b;
      }
    }
  }
}
