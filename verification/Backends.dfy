/** The two backends side by side: the same calls give the same answers and leave the same records. */
module Backends {
  import opened Wrappers
  import opened Records
  import opened StoreSpec
  import opened Inventory
  import opened Listing
  import opened TableLists
  import opened KvsStore
  import opened SqlStore

  datatype Op =
    | Create(k: Key, v: Value)
    | Get(k: Key)
    | Remove(k: Key)
    | RotateToken(signature: string, now: nat)
    | RevokeGrantTokens(kind: Kind, requestId: string)
    | RegisterClientOp(client: Client, max: int, now: nat)
    | GetClientOp(id: string, now: nat)
    | TouchClientOp(id: string, expiresAt: nat)
    | CountClientsOp(now: nat)
    | SweepClients(now: nat)
    | RevokeOp(scope: Scope)
    | ListOp(now: nat)

  datatype Answer =
    | Outcome(result: Result<(), StoreError>)
    | Found(value: Result<Value, StoreError>)
    | FoundClient(client: Result<Client, StoreError>)
    | Counted(count: nat)
    | Deleted(deleted: Result<nat, StoreError>)
    | Rows(rows: Result<seq<ClientGrants>, StoreError>)

  predicate IsRecordKind(kind: Kind) {
    IsSessionKind(kind) || kind == AuthorizeRequestKind
  }

  predicate WellFormed(op: Op) {
    match op
    case Create(k, v) => IsRecordKind(k.kind) && Decodes(k.kind, v)
    case Get(k) => IsRecordKind(k.kind)
    case Remove(k) => IsRecordKind(k.kind)
    case RevokeGrantTokens(kind, _) => kind in {AccessToken, RefreshToken}
    case RevokeOp(scope) => scope != OfClient("")
    case _ => true
  }

  /** Every stored record decodes and every registration is stored under its own ID. */
  predicate Tidy(store: Store) {
    && IdsMatch(store)
    && forall k | k in store && (IsRecordKind(k.kind) || k.kind == ClientKind) :: Decodes(k.kind, store[k])
  }

  /** What a call other than a listing does and answers. */
  function Exec(store: Store, op: Op): (Store, Answer)
    requires !op.ListOp?
  {
    match op
    case Create(k, v) => (store[k := v], Outcome(Ok(())))
    case Get(k) => (store, Found(Fetch(store, k)))
    case Remove(k) => (store - {k}, Outcome(Ok(())))
    case RotateToken(signature, now) => var (s, r) := Rotate(store, signature, now); (s, Outcome(r))
    case RevokeGrantTokens(kind, requestId) =>
      (DeleteWhere(store, kind, (req: Request) => req.id == requestId), Outcome(Ok(())))
    case RegisterClientOp(client, max, now) => var (s, r) := Register(store, client, max, now); (s, Outcome(r))
    case GetClientOp(id, now) => (store, FoundClient(Lookup(store, id, now)))
    case TouchClientOp(id, expiresAt) => var (s, r) := Touch(store, id, expiresAt); (s, Outcome(r))
    case CountClientsOp(now) => (store, Counted(|LiveClients(store, now)|))
    case SweepClients(now) => (ExpireClients(store, now), Outcome(Ok(())))
    case RevokeOp(scope) => var (s, r) := Revoke(store, scope); (s, Deleted(r))
  }

  function StateAfter(store: Store, ops: seq<Op>): Store {
    if ops == [] then store
    else
      var before, op := StateAfter(store, ops[..|ops| - 1]), ops[|ops| - 1];
      if op.ListOp? then before else Exec(before, op).0
  }

  lemma ExecKeepsTidy(store: Store, op: Op)
    requires Tidy(store) && WellFormed(op) && !op.ListOp?
    ensures Tidy(Exec(store, op).0)
  {
  }

  /** On tidy stores both revocations are the same function. */
  lemma TidyRevocationsAgree(store: Store, scope: Scope)
    requires Tidy(store) && scope != OfClient("")
    ensures RevokeRows(store, scope) == Revoke(store, scope)
  {
    RevocationsAgreeExactly(store, scope);
  }

  lemma TidyMatches(store: Store)
    requires Tidy(store)
    ensures IdsMatch(store)
  {
  }

  method ApplyKvs(r: KvsRepository, op: Op) returns (a: Answer)
    requires r.Valid() && WellFormed(op) && Tidy(r.store)
    modifies r
    ensures r.Valid()
    ensures !op.ListOp? ==> (r.store, a) == Exec(old(r.store), op)
    ensures op.ListOp? ==>
              r.store == old(r.store) && a.Rows? && a.rows.Ok? && IsTableList(a.rows.value, r.store, op.now)
  {
    hide r.Valid;
    match op {
      case Create(k, v) => r.Put(k, v); a := Outcome(Ok(()));
      case Get(k) => var v := r.Get(k); a := Found(v);
      case Remove(k) => r.Delete(k); a := Outcome(Ok(()));
      case RotateToken(signature, now) => var x := r.RotateRefreshToken(signature, now); a := Outcome(x);
      case RevokeGrantTokens(kind, requestId) => r.RevokeTokens(kind, requestId); a := Outcome(Ok(()));
      case RegisterClientOp(client, max, now) => var x := r.RegisterClient(client, max, now); a := Outcome(x);
      case GetClientOp(id, now) => var x := r.GetClient(id, now); a := FoundClient(x);
      case TouchClientOp(id, expiresAt) => var x := r.TouchClient(id, expiresAt); a := Outcome(x);
      case CountClientsOp(now) => var n := r.CountLiveClients(now); a := Counted(n);
      case SweepClients(now) => r.DeleteExpiredClients(now); a := Outcome(Ok(()));
      case RevokeOp(scope) => var x := r.RevokeScope(scope); a := Deleted(x);
      case ListOp(now) =>
        var x := r.ListClientGrants(now);
        ScannedIsTableList(x.value, r.store, now);
        a := Rows(x);
    }
  }

  method ApplySql(r: SqlRepository, op: Op) returns (a: Answer)
    requires r.Valid() && WellFormed(op) && Tidy(r.Content())
    modifies r
    ensures r.Valid()
    ensures !op.ListOp? ==> (r.Content(), a) == Exec(old(r.Content()), op)
    ensures op.ListOp? ==>
              r.Content() == old(r.Content()) && a.Rows? && a.rows.Ok? && IsTableList(a.rows.value, r.Content(), op.now)
  {
    match op {
      case Create(k, v) => r.Upsert(k, v); a := Outcome(Ok(()));
      case Get(k) => var v := r.First(k); a := Found(v);
      case Remove(k) => r.Delete(k); a := Outcome(Ok(()));
      case RotateToken(signature, now) => var x := r.RotateRefreshToken(signature, now); a := Outcome(x);
      case RevokeGrantTokens(kind, requestId) => r.RevokeTokens(kind, requestId); a := Outcome(Ok(()));
      case RegisterClientOp(client, max, now) => var x := r.RegisterClient(client, max, now); a := Outcome(x);
      case GetClientOp(id, now) => var x := r.GetClient(id, now); a := FoundClient(x);
      case TouchClientOp(id, expiresAt) => var x := r.TouchClient(id, expiresAt); a := Outcome(x);
      case CountClientsOp(now) => var n := r.CountLiveClients(now); a := Counted(n);
      case SweepClients(now) => r.DeleteExpiredClients(now); a := Outcome(Ok(()));
      case RevokeOp(scope) =>
        TidyRevocationsAgree(r.Content(), scope);
        var x := r.RevokeScope(scope);
        a := Deleted(x);
      case ListOp(now) => var x := r.ListClientGrants(now); a := Rows(x);
    }
  }

  /** For every sequence of calls, the answers are equal one by one and the records stay equal.
      A listing is compared where the tables leave nothing to the order of their rows. */
  method RunBoth(kvs: KvsRepository, sql: SqlRepository, ops: seq<Op>) returns (a: seq<Answer>, b: seq<Answer>)
    requires kvs.Valid() && sql.Valid() && kvs.store == sql.Content() && Tidy(kvs.store)
    requires forall op | op in ops :: WellFormed(op)
    modifies kvs, sql
    ensures kvs.Valid() && sql.Valid() && kvs.store == sql.Content() == StateAfter(old(kvs.store), ops)
    ensures |a| == |b| == |ops|
    ensures forall i | 0 <= i < |ops| ::
              a[i] == b[i] || (ops[i].ListOp? && !StoreAgrees(StateAfter(old(kvs.store), ops[..i])))
  {
    hide Exec, Tidy, IsTableList, WellFormed, StoreAgrees, Rotate, IdsMatch, ListDecodes;
    a, b := [], [];
    for i := 0 to |ops|
      invariant kvs.Valid() && sql.Valid()
      invariant kvs.store == sql.Content() == StateAfter(old(kvs.store), ops[..i]) && Tidy(kvs.store)
      invariant |a| == |b| == i
      invariant forall j | 0 <= j < i ::
                  a[j] == b[j] || (ops[j].ListOp? && !StoreAgrees(StateAfter(old(kvs.store), ops[..j])))
    {
      var op := ops[i];
      assert ops[..i + 1][..i] == ops[..i] && op in ops;
      if !op.ListOp? {
        ExecKeepsTidy(kvs.store, op);
      }
      var x := ApplyKvs(kvs, op);
      var y := ApplySql(sql, op);
      if op.ListOp? && StoreAgrees(kvs.store) {
        TidyMatches(kvs.store);
        TableListIsDetermined(x.rows.value, y.rows.value, kvs.store, op.now);
      }
      a, b := a + [x], b + [y];
    }
    assert ops[..|ops|] == ops;
  }
}
