/** The SQL backend: rows addressed by table and primary key, each with the serialised record and,
    in the two token tables, a copy of its request ID in a column of its own. */
module SqlStore {
  import opened Wrappers
  import opened Records
  import opened StoreSpec
  import opened Inventory
  import opened Listing
  import opened ListingFeed

  datatype Row = Row(requestId: string, blob: Value)

  /** What a revocation deletes here: unlike the bucket, an empty client ID names no registration. */
  predicate RevokedRow(scope: Scope, k: Key, v: Value) {
    || (RequestOf(k, v).Some? && Matches(scope, RequestOf(k, v).value))
    || (k.kind == ClientKind && ((scope == OfClient(k.id) && k.id != "") || scope == Everything))
  }

  function RevokedRows(store: Store, scope: Scope): set<Key> {
    set k | k in store && RevokedRow(scope, k, store[k])
  }

  /** Registrations are deleted without being decoded. */
  function RevokeRows(store: Store, scope: Scope): (Store, Result<nat, StoreError>) {
    if !SessionsDecode(store) then (store, Err(Undecodable))
    else (store - RevokedRows(store, scope), Ok(|RevokedRows(store, scope)|))
  }

  /** The two backends answer a revocation alike exactly when it is not for an empty client ID
      that is registered, and not a total one over an undecodable registration. */
  lemma RevocationsAgreeExactly(store: Store, scope: Scope)
    ensures RevokeRows(store, scope) == Revoke(store, scope) <==>
            || !SessionsDecode(store)
            || (&& (scope == OfClient("") ==> Key(ClientKind, "") !in store)
                && (scope == Everything ==> AllDecode(store, ClientKind)))
  {
    hide SessionsDecode, AllDecode;
    if SessionsDecode(store) && scope != Everything {
      var kvs, sql := RevokedKeys(store, scope), RevokedRows(store, scope);
      var odd := Key(ClientKind, "");
      if scope == OfClient("") && odd in store {
        assert odd in kvs && odd !in sql;
        assert odd !in store - kvs && odd in store - sql;
      } else {
        assert kvs == sql;
      }
    } else if SessionsDecode(store) {
      assert RevokedKeys(store, scope) == RevokedRows(store, scope);
    }
  }

  function RegistrationsIn(store: Store, scope: Scope): set<Key> {
    set k | k in store && k.kind == ClientKind && RevokedRow(scope, k, store[k])
  }

  lemma RevokedInTwoParts(store: Store, scope: Scope, sessions: seq<Key>)
    requires Distinct(sessions)
    requires forall k :: k in sessions <==> k in store && k.kind != ClientKind && RevokedRow(scope, k, store[k])
    ensures var left := store - Elements(sessions);
            left - RegistrationsIn(left, scope) == store - RevokedRows(store, scope) &&
            |sessions| + |RegistrationsIn(left, scope)| == |RevokedRows(store, scope)|
  {
    hide RevokedRow;
    DistinctCount(sessions);
    hide Distinct;
    var gone := RegistrationsIn(store - Elements(sessions), scope);
    assert Elements(sessions) !! gone;
    assert Elements(sessions) + gone == RevokedRows(store, scope);
  }

  class SqlRepository {
    var rows: map<Key, Row>

    function Content(): Store
      reads this
    {
      map k | k in rows :: rows[k].blob
    }

    /** The request_id column repeats the ID inside the record, and a registration's primary key
        repeats the ID inside its record. */
    ghost predicate Valid()
      reads this
    {
      && (forall k | k in rows && rows[k].blob.Session? && k.kind in {AccessToken, RefreshToken} ::
            rows[k].requestId == rows[k].blob.request.id)
      && (forall k | k in rows && k.kind == ClientKind && rows[k].blob.Registration? :: rows[k].blob.client.id == k.id)
    }

    constructor ()
      ensures Valid() && Content() == map[]
    {
      rows := map[];
    }

    /** Insert, or replace every column of the row with that primary key. */
    method Upsert(k: Key, v: Value)
      requires Valid()
      requires k.kind == ClientKind && v.Registration? ==> v.client.id == k.id
      modifies this
      ensures Valid() && Content() == old(Content())[k := v]
    {
      rows := rows[k := Row(if v.Session? then v.request.id else "", v)];
    }

    /** Replaces the serialised record only; the other columns stay. No row, no effect. */
    method UpdateBlob(k: Key, v: Value)
      requires Valid()
      requires k in rows && k.kind in {AccessToken, RefreshToken} && v.Session? ==> rows[k].requestId == v.request.id
      requires k.kind == ClientKind && v.Registration? ==> v.client.id == k.id
      modifies this
      ensures Valid() && Content() == UpdateIfPresent(old(Content()), k, v)
    {
      if k in rows {
        rows := rows[k := rows[k].(blob := v)];
      }
      assert Content() == UpdateIfPresent(old(Content()), k, v);
    }

    method First(k: Key) returns (r: Result<Value, StoreError>)
      ensures r == Fetch(Content(), k)
    {
      if k !in rows {
        return Err(NotFound);
      }
      return if Decodes(k.kind, rows[k].blob) then Ok(rows[k].blob) else Err(Undecodable);
    }

    method Delete(k: Key)
      requires Valid()
      modifies this
      ensures Valid() && rows == old(rows) - {k} && Content() == old(Content()) - {k}
    {
      rows := rows - {k};
    }

    /** All rows of a table, in any order. */
    method Find(kind: Kind) returns (ids: seq<string>)
      ensures forall id :: id in ids <==> Key(kind, id) in Content()
      ensures Distinct(ids)
    {
      ids := [];
      var left := set k | k in rows && k.kind == kind;
      while left != {}
        invariant left <= rows.Keys && forall k | k in left :: k.kind == kind
        invariant forall id :: id in ids <==> Key(kind, id) in rows.Keys - left
        invariant Distinct(ids)
        decreases left
      {
        var k :| k in left;
        left := left - {k};
        ids := ids + [k.id];
      }
    }

    /** By the request_id column, whether or not the record decodes: where an undecodable row carries
        the ID in its column, this deletes what the bucket steps over. */
    method RevokeTokens(kind: Kind, requestId: string)
      requires Valid() && kind in {AccessToken, RefreshToken}
      modifies this
      ensures Valid()
      ensures forall k :: k in rows <==> k in old(rows) && !(k.kind == kind && old(rows)[k].requestId == requestId)
      ensures forall k | k in rows :: rows[k] == old(rows)[k]
      ensures Content() == DeleteWhere(old(Content()), kind, (req: Request) => req.id == requestId) <==>
              forall k | k in old(rows) && k.kind == kind && !Decodes(kind, old(rows)[k].blob) ::
                old(rows)[k].requestId != requestId
    {
      ghost var before := rows;
      ghost var expected := DeleteWhere(Content(), kind, (req: Request) => req.id == requestId);
      rows := map k | k in rows && !(k.kind == kind && rows[k].requestId == requestId) :: rows[k];
      if k :| k in before && k.kind == kind && !before[k].blob.Session? && before[k].requestId == requestId {
        assert k in expected && k !in Content();
      } else {
        assert Content() == expected;
      }
    }

    method RotateRefreshToken(signature: string, now: nat) returns (r: Result<(), StoreError>)
      requires Valid()
      modifies this
      ensures Valid() && (Content(), r) == Rotate(old(Content()), signature, now)
    {
      var k := Key(RefreshToken, signature);
      var v :- First(k);
      UpdateBlob(k, v.(request := v.request.(rotatedAt := now)));
      return Ok(());
    }

    // -- Registrations ----------------------------------------------------------------------

    method CountLiveClients(now: nat) returns (count: nat)
      ensures count == |LiveClients(Content(), now)|
    {
      var ids := Find(ClientKind);
      count := 0;
      ghost var counted: set<Key> := {};
      for i := 0 to |ids|
        invariant count == |counted|
        invariant forall k :: k in counted <==> k in LiveClients(Content(), now) && k.id in ids[..i]
      {
        var k := Key(ClientKind, ids[i]);
        assert forall id :: id in ids[..i + 1] <==> id in ids[..i] || id == ids[i];
        var v := rows[k].blob;
        if v.Registration? && Unexpired(v.client, now) {
          count := count + 1;
          counted := counted + {k};
        }
      }
      assert counted == LiveClients(Content(), now);
    }

    method RegisterClient(client: Client, max: int, now: nat) returns (r: Result<(), StoreError>)
      requires Valid()
      modifies this
      ensures Valid() && (Content(), r) == Register(old(Content()), client, max, now)
    {
      var k := Key(ClientKind, client.id);
      if max > 0 {
        var isNew := k !in rows;
        if isNew {
          var count := CountLiveClients(now);
          if count >= max {
            return Err(CapReached);
          }
        }
      }
      Upsert(k, Registration(client));
      return Ok(());
    }

    method GetClient(id: string, now: nat) returns (r: Result<Client, StoreError>)
      ensures r == Lookup(Content(), id, now)
    {
      var v :- First(Key(ClientKind, id));
      if v.client.expiresAt != 0 && v.client.expiresAt < now {
        return Err(NotFound);
      }
      return Ok(v.client);
    }

    method TouchClient(id: string, expiresAt: nat) returns (r: Result<(), StoreError>)
      requires Valid()
      modifies this
      ensures Valid() && (Content(), r) == Touch(old(Content()), id, expiresAt)
    {
      var k := Key(ClientKind, id);
      var v :- First(k);
      if v.client.expiresAt == 0 {
        return Ok(());
      }
      UpdateBlob(k, Registration(v.client.(expiresAt := expiresAt)));
      return Ok(());
    }

    /** Loads the decodable registrations, then deletes the expired ones by the ID inside the record. */
    method DeleteExpiredClients(now: nat)
      requires Valid()
      modifies this
      ensures Valid() && Content() == ExpireClients(old(Content()), now)
    {
      var ids := Find(ClientKind);
      var clients: seq<Client> := [];
      for i := 0 to |ids|
        invariant forall c :: c in clients <==>
                    var k := Key(ClientKind, c.id);
                    k in rows && rows[k].blob == Registration(c) && c.id in ids[..i]
      {
        assert forall id :: id in ids[..i + 1] <==> id in ids[..i] || id == ids[i];
        var v := rows[Key(ClientKind, ids[i])].blob;
        if v.Registration? {
          clients := clients + [v.client];
        }
      }
      DeleteExpired(clients, now);
    }

    method DeleteExpired(clients: seq<Client>, now: nat)
      requires Valid()
      requires forall c :: c in clients <==>
                 Key(ClientKind, c.id) in rows && rows[Key(ClientKind, c.id)].blob == Registration(c)
      modifies this
      ensures Valid() && Content() == ExpireClients(old(Content()), now)
    {
      for i := 0 to |clients|
        invariant Valid()
        invariant forall k :: k in rows <==> k in old(rows) && !HasExpired(clients[..i], k, now)
        invariant forall k | k in rows :: rows[k] == old(rows)[k]
      {
        assert forall c :: c in clients[..i + 1] <==> c in clients[..i] || c == clients[i];
        forall k ensures HasExpired(clients[..i + 1], k, now) <==>
          HasExpired(clients[..i], k, now) ||
          (k == Key(ClientKind, clients[i].id) && clients[i].expiresAt != 0 && clients[i].expiresAt < now)
        {
          if k == Key(ClientKind, clients[i].id) {
            assert clients[i] in clients[..i + 1];
          }
        }
        if clients[i].expiresAt != 0 && clients[i].expiresAt < now {
          Delete(Key(ClientKind, clients[i].id));
        }
      }
      assert clients[..|clients|] == clients;
      forall k | k in old(rows) && k.kind == ClientKind && old(rows)[k].blob.Registration?
        ensures old(rows)[k].blob.client in clients
      {
        assert Key(ClientKind, old(rows)[k].blob.client.id) == k;
      }
    }

    predicate HasExpired(clients: seq<Client>, k: Key, now: nat) {
      k.kind == ClientKind && exists c :: c in clients && c.id == k.id && c.expiresAt != 0 && c.expiresAt < now
    }

    // -- The kill switch -----------------------------------------------------------------------

    /** Decodes every row of a session table and returns the keys the scope matches. */
    method StaleKeys(kind: Kind, scope: Scope) returns (r: Result<seq<Key>, StoreError>)
      requires IsSessionKind(kind) || kind == AuthorizeRequestKind
      ensures r.Err? ==> r.error == Undecodable
      ensures r.Ok? <==> AllDecode(Content(), kind)
      ensures r.Ok? ==> Distinct(r.value)
      ensures r.Ok? ==> forall k :: k in r.value <==>
                k in Content() && k.kind == kind && RevokedRow(scope, k, Content()[k])
    {
      var ids := Find(kind);
      var stale: seq<Key> := [];
      for i := 0 to |ids|
        invariant Distinct(stale)
        invariant forall id | id in ids[..i] :: Decodes(kind, Content()[Key(kind, id)])
        invariant forall k :: k in stale <==> k.kind == kind && k.id in ids[..i] && RevokedRow(scope, k, Content()[k])
      {
        var k := Key(kind, ids[i]);
        assert forall id :: id in ids[..i + 1] <==> id in ids[..i] || id == ids[i];
        var v := rows[k].blob;
        if !Decodes(kind, v) {
          return Err(Undecodable);
        }
        var request := RequestOf(k, v);
        if request.Some? && Matches(scope, request.value) {
          stale := stale + [k];
        }
      }
      assert ids[..|ids|] == ids;
      forall k | k in Content() && k.kind == kind ensures Decodes(kind, Content()[k]) {
        assert k == Key(kind, k.id);
      }
      return Ok(stale);
    }

    /** Collects from all five tables before anything is deleted. */
    method CollectSweeps(scope: Scope) returns (r: Result<seq<Key>, StoreError>)
      ensures r.Err? ==> r.error == Undecodable
      ensures r.Ok? <==> SessionsDecode(Content())
      ensures r.Ok? ==> Distinct(r.value)
      ensures r.Ok? ==> forall k :: k in r.value <==>
                k in Content() && k.kind != ClientKind && RevokedRow(scope, k, Content()[k])
    {
      hide RevokedRow, Decodes;
      var kinds := SESSION_KINDS + [AuthorizeRequestKind];
      var stale: seq<Key> := [];
      for i := 0 to |kinds|
        invariant Distinct(stale)
        invariant forall kind | kind in kinds[..i] :: AllDecode(Content(), kind)
        invariant forall k :: k in stale <==>
                    k in Content() && k.kind in kinds[..i] && RevokedRow(scope, k, Content()[k])
      {
        var more :- StaleKeys(kinds[i], scope);
        assert forall kind :: kind in kinds[..i + 1] <==> kind in kinds[..i] || kind == kinds[i];
        DistinctUnion(stale, more);
        stale := stale + more;
      }
      assert kinds[..|kinds|] == kinds;
      forall k | k in Content() && (IsSessionKind(k.kind) || k.kind == AuthorizeRequestKind)
        ensures Decodes(k.kind, Content()[k])
      {
        assert k.kind in kinds;
      }
      OnlySessionsCarryRequests(scope);
      return Ok(stale);
    }

    lemma OnlySessionsCarryRequests(scope: Scope)
      ensures forall k: Key, v: Value | k.kind != ClientKind && RevokedRow(scope, k, v) ::
                k.kind in SESSION_KINDS + [AuthorizeRequestKind]
    {
    }

    /** How many registrations the scope deleted. */
    method DeleteRegistrations(scope: Scope) returns (deleted: nat)
      requires Valid()
      modifies this
      ensures Valid()
      ensures Content() == old(Content()) - RegistrationsIn(old(Content()), scope)
      ensures deleted == |RegistrationsIn(old(Content()), scope)|
    {
      ghost var gone := RegistrationsIn(Content(), scope);
      match scope {
        case Everything =>
          var all := set k | k in rows && k.kind == ClientKind;
          assert all == gone;
          rows := rows - all;
          deleted := |all|;
        case OfClient(clientId) =>
          var k := Key(ClientKind, clientId);
          if clientId != "" && k in rows {
            assert gone == {k};
            rows := rows - {k};
            deleted := 1;
          } else {
            assert gone == {};
            deleted := 0;
          }
        case OfGrant(_) =>
          assert gone == {};
          deleted := 0;
      }
    }

    method RevokeScope(scope: Scope) returns (r: Result<nat, StoreError>)
      requires Valid()
      modifies this
      ensures Valid() && (Content(), r) == RevokeRows(old(Content()), scope)
    {
      hide RevokedRow, SessionsDecode, Distinct;
      ghost var before := Content();
      var sessions :- CollectSweeps(scope);
      RevokedInTwoParts(before, scope, sessions);
      rows := rows - set k | k in sessions;
      assert Content() == before - Elements(sessions);
      var clients := DeleteRegistrations(scope);
      return Ok(|sessions| + clients);
    }

    // -- Listing -----------------------------------------------------------------------------------

    method LoadTable(kind: Kind) returns (ids: seq<string>, values: seq<Value>)
      ensures Distinct(ids) && forall id :: id in ids <==> Key(kind, id) in Content()
      ensures |values| == |ids| && forall i | 0 <= i < |ids| :: values[i] == Content()[Key(kind, ids[i])]
    {
      ids := Find(kind);
      values := [];
      for i := 0 to |ids|
        invariant |values| == i && forall j | 0 <= j < i :: values[j] == Content()[Key(kind, ids[j])]
      {
        values := values + [rows[Key(kind, ids[i])].blob];
      }
    }

    method ListClientGrants(now: nat) returns (r: Result<seq<ClientGrants>, StoreError>)
      ensures r.Ok? <==> ListDecodes(Content())
      ensures r.Err? ==> r.error == Undecodable
      ensures r.Ok? ==> IsTableList(r.value, Content(), now)
    {
      hide Fed, IsListing, Content, Fold, ItemsAt, Enumerates;
      var inv := new Aggregator();
      ghost var ks: seq<Key> := [];
      NothingFed(Content());
      var kinds := LISTED_KINDS;
      for i := 0 to |kinds|
        invariant fresh(inv) && Fed(inv.View(), Content(), ks, kinds[..i])
        invariant forall j, n | 0 <= j < n < |ks| :: ScanRank(ks[j].kind) <= ScanRank(ks[n].kind)
        invariant forall k | k in ks :: ScanRank(k.kind) < i
      {
        var ids, values := LoadTable(kinds[i]);
        ghost var before := ks;
        var ok;
        ok, ks := Feed(inv, kinds[i], ids, values, Content(), ks, kinds[..i]);
        if !ok {
          return Err(Undecodable);
        }
        assert ScanRank(kinds[i]) == i;
        TablesAppend(before, kinds[i], ids);
        assert kinds[..i + 1] == kinds[..i] + [kinds[i]];
      }
      assert kinds[..|kinds|] == kinds;
      var rows := FinishList(inv, Content(), ks, now);
      assert InTableOrder(ks, Content());
      return Ok(rows);
    }
  }
}
