/** The bbolt backend: one flat bucket whose keys are kept in byte order. */
module KvsStore {
  import opened Wrappers
  import opened Records
  import opened StoreSpec
  import opened Ordering
  import opened Inventory
  import opened Listing
  import opened ListingFeed

  /** The flat bucket holds exactly the typed records, each under its encoded key. */
  ghost predicate Coupled(store: Store, data: map<string, Value>) {
    && (forall k :: k in store <==> Encode(k) in data)
    && (forall k | k in store :: data[Encode(k)] == store[k])
    && (forall raw | raw in data :: exists k :: raw == Encode(k))
  }

  lemma CoupledPut(store: Store, data: map<string, Value>, k: Key, v: Value)
    requires Coupled(store, data)
    ensures Coupled(store[k := v], data[Encode(k) := v])
  {
    forall k' | Encode(k') == Encode(k) ensures k' == k {
      EncodeInjective(k', k);
    }
  }

  lemma CoupledDelete(store: Store, data: map<string, Value>, k: Key)
    requires Coupled(store, data)
    ensures Coupled(store - {k}, data - {Encode(k)})
  {
    forall k' | Encode(k') == Encode(k) ensures k' == k {
      EncodeInjective(k', k);
    }
  }

  /** A cursor reads the keys of a kind in their byte order. */
  lemma ScannedInOrder(keys: seq<string>, kind: Kind, ids: seq<string>, first: nat)
    requires Sorted(keys) && first + |ids| <= |keys|
    requires forall i | 0 <= i < |ids| :: keys[first + i] == Encode(Key(kind, ids[i]))
    ensures StrictlySorted(KeysOf(kind, ids), ScannedBefore)
  {
    hide Below;
    forall i, j | 0 <= i < j < |ids|
      ensures ScannedBefore(Key(kind, ids[i]), Key(kind, ids[j]))
    {
      assert Below(keys[first + i], keys[first + j]);
    }
  }

  lemma ScannedOnce(keys: seq<string>, kind: Kind, ids: seq<string>, first: nat)
    requires Sorted(keys) && first + |ids| <= |keys|
    requires forall i | 0 <= i < |ids| :: keys[first + i] == Encode(Key(kind, ids[i]))
    ensures Distinct(ids)
  {
    forall i, j | 0 <= i < j < |ids| ensures ids[i] != ids[j] {
      BelowIrreflexive(keys[first + i]);
      hide Below;
    }
  }

  lemma StaleIsWhere(store: Store, kind: Kind, match_: Request -> bool, stale: seq<Key>)
    requires forall k :: k in stale <==> k in store && k.kind == kind && store[k].Session? && match_(store[k].request)
    ensures store - Elements(stale) == DeleteWhere(store, kind, match_)
  {
  }

  lemma NothingExpires(store: Store, c: Cutoffs)
    ensures ExpireKinds(store, c, []) == store
  {
  }

  /** For a kind of session records the sweep is one deletion by request time. */
  lemma ExpireOneKind(store: Store, c: Cutoffs, kind: Kind)
    requires IsSessionKind(kind)
    ensures var cutoff := CutoffFor(c, kind);
            DeleteWhere(store, kind, (req: Request) => req.requestedAt < cutoff) == ExpireKinds(store, c, [kind])
  {
  }

  lemma ExpireMore(store: Store, c: Cutoffs, kinds: seq<Kind>, more: seq<Kind>)
    ensures ExpireKinds(ExpireKinds(store, c, kinds), c, more) == ExpireKinds(store, c, kinds + more)
  {
    hide SessionExpired;
  }

  predicate RequestExpired(c: Cutoffs, v: Value) {
    !v.Pending? || v.ar.request.None? || v.ar.request.value.requestedAt < c.codeBefore
  }

  lemma ExpireRequests(store: Store, c: Cutoffs, stale: seq<Key>)
    requires forall k :: k in stale <==> k in store && k.kind == AuthorizeRequestKind && RequestExpired(c, store[k])
    ensures store - Elements(stale) == ExpireKinds(store, c, [AuthorizeRequestKind])
  {
  }

  lemma NothingTwice()
    ensures Distinct<Key>([])
  {
  }

  class KvsRepository {
    /** The bucket: its keys in cursor order, and the value under each. */
    var keys: seq<string>
    var data: map<string, Value>
    /** The same content under typed keys. */
    ghost var store: Store

    ghost predicate Valid()
      reads this
    {
      && Sorted(keys)
      && (forall raw :: raw in keys <==> raw in data)
      && Coupled(store, data)
    }

    constructor ()
      ensures Valid() && store == map[]
    {
      keys, data, store := [], map[], map[];
    }

    // -- The bucket ----------------------------------------------------------------

    /** The cursor position of the first key that is not before `raw`. */
    method Seek(raw: string) returns (pos: nat)
      requires Valid()
      ensures pos <= |keys|
      ensures forall i | 0 <= i < pos :: Below(keys[i], raw)
      ensures forall i | pos <= i < |keys| :: !Below(keys[i], raw)
    {
      pos := 0;
      while pos < |keys| && Below(keys[pos], raw)
        invariant pos <= |keys|
        invariant forall i | 0 <= i < pos :: Below(keys[i], raw)
      {
        pos := pos + 1;
      }
      forall i | pos <= i < |keys| ensures !Below(keys[i], raw) {
        if i > pos && Below(keys[i], raw) {
          BelowTransitive(keys[pos], keys[i], raw);
        }
      }
    }

    method Put(k: Key, v: Value)
      requires Valid()
      modifies this
      ensures Valid() && store == old(store)[k := v]
    {
      hide Coupled;
      var raw := Encode(k);
      if raw !in data {
        var pos := Seek(raw);
        InsertedAt(keys, pos, raw);
        keys := keys[..pos] + [raw] + keys[pos..];
      }
      CoupledPut(store, data, k, v);
      data, store := data[raw := v], store[k := v];
    }

    method Delete(k: Key)
      requires Valid()
      modifies this
      ensures Valid() && store == old(store) - {k}
    {
      hide Coupled;
      var raw := Encode(k);
      if raw in data {
        var pos := Seek(raw);
        SoughtKey(keys, raw, pos);
        RemovedAt(keys, pos);
        keys := keys[..pos] + keys[pos + 1..];
      }
      CoupledDelete(store, data, k);
      data, store := data - {raw}, store - {k};
    }

    method Get(k: Key) returns (r: Result<Value, StoreError>)
      requires Valid()
      ensures r == Fetch(store, k)
    {
      var raw := Encode(k);
      if raw !in data {
        return Err(NotFound);
      }
      return if Decodes(k.kind, data[raw]) then Ok(data[raw]) else Err(Undecodable);
    }

    method Read(k: Key) returns (v: Value)
      requires Valid() && k in store
      ensures v == store[k]
    {
      v := data[Encode(k)];
    }

    method Has(k: Key) returns (present: bool)
      requires Valid()
      ensures present <==> k in store
    {
      present := Encode(k) in data;
    }

    /** Writes only over an existing key, in one transaction. */
    method Update(k: Key, v: Value) returns (r: Result<(), StoreError>)
      requires Valid()
      modifies this
      ensures Valid()
      ensures r == if k in old(store) then Ok(()) else Err(NotFound)
      ensures store == UpdateIfPresent(old(store), k, v)
    {
      if Encode(k) !in data {
        return Err(NotFound);
      }
      Put(k, v);
      return Ok(());
    }

    /** The cursor walk from Seek to the first key without the prefix: it visits every record of
        the kind exactly once, and no other. */
    method Scan(kind: Kind) returns (ids: seq<string>)
      requires Valid()
      ensures forall id :: id in ids <==> Key(kind, id) in store
      ensures Distinct(ids) && StrictlySorted(KeysOf(kind, ids), ScannedBefore)
    {
      hide Coupled, Below, Distinct;
      var prefix := Prefix(kind);
      var first := Seek(prefix);
      var pos := first;
      ids := [];
      while pos < |keys| && prefix <= keys[pos]
        invariant first <= pos <= |keys|
        invariant forall i | first <= i < pos :: prefix <= keys[i]
        invariant |ids| == pos - first
        invariant forall i | 0 <= i < |ids| :: keys[first + i] == Encode(Key(kind, ids[i]))
      {
        ids := ids + [keys[pos][|prefix|..]];
        pos := pos + 1;
      }
      ScannedOnce(keys, kind, ids, first);
      ScannedInOrder(keys, kind, ids, first);
      forall id ensures id in ids <==> Key(kind, id) in store {
        ScanFinds(ids, first, pos, Key(kind, id));
      }
    }

    lemma ScanFinds(ids: seq<string>, first: nat, end: nat, k: Key)
      requires Valid() && first <= end <= |keys| && |ids| == end - first
      requires forall i | 0 <= i < first :: Below(keys[i], Prefix(k.kind))
      requires forall i | first <= i < |keys| :: !Below(keys[i], Prefix(k.kind))
      requires forall i | first <= i < end :: Prefix(k.kind) <= keys[i]
      requires end < |keys| ==> !(Prefix(k.kind) <= keys[end])
      requires forall i | 0 <= i < |ids| :: keys[first + i] == Encode(Key(k.kind, ids[i]))
      ensures k.id in ids <==> k in store
    {
      if k in store {
        var raw := Encode(k);
        var at :| 0 <= at < |keys| && keys[at] == raw;
        PrefixRun(keys, Prefix(k.kind), first, end, at);
        assert keys[first + (at - first)] == raw;
        EncodeInjective(Key(k.kind, ids[at - first]), k);
      }
      if k.id in ids {
        var i :| 0 <= i < |ids| && ids[i] == k.id;
        assert keys[first + i] in data;
      }
    }

    // -- Collect, then delete -----------------------------------------------------------

    /** The records of a kind that `pick` accepts. */
    method Select(kind: Kind, pick: Value -> bool) returns (stale: seq<Key>)
      requires Valid()
      ensures Distinct(stale)
      ensures forall k :: k in stale <==> k in store && k.kind == kind && pick(store[k])
    {
      hide Valid;
      var ids := Scan(kind);
      stale := [];
      for i := 0 to |ids|
        invariant Distinct(stale)
        invariant forall k :: k in stale <==> k.kind == kind && k.id in ids[..i] && pick(store[k])
      {
        var k := Key(kind, ids[i]);
        assert forall id :: id in ids[..i + 1] <==> id in ids[..i] || id == ids[i];
        var v := Read(k);
        if pick(v) {
          stale := stale + [k];
        }
      }
    }

    /** The same walk, stopped by the first record that does not decode. */
    method SelectDecoded(kind: Kind, pick: Value -> bool) returns (r: Result<seq<Key>, StoreError>)
      requires Valid()
      ensures r.Err? ==> r.error == Undecodable
      ensures r.Ok? <==> AllDecode(store, kind)
      ensures r.Ok? ==> Distinct(r.value)
      ensures r.Ok? ==> forall k :: k in r.value <==> k in store && k.kind == kind && pick(store[k])
    {
      hide Valid;
      var ids := Scan(kind);
      var stale: seq<Key> := [];
      for i := 0 to |ids|
        invariant Distinct(stale)
        invariant forall id | id in ids[..i] :: Decodes(kind, store[Key(kind, id)])
        invariant forall k :: k in stale <==> k.kind == kind && k.id in ids[..i] && pick(store[k])
      {
        var k := Key(kind, ids[i]);
        assert forall id :: id in ids[..i + 1] <==> id in ids[..i] || id == ids[i];
        var v := Read(k);
        if !Decodes(kind, v) {
          return Err(Undecodable);
        }
        if pick(v) {
          stale := stale + [k];
        }
      }
      assert ids[..|ids|] == ids;
      forall k | k in store && k.kind == kind ensures Decodes(kind, store[k]) {
        assert k == Key(kind, k.id);
      }
      return Ok(stale);
    }

    method DeleteKeys(stale: seq<Key>)
      requires Valid()
      modifies this
      ensures Valid() && store == old(store) - Elements(stale)
    {
      hide Valid;
      for i := 0 to |stale|
        invariant Valid() && store == old(store) - Elements(stale[..i])
      {
        assert Elements(stale[..i + 1]) == Elements(stale[..i]) + {stale[i]};
        Delete(stale[i]);
      }
      assert stale[..|stale|] == stale;
    }

    /** Undecodable records are stepped over: they are the sweeper's to reclaim. */
    method DeleteMatching(kind: Kind, match_: Request -> bool)
      requires Valid()
      modifies this
      ensures Valid() && store == DeleteWhere(old(store), kind, match_)
    {
      hide Valid;
      var stale := Select(kind, (v: Value) => v.Session? && match_(v.request));
      StaleIsWhere(store, kind, match_, stale);
      DeleteKeys(stale);
    }

    method DeleteExpiredSessions(c: Cutoffs)
      requires Valid()
      modifies this
      ensures Valid() && store == ExpireSessions(old(store), c)
    {
      hide Valid, ExpireKinds, SessionExpired, DeleteWhere;
      var kinds := SESSION_KINDS;
      NothingExpires(store, c);
      for i := 0 to |kinds|
        invariant Valid() && store == ExpireKinds(old(store), c, kinds[..i])
      {
        var cutoff := CutoffFor(c, kinds[i]);
        ExpireOneKind(store, c, kinds[i]);
        ExpireMore(old(store), c, kinds[..i], [kinds[i]]);
        DeleteMatching(kinds[i], (req: Request) => req.requestedAt < cutoff);
        assert kinds[..i + 1] == kinds[..i] + [kinds[i]];
      }
      assert kinds[..|kinds|] == kinds;
      ExpireMore(old(store), c, kinds, [AuthorizeRequestKind]);
      var stale := Select(AuthorizeRequestKind, (v: Value) => RequestExpired(c, v));
      ExpireRequests(store, c, stale);
      DeleteKeys(stale);
    }

    method RevokeTokens(kind: Kind, requestId: string)
      requires Valid() && kind in {AccessToken, RefreshToken}
      modifies this
      ensures Valid() && store == DeleteWhere(old(store), kind, (req: Request) => req.id == requestId)
    {
      DeleteMatching(kind, (req: Request) => req.id == requestId);
    }

    // -- Rotation and registrations --------------------------------------------------------

    /** Read in one transaction, write back in another that requires the key to exist still. */
    method RotateRefreshToken(signature: string, now: nat) returns (r: Result<(), StoreError>)
      requires Valid()
      modifies this
      ensures Valid() && (store, r) == Rotate(old(store), signature, now)
    {
      var k := Key(RefreshToken, signature);
      var v :- Get(k);
      r := Update(k, v.(request := v.request.(rotatedAt := now)));
    }

    method CountLiveClients(now: nat) returns (count: nat)
      requires Valid()
      ensures count == |LiveClients(store, now)|
    {
      hide Valid;
      var ids := Scan(ClientKind);
      count := 0;
      ghost var counted: set<Key> := {};
      for i := 0 to |ids|
        invariant count == |counted|
        invariant forall k :: k in counted <==> k in LiveClients(store, now) && k.id in ids[..i]
      {
        var k := Key(ClientKind, ids[i]);
        assert forall id :: id in ids[..i + 1] <==> id in ids[..i] || id == ids[i];
        var v := Read(k);
        if v.Registration? && Unexpired(v.client, now) {
          count := count + 1;
          counted := counted + {k};
        }
      }
      assert counted == LiveClients(store, now);
    }

    /** Count and insert in one transaction. */
    method RegisterClient(client: Client, max: int, now: nat) returns (r: Result<(), StoreError>)
      requires Valid()
      modifies this
      ensures Valid() && (store, r) == Register(old(store), client, max, now)
    {
      var k := Key(ClientKind, client.id);
      if max > 0 && Encode(k) !in data {
        var count := CountLiveClients(now);
        if count >= max {
          return Err(CapReached);
        }
      }
      Put(k, Registration(client));
      return Ok(());
    }

    method GetClient(id: string, now: nat) returns (r: Result<Client, StoreError>)
      requires Valid()
      ensures r == Lookup(store, id, now)
    {
      var v :- Get(Key(ClientKind, id));
      if v.client.expiresAt != 0 && v.client.expiresAt < now {
        return Err(NotFound);
      }
      return Ok(v.client);
    }

    method TouchClient(id: string, expiresAt: nat) returns (r: Result<(), StoreError>)
      requires Valid()
      modifies this
      ensures Valid() && (store, r) == Touch(old(store), id, expiresAt)
    {
      var k := Key(ClientKind, id);
      var v :- Get(k);
      if v.client.expiresAt == 0 {
        return Ok(());
      }
      r := Update(k, Registration(v.client.(expiresAt := expiresAt)));
    }

    method DeleteExpiredClients(now: nat)
      requires Valid()
      modifies this
      ensures Valid() && store == ExpireClients(old(store), now)
    {
      var stale := Select(ClientKind, (v: Value) =>
        v.Registration? && v.client.expiresAt != 0 && v.client.expiresAt < now);
      DeleteKeys(stale);
    }

    // -- The kill switch ---------------------------------------------------------------------

    method StaleSessions(scope: Scope) returns (r: Result<seq<Key>, StoreError>)
      requires Valid()
      ensures r.Err? ==> r.error == Undecodable
      ensures r.Ok? <==> SessionsDecode(store)
      ensures r.Ok? ==> Distinct(r.value)
      ensures r.Ok? ==> forall k :: k in r.value <==> k in store && k.kind != ClientKind && Revoked(scope, k, store[k])
    {
      hide Valid, Matches, Distinct;
      var kinds := SESSION_KINDS;
      var stale: seq<Key> := [];
      NothingTwice();
      for i := 0 to |kinds|
        invariant Distinct(stale)
        invariant forall kind | kind in kinds[..i] :: AllDecode(store, kind)
        invariant forall k :: k in stale <==> k in store && k.kind in kinds[..i] && Revoked(scope, k, store[k])
      {
        var more :- SelectDecoded(kinds[i], (v: Value) => v.Session? && Matches(scope, v.request));
        assert forall kind :: kind in kinds[..i + 1] <==> kind in kinds[..i] || kind == kinds[i];
        DistinctUnion(stale, more);
        stale := stale + more;
      }
      assert kinds[..|kinds|] == kinds;
      var more :- SelectDecoded(AuthorizeRequestKind, (v: Value) =>
        v.Pending? && v.ar.request.Some? && Matches(scope, v.ar.request.value));
      DistinctUnion(stale, more);
      forall k | k in store && (IsSessionKind(k.kind) || k.kind == AuthorizeRequestKind)
        ensures Decodes(k.kind, store[k])
      {
        assert IsSessionKind(k.kind) ==> k.kind in kinds;
      }
      return Ok(stale + more);
    }

    method StaleClients(scope: Scope) returns (r: Result<seq<Key>, StoreError>)
      requires Valid()
      ensures r.Err? ==> r.error == Undecodable
      ensures r.Ok? <==> scope != Everything || AllDecode(store, ClientKind)
      ensures r.Ok? ==> Distinct(r.value)
      ensures r.Ok? ==> forall k :: k in r.value <==> k in store && k.kind == ClientKind && Revoked(scope, k, store[k])
    {
      hide Valid;
      match scope {
        case OfClient(clientId) =>
          var k := Key(ClientKind, clientId);
          var registered := Has(k);
          return Ok(if registered then [k] else []);
        case OfGrant(_) =>
          return Ok([]);
        case Everything =>
          r := SelectDecoded(ClientKind, (v: Value) => true);
      }
    }

    /** Collects every key first and deletes second, in a single transaction. */
    method RevokeScope(scope: Scope) returns (r: Result<nat, StoreError>)
      requires Valid()
      modifies this
      ensures Valid() && (store, r) == Revoke(old(store), scope)
    {
      hide Valid;
      var sessions :- StaleSessions(scope);
      var clients :- StaleClients(scope);
      var stale := sessions + clients;
      DistinctUnion(sessions, clients);
      DistinctCount(stale);
      assert Elements(stale) == RevokedKeys(store, scope);
      DeleteKeys(stale);
      return Ok(|stale|);
    }

    // -- Listing -------------------------------------------------------------------------------

    method LoadKind(kind: Kind) returns (ids: seq<string>, values: seq<Value>)
      requires Valid()
      ensures Distinct(ids) && forall id :: id in ids <==> Key(kind, id) in store
      ensures StrictlySorted(KeysOf(kind, ids), ScannedBefore)
      ensures |values| == |ids| && forall i | 0 <= i < |ids| :: values[i] == store[Key(kind, ids[i])]
    {
      hide Valid, ScannedBefore, StrictlySorted;
      ids := Scan(kind);
      values := [];
      for i := 0 to |ids|
        invariant |values| == i && forall j | 0 <= j < i :: values[j] == store[Key(kind, ids[j])]
      {
        var v := Read(Key(kind, ids[i]));
        values := values + [v];
      }
    }

    method ListClientGrants(now: nat) returns (r: Result<seq<ClientGrants>, StoreError>)
      requires Valid()
      ensures r.Ok? <==> ListDecodes(store)
      ensures r.Err? ==> r.error == Undecodable
      ensures r.Ok? ==> IsScannedList(r.value, store, now)
    {
      hide Fed, IsListing, Valid, ScannedBefore, Fold, ItemsAt, Enumerates;
      var inv := new Aggregator();
      ghost var ks: seq<Key> := [];
      NothingFed(store);
      var kinds := LISTED_KINDS;
      for i := 0 to |kinds|
        invariant fresh(inv) && Fed(inv.View(), store, ks, kinds[..i])
        invariant StrictlySorted(ks, ScannedBefore) && forall k | k in ks :: ScanRank(k.kind) < i
      {
        var ids, values := LoadKind(kinds[i]);
        ghost var before := ks;
        var ok;
        ok, ks := Feed(inv, kinds[i], ids, values, store, ks, kinds[..i]);
        if !ok {
          return Err(Undecodable);
        }
        assert ScanRank(kinds[i]) == i;
        ScansAppend(before, kinds[i], ids);
        assert kinds[..i + 1] == kinds[..i] + [kinds[i]];
      }
      assert kinds[..|kinds|] == kinds;
      var rows := FinishList(inv, store, ks, now);
      assert InScanOrder(ks, store);
      return Ok(rows);
    }
  }
}
