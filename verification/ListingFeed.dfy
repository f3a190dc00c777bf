/** How both backends hand their records to the aggregator: access tokens, then refresh tokens,
    then registrations, each table in its own order. */
module ListingFeed {
  import opened Records
  import opened StoreSpec
  import opened Inventory
  import opened Listing

  const LISTED_KINDS := [AccessToken, RefreshToken, ClientKind]

  /** The aggregator has seen exactly the records of the kinds so far, all of them decodable. */
  ghost predicate Fed(view: map<string, Accumulator>, store: Store, ks: seq<Key>, kinds: seq<Kind>) {
    && Distinct(ks)
    && (forall k :: k in ks <==> k in store && k.kind in kinds)
    && (forall kind | kind in kinds :: AllDecode(store, kind))
    && view == Fold(ItemsAt(store, ks))
  }

  lemma NothingFed(store: Store)
    ensures Fed(map[], store, [], [])
  {
  }

  lemma FoldOne(store: Store, ks: seq<Key>, k: Key)
    requires RecordAt(store, k).Some?
    ensures Fold(ItemsAt(store, ks + [k])) == Add(Fold(ItemsAt(store, ks)), RecordAt(store, k).value)
  {
    hide RecordAt, Add;
    ItemsStep(store, ks, k);
    var items := ItemsAt(store, ks);
    assert (items + [RecordAt(store, k).value])[..|items|] == items;
  }

  lemma FedView(view: map<string, Accumulator>, store: Store, ks: seq<Key>, kinds: seq<Kind>)
    requires Fed(view, store, ks, kinds)
    ensures view == Fold(ItemsAt(store, ks))
  {
  }

  lemma FedMore(store: Store, before: seq<Key>, kinds: seq<Kind>, kind: Kind, ids: seq<string>)
    requires Fed(Fold(ItemsAt(store, before)), store, before, kinds) && kind !in kinds && AllDecode(store, kind)
    requires Distinct(ids) && forall id :: id in ids <==> Key(kind, id) in store
    ensures var ks := before + KeysOf(kind, ids); Fed(Fold(ItemsAt(store, ks)), store, ks, kinds + [kind])
  {
    hide ItemsAt, Fold, AllDecode;
    var more := KeysOf(kind, ids);
    forall k
      ensures k in more <==> k in store && k.kind == kind
    {
      if k in store && k.kind == kind {
        var i :| 0 <= i < |ids| && ids[i] == k.id;
        assert more[i] == k;
      }
    }
    DistinctUnion(before, more);
  }

  /** One table: `values[i]` is the record under `ids[i]`. */
  method Feed(inv: Aggregator, kind: Kind, ids: seq<string>, values: seq<Value>, ghost store: Store,
              ghost before: seq<Key>, ghost kinds: seq<Kind>)
    returns (ok: bool, ghost ks: seq<Key>)
    requires kind in LISTED_KINDS && kind !in kinds
    requires Distinct(ids) && forall id :: id in ids <==> Key(kind, id) in store
    requires |values| == |ids| && forall i | 0 <= i < |ids| :: values[i] == store[Key(kind, ids[i])]
    requires Fed(inv.View(), store, before, kinds)
    modifies inv
    ensures ok <==> AllDecode(store, kind)
    ensures ok ==> Fed(inv.View(), store, ks, kinds + [kind]) && ks == before + KeysOf(kind, ids)
  {
    hide Fed, ItemsAt, Fold, Add, Distinct;
    ks := before;
    FedView(inv.View(), store, before, kinds);
    for i := 0 to |ids|
      invariant ks == before + KeysOf(kind, ids[..i])
      invariant forall id | id in ids[..i] :: Decodes(kind, store[Key(kind, id)])
      invariant inv.View() == Fold(ItemsAt(store, ks))
    {
      ghost var k := Key(kind, ids[i]);
      assert forall id :: id in ids[..i + 1] <==> id in ids[..i] || id == ids[i];
      if !Decodes(kind, values[i]) {
        return false, ks;
      }
      FoldOne(store, ks, k);
      match values[i] {
        case Session(req) => inv.AddToken(if kind == AccessToken then Access else Refresh, req);
        case Registration(client) => inv.AddRegistration(client);
        case _ =>
      }
      ks := ks + [k];
      assert KeysOf(kind, ids[..i + 1]) == KeysOf(kind, ids[..i]) + [k];
    }
    assert ids[..|ids|] == ids;
    ok := true;
    forall k | k in store && k.kind == kind ensures Decodes(kind, store[k]) {
      assert k == Key(kind, k.id);
    }
    FedMore(store, before, kinds, kind, ids);
  }

  method FinishList(inv: Aggregator, ghost store: Store, ghost ks: seq<Key>, now: nat) returns (rows: seq<ClientGrants>)
    requires Fed(inv.View(), store, ks, LISTED_KINDS)
    ensures ListDecodes(store) && Enumerates(ks, store) && IsListing(rows, Fold(ItemsAt(store, ks)), now)
  {
    FoldWellKeyed(ItemsAt(store, ks));
    rows := inv.Rows(now);
    assert forall k: Key :: k.kind in LISTED_KINDS <==> IsListed(k);
    assert Enumerates(ks, store);
  }
}
