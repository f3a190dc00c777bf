/** When the list of a backend that reads table by table is a function of its records. */
module TableLists {
  import opened Wrappers
  import opened Records
  import opened StoreSpec
  import opened Ordering
  import opened Inventory
  import opened InventoryLaws
  import opened InventoryOrder
  import opened Sights
  import opened TableOrder
  import opened Listing

  /** What the listed records say, each where it is stored. */
  function RecordsOf(store: Store): set<Item> {
    set k | k in store && IsListed(k) && RecordAt(store, k).Some? :: RecordAt(store, k).value
  }

  /** The listed records leave nothing to the order within the tables. */
  predicate StoreAgrees(store: Store) {
    TablesAgree(RecordsOf(store))
  }

  lemma ItemsAreRecords(store: Store, ks: seq<Key>)
    requires Enumerates(ks, store)
    ensures ItemSet(ItemsAt(store, ks)) == RecordsOf(store)
  {
    hide RecordAt, ItemsAt, IsListed;
    forall x
      ensures x in ItemsAt(store, ks) <==> x in RecordsOf(store)
    {
      ItemsOf(store, ks, x);
      forall k | k in ks || k in store
        ensures RecordAt(store, k).Some? ==> k in store && IsListed(k)
      {
        RecordsAreStored(store, k);
      }
    }
  }

  lemma {:induction false} DistinctMultiset(ks: seq<Key>)
    requires Distinct(ks)
    ensures multiset(ks) == multiset(Elements(ks))
  {
    if ks != [] {
      var init, last := ks[..|ks| - 1], ks[|ks| - 1];
      DistinctMultiset(init);
      assert ks == init + [last];
      assert Elements(ks) == Elements(init) + {last};
    }
  }

  lemma {:induction false} SameKeysSameItems(store: Store, ks: seq<Key>, ks': seq<Key>)
    requires multiset(ks) == multiset(ks')
    ensures multiset(ItemsAt(store, ks)) == multiset(ItemsAt(store, ks'))
  {
    hide RecordAt, ItemsAt;
    if ks == [] {
      assert |multiset(ks')| == 0;
      assert ks' == [];
    } else {
      var init, last := ks[..|ks| - 1], ks[|ks| - 1];
      var pre, post := Around(ks, ks');
      SameKeysSameItems(store, init, pre + post);
      assert ks == init + [last];
      SplitItems(store, init, pre, last, post);
    }
  }

  lemma SplitItems(store: Store, init: seq<Key>, pre: seq<Key>, last: Key, post: seq<Key>)
    requires multiset(ItemsAt(store, init)) == multiset(ItemsAt(store, pre + post))
    ensures multiset(ItemsAt(store, init + [last])) == multiset(ItemsAt(store, pre + [last] + post))
  {
    hide ItemsAt;
    ItemsConcat(store, pre, post);
    ItemsConcat(store, pre + [last], post);
    ItemsConcat(store, pre, [last]);
    ItemsConcat(store, init, [last]);
    MiddleLast(ItemsAt(store, init), ItemsAt(store, pre), ItemsAt(store, [last]), ItemsAt(store, post));
  }

  lemma ListedIsRecord(store: Store, k: Key)
    requires ListDecodes(store) && k in store && IsListed(k)
    ensures RecordAt(store, k).Some? && Table(RecordAt(store, k).value) == ScanRank(k.kind)
  {
  }

  /** One item for each key, in the order of the keys. */
  lemma {:induction false} ItemsAlong(store: Store, ks: seq<Key>)
    requires forall k | k in ks :: RecordAt(store, k).Some?
    ensures |ItemsAt(store, ks)| == |ks|
    ensures forall i | 0 <= i < |ks| :: ItemsAt(store, ks)[i] == RecordAt(store, ks[i]).value
  {
    hide RecordAt;
    if ks != [] {
      ItemsAlong(store, ks[..|ks| - 1]);
    }
  }

  lemma TableItems(store: Store, ks: seq<Key>)
    requires ListDecodes(store) && Enumerates(ks, store)
    ensures forall k | k in ks :: RecordAt(store, k).Some?
    ensures |ItemsAt(store, ks)| == |ks|
    ensures InTables(ItemsAt(store, ks)) <==>
            forall i, j | 0 <= i < j < |ks| :: ScanRank(ks[i].kind) <= ScanRank(ks[j].kind)
  {
    hide RecordAt, IsListed, ListDecodes, Table, ScanRank, ItemsAt, Distinct;
    forall k | k in ks
      ensures RecordAt(store, k).Some? && Table(RecordAt(store, k).value) == ScanRank(k.kind)
    {
      ListedIsRecord(store, k);
    }
    ItemsAlong(store, ks);
    forall i | 0 <= i < |ks|
      ensures Table(ItemsAt(store, ks)[i]) == ScanRank(ks[i].kind)
    {
      assert ks[i] in ks;
    }
  }

  lemma RegistrationAt(store: Store, k: Key, x: Item)
    requires RecordAt(store, k) == Some(x) && x.Stored?
    ensures k in store && k.kind == ClientKind && store[k] == Registration(x.client)
  {
  }

  /** Registrations of one ID cannot differ: there is one. */
  lemma OneRegistration(store: Store)
    requires IdsMatch(store)
    ensures RegistrationsAgreeIn(RecordsOf(store))
  {
    hide RecordAt;
    forall a, b | a in RecordsOf(store) && b in RecordsOf(store) && a.Stored? && b.Stored? && ClientOf(a) == ClientOf(b)
      ensures a == b
    {
      var k :| k in store && IsListed(k) && RecordAt(store, k) == Some(a);
      var k' :| k' in store && IsListed(k') && RecordAt(store, k') == Some(b);
      RegistrationAt(store, k, a);
      RegistrationAt(store, k', b);
    }
  }

  lemma PermutedItems(store: Store, ks: seq<Key>, ks': seq<Key>)
    requires Enumerates(ks, store) && Enumerates(ks', store)
    ensures multiset(ItemsAt(store, ks)) == multiset(ItemsAt(store, ks'))
  {
    DistinctMultiset(ks);
    DistinctMultiset(ks');
    assert Elements(ks) == Elements(ks');
    SameKeysSameItems(store, ks, ks');
  }

  /** Tables that agree show the same through every order of reading them. */
  lemma TablesShowAlike(store: Store, ks: seq<Key>, ks': seq<Key>)
    requires ListDecodes(store) && IdsMatch(store) && StoreAgrees(store)
    requires InTableOrder(ks, store) && InTableOrder(ks', store)
    ensures SameSights(Fold(ItemsAt(store, ks)), Fold(ItemsAt(store, ks')))
  {
    hide ItemsAt, Fold, Enumerates, IdsMatch, ListDecodes, TablesAgree, RegistrationsAgreeIn, InTables, SameSights;
    TableItems(store, ks);
    TableItems(store, ks');
    ItemsAreRecords(store, ks);
    OneRegistration(store);
    PermutedItems(store, ks, ks');
    SightsIgnoreTableOrder(ItemsAt(store, ks), ItemsAt(store, ks'));
  }

  /** The list is then a function of the stored records: the row order of the queries, the map order of
      the aggregator and the sort leave no trace. */
  lemma TableListIsDetermined(rows: seq<ClientGrants>, rows': seq<ClientGrants>, store: Store, now: nat)
    requires IdsMatch(store) && StoreAgrees(store)
    requires IsTableList(rows, store, now) && IsTableList(rows', store, now)
    ensures rows == rows'
  {
    hide StoreAgrees, ItemsAt, Fold, InTableOrder, IsListing, IdsMatch, SameSights, ListDecodes;
    var ks :| InTableOrder(ks, store) && IsListing(rows, Fold(ItemsAt(store, ks)), now);
    var ks' :| InTableOrder(ks', store) && IsListing(rows', Fold(ItemsAt(store, ks')), now);
    TablesShowAlike(store, ks, ks');
    SightsDecideListing(Fold(ItemsAt(store, ks)), Fold(ItemsAt(store, ks')), rows, now);
    ListingUnique(rows, rows', Fold(ItemsAt(store, ks')), now);
  }

  // -- Needed ---------------------------------------------------------------------------------

  /** One order of the tables is that of the bucket. */
  lemma SomeTableOrder(store: Store) returns (ks: seq<Key>)
    ensures InTableOrder(ks, store)
  {
    var listed := set k | k in store && IsListed(k);
    ScannedBeforeIsStrict();
    forall a, b | a in listed && b in listed && a != b
      ensures ScannedBefore(a, b) || ScannedBefore(b, a)
    {
      if a.kind == b.kind {
        BelowTotal(Encode(a), Encode(b));
        if Encode(a) == Encode(b) {
          EncodeInjective(a, b);
        }
      }
    }
    hide Below, Encode;
    ks := SortedOf(listed, ScannedBefore);
    SortedDistinct(ks);
  }

  lemma SortedDistinct(ks: seq<Key>)
    requires StrictlySorted(ks, ScannedBefore)
    ensures Distinct(ks)
    ensures forall i, j | 0 <= i < j < |ks| :: ScanRank(ks[i].kind) <= ScanRank(ks[j].kind)
  {
    ScannedBeforeIsStrict();
    hide Below, Encode;
  }

  /** A key whose record is the last item, and the keys without it. */
  lemma KeyForLast(store: Store, ks: seq<Key>, items: seq<Item>) returns (rest: seq<Key>, k: Key)
    requires forall k | k in ks :: RecordAt(store, k).Some?
    requires items != [] && multiset(items) == multiset(ItemsAt(store, ks))
    ensures multiset(rest + [k]) == multiset(ks) && RecordAt(store, k) == Some(items[|items| - 1])
    ensures forall k | k in rest :: RecordAt(store, k).Some?
    ensures multiset(items[..|items| - 1]) == multiset(ItemsAt(store, rest))
  {
    var init, last := items[..|items| - 1], items[|items| - 1];
    assert items == init + [last] && last in items;
    hide RecordAt, ItemsAt;
    SameElements(items, ItemsAt(store, ks));
    ItemsOf(store, ks, last);
    k :| k in ks && RecordAt(store, k) == Some(last);
    rest := TakeOut(ks, k);
    SameKeysSameItems(store, rest + [k], ks);
    ItemsStep(store, rest, k);
    SameButLast(init, ItemsAt(store, rest), last);
  }

  lemma TakeOut(ks: seq<Key>, k: Key) returns (rest: seq<Key>)
    requires k in ks
    ensures multiset(rest + [k]) == multiset(ks) && forall x | x in rest :: x in ks
  {
    var ks' := PutLast(ks, k);
    SameElements(ks', ks);
    rest := ks'[..|ks'| - 1];
    assert ks' == rest + [k];
  }

  lemma SameButLast(a: seq<Item>, b: seq<Item>, last: Item)
    requires multiset(a + [last]) == multiset(b + [last])
    ensures multiset(a) == multiset(b)
  {
    assert multiset(a) == multiset(a + [last]) - multiset{last};
    assert multiset(b) == multiset(b + [last]) - multiset{last};
  }

  /** Every order of the records is an order of their keys. */
  lemma {:induction false} KeysFor(store: Store, ks: seq<Key>, items: seq<Item>) returns (ks': seq<Key>)
    requires forall k | k in ks :: RecordAt(store, k).Some?
    requires multiset(items) == multiset(ItemsAt(store, ks))
    ensures multiset(ks') == multiset(ks) && ItemsAt(store, ks') == items
    decreases |items|
  {
    hide RecordAt, ItemsAt;
    if items == [] {
      ItemsAlong(store, ks);
      assert |multiset(ItemsAt(store, ks))| == 0;
      ks' := [];
      ItemsAlong(store, ks');
    } else {
      var rest, k := KeyForLast(store, ks, items);
      var some := KeysFor(store, rest, items[..|items| - 1]);
      ItemsStep(store, some, k);
      ks' := some + [k];
    }
  }

  lemma StillDistinct(ks: seq<Key>, ks': seq<Key>)
    requires multiset(ks) == multiset(ks') && Distinct(ks)
    ensures Distinct(ks')
  {
    DistinctMultiset(ks);
    forall i, j | 0 <= i < j < |ks'|
      ensures ks'[i] != ks'[j]
    {
      assert ks' == ks'[..i] + [ks'[i]] + ks'[i + 1..j] + [ks'[j]] + ks'[j + 1..];
      assert multiset(ks')[ks'[i]] <= 1;
    }
  }

  /** A rearrangement of the items within their tables comes from reading the tables in another order. */
  lemma OrderFor(store: Store, ks: seq<Key>, items: seq<Item>) returns (ks': seq<Key>)
    requires ListDecodes(store) && InTableOrder(ks, store)
    requires multiset(items) == multiset(ItemsAt(store, ks)) && InTables(items)
    ensures InTableOrder(ks', store) && ItemsAt(store, ks') == items
  {
    TableItems(store, ks);
    hide RecordAt, ItemsAt, InTables, IsListed;
    ks' := KeysFor(store, ks, items);
    StillDistinct(ks, ks');
    SameElements(ks, ks');
    TableItems(store, ks');
  }

  lemma KeysWellKeyed(store: Store, ks: seq<Key>)
    ensures WellKeyed(Fold(ItemsAt(store, ks)))
  {
    FoldWellKeyed(ItemsAt(store, ks));
  }

  /** Two lists of one store and time, where its tables do not agree. */
  lemma TwoTableLists(store: Store) returns (now: nat, rows: seq<ClientGrants>, rows': seq<ClientGrants>)
    requires ListDecodes(store) && IdsMatch(store) && !StoreAgrees(store)
    ensures IsTableList(rows, store, now) && IsTableList(rows', store, now) && rows != rows'
  {
    hide ItemsAt, Fold, Enumerates, IdsMatch, ListDecodes, TablesAgree, RegistrationsAgreeIn, InTables, IsListing;
    var ks := SomeTableOrder(store);
    var items := ItemsAt(store, ks);
    TableItems(store, ks);
    ItemsAreRecords(store, ks);
    OneRegistration(store);
    TableOrderShowsExactly(items);
    var items' :| multiset(items') == multiset(items) && InTables(items') && !SameLists(Fold(items), Fold(items'));
    var ks' := OrderFor(store, ks, items');
    now, rows, rows' :| IsListing(rows, Fold(items), now) && IsListing(rows', Fold(items'), now) && rows != rows';
  }

  /** Over every decodable store: the list read table by table is a function of the records and the
      time exactly when the tables agree. */
  lemma TableListExactly(store: Store)
    requires ListDecodes(store) && IdsMatch(store)
    ensures (forall now: nat, rows, rows' :: IsTableList(rows, store, now) && IsTableList(rows', store, now) ==>
               rows == rows') <==>
            StoreAgrees(store)
  {
    hide StoreAgrees, IsTableList, ListDecodes, IdsMatch;
    if StoreAgrees(store) {
      forall now: nat, rows, rows' | IsTableList(rows, store, now) && IsTableList(rows', store, now)
        ensures rows == rows'
      {
        TableListIsDetermined(rows, rows', store, now);
      }
    } else {
      var now, rows, rows' := TwoTableLists(store);
    }
  }

  // -- After a revocation --------------------------------------------------------------------

  lemma {:induction false} KeptInTables(ks: seq<Key>, gone: set<Key>)
    requires forall i, j | 0 <= i < j < |ks| :: ScanRank(ks[i].kind) <= ScanRank(ks[j].kind)
    ensures var kept := KeptKeys(ks, gone);
            forall i, j | 0 <= i < j < |kept| :: ScanRank(kept[i].kind) <= ScanRank(kept[j].kind)
  {
    hide ScanRank;
    if ks != [] {
      var init, last := ks[..|ks| - 1], ks[|ks| - 1];
      KeptInTables(init, gone);
      assert forall k | k in KeptKeys(init, gone) :: ScanRank(k.kind) <= ScanRank(last.kind);
    }
  }

  lemma KeptInTableOrder(store: Store, ks: seq<Key>, gone: set<Key>)
    requires InTableOrder(ks, store)
    ensures InTableOrder(KeptKeys(ks, gone), store - gone)
  {
    KeptEnumerates(store, ks, gone);
    KeptInTables(ks, gone);
    hide Enumerates;
  }

  /** Revoking a client takes its row out of the list and leaves every other, where the tables of the
      records left agree. */
  lemma ListAfterRevokeClient(store: Store, id: string, rows: seq<ClientGrants>, rows': seq<ClientGrants>, now: nat)
    requires IdsMatch(store) && SessionsDecode(store) && id != ""
    requires StoreAgrees(Revoke(store, OfClient(id)).0)
    requires IsTableList(rows, store, now) && IsTableList(rows', Revoke(store, OfClient(id)).0, now)
    ensures rows' == RowsWithout(rows, id)
  {
    var gone := RevokedKeys(store, OfClient(id));
    var store' := store - gone;
    assert Revoke(store, OfClient(id)).0 == store';
    assert IdsMatch(store');
    hide StoreAgrees, ItemsAt, Fold, IsListing, RevokedKeys, Revoke, IdsMatch, ListDecodes, SameSights, RowsWithout;
    hide SessionsDecode, Enumerates, ScanRank, KeptKeys;
    var ks :| InTableOrder(ks, store) && IsListing(rows, Fold(ItemsAt(store, ks)), now);
    var ks' :| InTableOrder(ks', store') && IsListing(rows', Fold(ItemsAt(store', ks')), now);
    var kept := KeptKeys(ks, gone);
    KeptInTableOrder(store, ks, gone);
    TablesShowAlike(store', kept, ks');
    SightsDecideListing(Fold(ItemsAt(store', ks')), Fold(ItemsAt(store', kept)), rows', now);
    KeptOrderAfterRevoke(store, id, ks, rows, rows', now);
  }

  lemma SomeTableList(store: Store, now: nat) returns (rows: seq<ClientGrants>)
    requires ListDecodes(store)
    ensures IsTableList(rows, store, now)
  {
    hide ItemsAt, Fold, IsListing, ListDecodes, InTableOrder;
    var ks := SomeTableOrder(store);
    KeysWellKeyed(store, ks);
    rows := ListingExists(Fold(ItemsAt(store, ks)), now);
  }

  lemma LeftDecodes(store: Store, id: string)
    requires ListDecodes(store) && IdsMatch(store)
    ensures var left := Revoke(store, OfClient(id)).0; ListDecodes(left) && IdsMatch(left)
  {
    hide Revoked, Decodes;
  }

  lemma RevokeShowsMore(store: Store, id: string)
    returns (now: nat, rows: seq<ClientGrants>, rows': seq<ClientGrants>)
    requires ListDecodes(store) && IdsMatch(store) && !StoreAgrees(Revoke(store, OfClient(id)).0)
    ensures IsTableList(rows, store, now) && IsTableList(rows', Revoke(store, OfClient(id)).0, now)
    ensures rows' != RowsWithout(rows, id)
  {
    LeftDecodes(store, id);
    hide StoreAgrees, IsTableList, ListDecodes, IdsMatch, Revoke, RowsWithout;
    var one, other;
    now, one, other := TwoTableLists(Revoke(store, OfClient(id)).0);
    rows := SomeTableList(store, now);
    rows' := if one == RowsWithout(rows, id) then other else one;
  }

  /** However the tables are read before and after: revoking a client takes exactly its row out of
      the list if and only if the tables left agree. */
  lemma RevokeTakesOneRowExactly(store: Store, id: string)
    requires ListDecodes(store) && IdsMatch(store) && SessionsDecode(store) && id != ""
    ensures (forall now: nat, rows, rows' ::
               IsTableList(rows, store, now) && IsTableList(rows', Revoke(store, OfClient(id)).0, now) ==>
                 rows' == RowsWithout(rows, id)) <==>
            StoreAgrees(Revoke(store, OfClient(id)).0)
  {
    hide StoreAgrees, IsTableList, ListDecodes, IdsMatch, SessionsDecode, Revoke, RowsWithout;
    if StoreAgrees(Revoke(store, OfClient(id)).0) {
      forall now: nat, rows, rows' |
        IsTableList(rows, store, now) && IsTableList(rows', Revoke(store, OfClient(id)).0, now)
        ensures rows' == RowsWithout(rows, id)
      {
        ListAfterRevokeClient(store, id, rows, rows', now);
      }
    } else {
      var now, rows, rows' := RevokeShowsMore(store, id);
    }
  }
}
