/** What the operator's list says about the stored records, in both backends, and what the revocation of
    a grant does to it. */
module StoreLists {
  import opened Wrappers
  import opened Records
  import opened StoreSpec
  import opened StoreLaws
  import opened Inventory
  import opened InventoryLaws
  import opened Sights
  import opened ListedRows
  import opened Listing
  import opened TableLists

  /** A stored token of the client. */
  predicate Holds(store: Store, k: Key, id: string) {
    k in store && k.kind in {AccessToken, RefreshToken} && store[k].Session?
    && store[k].request.client.Some? && store[k].request.client.value.id == id && id != ""
  }

  /** A stored registration that has not expired. */
  predicate Stands(store: Store, id: string, now: nat) {
    var k := Key(ClientKind, id);
    id != "" && k in store && store[k].Registration? &&
    (store[k].client.expiresAt == 0 || now <= store[k].client.expiresAt)
  }

  lemma RecordIs(store: Store, k: Key)
    ensures RecordAt(store, k).Some? && RecordAt(store, k).value.Token? ==>
              && k in store && store[k].Session? && RecordAt(store, k).value.req == store[k].request
              && k.kind == if RecordAt(store, k).value.kind == Access then AccessToken else RefreshToken
    ensures RecordAt(store, k).Some? && RecordAt(store, k).value.Stored? ==>
              && k in store && store[k].Registration? && RecordAt(store, k).value.client == store[k].client
              && k.kind == ClientKind
    ensures k in store && k.kind in {AccessToken, RefreshToken} && store[k].Session? ==>
              RecordAt(store, k) == Some(Token(if k.kind == AccessToken then Access else Refresh, store[k].request))
    ensures k in store && k.kind == ClientKind && store[k].Registration? ==>
              RecordAt(store, k) == Some(Stored(store[k].client))
  {
  }

  lemma HoldsIsIssued(store: Store, ks: seq<Key>, id: string)
    requires Enumerates(ks, store)
    ensures (exists x :: x in ItemsAt(store, ks) && IssuedTo(x, id)) <==> exists k :: Holds(store, k, id)
  {
    hide RecordAt, ItemsAt;
    if x :| x in ItemsAt(store, ks) && IssuedTo(x, id) {
      ItemsOf(store, ks, x);
      var k :| k in ks && RecordAt(store, k) == Some(x);
      RecordIs(store, k);
      assert Holds(store, k, id);
    }
    if k :| Holds(store, k, id) {
      RecordIs(store, k);
      ItemsOf(store, ks, RecordAt(store, k).value);
    }
  }

  lemma StandsIsRegistered(store: Store, ks: seq<Key>, id: string, now: nat)
    requires Enumerates(ks, store) && IdsMatch(store)
    ensures (exists i: nat :: LastRegistered(ItemsAt(store, ks), i, id) &&
                              (ItemsAt(store, ks)[i].client.expiresAt == 0 ||
                               now <= ItemsAt(store, ks)[i].client.expiresAt)) <==>
            Stands(store, id, now)
  {
    hide RecordAt, ItemsAt;
    var items, key := ItemsAt(store, ks), Key(ClientKind, id);
    forall x | x in items && RegisteredAs(x, id)
      ensures key in store && store[key] == Registration(x.client)
    {
      ItemsOf(store, ks, x);
      var k :| k in ks && RecordAt(store, k) == Some(x);
      RecordIs(store, k);
    }
    if Stands(store, id, now) {
      RecordIs(store, key);
      ItemsOf(store, ks, Stored(store[key].client));
      var i := LastRegisteredAt(items, id);
      assert items[i] in items;
    }
  }

  lemma {:induction false} LastRegisteredAt(items: seq<Item>, id: string) returns (i: nat)
    requires exists x :: x in items && RegisteredAs(x, id)
    ensures LastRegistered(items, i, id)
  {
    var init, last := items[..|items| - 1], items[|items| - 1];
    hide RegisteredAs;
    if RegisteredAs(last, id) {
      i := |init|;
    } else {
      assert items == init + [last];
      i := LastRegisteredAt(init, id);
    }
  }

  /** In both backends a client is listed exactly when a token of it is stored or its registration has
      not expired. */
  lemma ListedClientsExactly(store: Store, rows: seq<ClientGrants>, now: nat, id: string)
    requires IdsMatch(store) && IsTableList(rows, store, now)
    ensures (exists row :: row in rows && row.clientId == id) <==>
            (exists k :: Holds(store, k, id)) || Stands(store, id, now)
  {
    hide ItemsAt, Fold, IsListing, IdsMatch, ListDecodes, Enumerates, Holds, Stands, LastRegistered, IssuedTo;
    var ks :| InTableOrder(ks, store) && IsListing(rows, Fold(ItemsAt(store, ks)), now);
    ListedExactly(ItemsAt(store, ks), rows, now, id);
    HoldsIsIssued(store, ks, id);
    StandsIsRegistered(store, ks, id, now);
  }

  // -- Counting stored records --------------------------------------------------------------

  function KeysWhere(store: Store, ks: seq<Key>, p: Item -> bool): set<Key> {
    set k | k in ks && RecordAt(store, k).Some? && p(RecordAt(store, k).value)
  }

  lemma OneKeyMore(store: Store, init: seq<Key>, last: Key, p: Item -> bool)
    requires last !in init
    ensures |KeysWhere(store, init + [last], p)| == |KeysWhere(store, init, p)| +
            if RecordAt(store, last).Some? && p(RecordAt(store, last).value) then 1 else 0
  {
    hide RecordAt;
    var taken := RecordAt(store, last).Some? && p(RecordAt(store, last).value);
    assert KeysWhere(store, init + [last], p) == KeysWhere(store, init, p) + if taken then {last} else {};
    assert last !in KeysWhere(store, init, p);
  }

  lemma {:induction false} TallyIsCount(store: Store, ks: seq<Key>, p: Item -> bool)
    requires Distinct(ks)
    ensures Tally(ItemsAt(store, ks), p) == |KeysWhere(store, ks, p)|
  {
    if ks != [] {
      var init, last := ks[..|ks| - 1], ks[|ks| - 1];
      TallyIsCount(store, init, p);
      assert ks == init + [last];
      hide RecordAt, KeysWhere, Tally, ItemsAt;
      ItemsStep(store, init, last);
      OneKeyMore(store, init, last, p);
      if RecordAt(store, last).Some? {
        TallyMore(ItemsAt(store, init), RecordAt(store, last).value, p);
      } else {
        assert ItemsAt(store, init) + [] == ItemsAt(store, init);
      }
    }
  }

  lemma KeysOfClient(store: Store, ks: seq<Key>, id: string, kind: TokenKind)
    requires Enumerates(ks, store) && id != ""
    ensures KeysWhere(store, ks, OfKind((x: Item) => IssuedTo(x, id), kind)) ==
            var stored := if kind == Access then AccessToken else RefreshToken;
            set k | k in store && k.kind == stored && Holds(store, k, id)
  {
    hide RecordAt;
    forall k
      ensures k in KeysWhere(store, ks, OfKind((x: Item) => IssuedTo(x, id), kind)) <==>
              k.kind == (if kind == Access then AccessToken else RefreshToken) && Holds(store, k, id)
    {
      RecordIs(store, k);
    }
  }

  lemma RowsAreNamed(items: seq<Item>, rows: seq<ClientGrants>, now: nat, row: ClientGrants)
    requires IsListing(rows, Fold(items), now) && row in rows
    ensures row.clientId != ""
  {
    ListedRow(items, rows, now, row);
    FoldKeys(items, row.clientId);
    hide Fold, IsRow;
  }

  lemma KeysAreDistinct(store: Store, ks: seq<Key>)
    requires Enumerates(ks, store)
    ensures Distinct(ks)
  {
  }

  /** A row counts the stored tokens of its client, each kind for itself. */
  lemma RowsCountStored(store: Store, rows: seq<ClientGrants>, now: nat, row: ClientGrants)
    requires IsTableList(rows, store, now) && row in rows
    ensures row.accessTokens == |set k | k in store && k.kind == AccessToken && Holds(store, k, row.clientId)|
    ensures row.refreshTokens == |set k | k in store && k.kind == RefreshToken && Holds(store, k, row.clientId)|
  {
    hide ItemsAt, Fold, IsListing, Tally, Enumerates, ListDecodes, KeysWhere, Holds, OfKind, RowRegistered;
    var ks :| InTableOrder(ks, store) && IsListing(rows, Fold(ItemsAt(store, ks)), now);
    RowsSay(ItemsAt(store, ks), rows, now, row);
    RowsAreNamed(ItemsAt(store, ks), rows, now, row);
    KeysAreDistinct(store, ks);
    var of := (x: Item) => IssuedTo(x, row.clientId);
    TallyIsCount(store, ks, OfKind(of, Access));
    TallyIsCount(store, ks, OfKind(of, Refresh));
    KeysOfClient(store, ks, row.clientId, Access);
    KeysOfClient(store, ks, row.clientId, Refresh);
  }

  /** And its fields are those of the records, read in some order of the tables. */
  lemma TableRowsSay(store: Store, rows: seq<ClientGrants>, now: nat) returns (ks: seq<Key>)
    requires IsTableList(rows, store, now)
    ensures InTableOrder(ks, store)
    ensures forall row | row in rows ::
              var items := ItemsAt(store, ks);
              RowSays(items, row) && RowGrantsSay(items, row) && RowRegistered(items, row)
  {
    hide ItemsAt, Fold, IsListing, InTableOrder, RowSays, RowGrantsSay, RowRegistered;
    ks :| InTableOrder(ks, store) && IsListing(rows, Fold(ItemsAt(store, ks)), now);
    forall row | row in rows
      ensures var items := ItemsAt(store, ks);
              RowSays(items, row) && RowGrantsSay(items, row) && RowRegistered(items, row)
    {
      RowsSay(ItemsAt(store, ks), rows, now, row);
      RowsShowGrants(ItemsAt(store, ks), rows, now, row);
    }
  }

  // -- After revoking a grant -------------------------------------------------------------------

  lemma GrantGoes(store: Store, g: string, k: Key)
    requires ListDecodes(store) && SessionsDecode(store) && k in store && IsListed(k)
    ensures var gone := RevokedKeys(store, OfGrant(g));
            && Revoke(store, OfGrant(g)) == (store - gone, Ok(|gone|))
            && RecordAt(store, k).Some?
            && var x := RecordAt(store, k).value;
               && (k in gone <==> x.Token? && x.req.id == g)
               && (k !in gone ==> RecordAt(store - gone, k) == Some(x))
  {
    GrantRevokeTakes(store, g, k);
  }

  lemma NoItemsOfGrant(store: Store, g: string)
    ensures var gone := RevokedKeys(store, OfGrant(g));
            ItemsAt(store - gone, KeptKeys([], gone)) == WithoutGrant(ItemsAt(store, []), g)
  {
  }

  lemma {:induction false} KeptItemsOfGrant(store: Store, ks: seq<Key>, g: string)
    requires ListDecodes(store) && SessionsDecode(store) && forall k | k in ks :: k in store && IsListed(k)
    ensures var gone := RevokedKeys(store, OfGrant(g));
            ItemsAt(store - gone, KeptKeys(ks, gone)) == WithoutGrant(ItemsAt(store, ks), g)
  {
    hide RevokedKeys, RecordAt, SessionsDecode, ListDecodes, IsListed, ItemsAt, KeptKeys, WithoutGrant;
    if ks == [] {
      NoItemsOfGrant(store, g);
    } else {
      var init, last := ks[..|ks| - 1], ks[|ks| - 1];
      KeptItemsOfGrant(store, init, g);
      GrantItemsStep(store, init, last, g);
      assert ks == init + [last];
    }
  }

  lemma GrantItemsStep(store: Store, init: seq<Key>, last: Key, g: string)
    requires ListDecodes(store) && SessionsDecode(store) && last in store && IsListed(last)
    requires var gone := RevokedKeys(store, OfGrant(g));
             ItemsAt(store - gone, KeptKeys(init, gone)) == WithoutGrant(ItemsAt(store, init), g)
    ensures var gone := RevokedKeys(store, OfGrant(g));
            ItemsAt(store - gone, KeptKeys(init + [last], gone)) == WithoutGrant(ItemsAt(store, init + [last]), g)
  {
    var gone := RevokedKeys(store, OfGrant(g));
    GrantGoes(store, g, last);
    hide RevokedKeys, RecordAt, ListDecodes, SessionsDecode, Revoke, IsListed, ItemsAt, KeptKeys, WithoutGrant;
    var x := RecordAt(store, last).value;
    ItemsStep(store, init, last);
    ItemsStep(store - gone, KeptKeys(init, gone), last);
    KeptMore(init, last, gone);
    WithoutGrantMore(ItemsAt(store, init), x, g);
  }

  lemma KeptMore(init: seq<Key>, last: Key, gone: set<Key>)
    ensures KeptKeys(init + [last], gone) ==
            if last in gone then KeptKeys(init, gone) else KeptKeys(init, gone) + [last]
  {
    assert (init + [last])[..|init|] == init;
  }

  lemma GrantsGone(store: Store, g: string)
    requires SessionsDecode(store)
    ensures Revoke(store, OfGrant(g)).0 == store - RevokedKeys(store, OfGrant(g))
  {
  }

  /** The records left by the revocation of a grant, in the order they had, list every other grant of
      every client as before, and that one no more. */
  lemma KeptOrderAfterRevokeGrant(store: Store, g: string, ks: seq<Key>, rows: seq<ClientGrants>,
                                  rows': seq<ClientGrants>, now: nat, id: string, grant: Grant)
    requires ListDecodes(store) && SessionsDecode(store) && Enumerates(ks, store)
    requires var gone := RevokedKeys(store, OfGrant(g));
             && IsListing(rows, Fold(ItemsAt(store, ks)), now)
             && IsListing(rows', Fold(ItemsAt(store - gone, KeptKeys(ks, gone))), now)
    ensures (exists row :: row in rows' && row.clientId == id && grant in row.grants) <==>
            grant.requestId != g && exists row :: row in rows && row.clientId == id && grant in row.grants
  {
    hide ItemsAt, Fold, IsListing, RevokedKeys, SessionsDecode, ListDecodes, IsListed;
    KeptItemsOfGrant(store, ks, g);
    ListingWithoutGrant(ItemsAt(store, ks), g, rows, rows', now, id, grant);
  }

  /** In the bucket, on every decodable store. */
  lemma ScannedListAfterRevokeGrant(store: Store, g: string, rows: seq<ClientGrants>, rows': seq<ClientGrants>,
                                    now: nat, id: string, grant: Grant)
    requires SessionsDecode(store)
    requires IsScannedList(rows, store, now) && IsScannedList(rows', Revoke(store, OfGrant(g)).0, now)
    ensures (exists row :: row in rows' && row.clientId == id && grant in row.grants) <==>
            grant.requestId != g && exists row :: row in rows && row.clientId == id && grant in row.grants
  {
    var gone := RevokedKeys(store, OfGrant(g));
    GrantsGone(store, g);
    hide ItemsAt, Fold, IsListing, RevokedKeys, Revoke, SessionsDecode, ListDecodes, Enumerates, ScannedBefore;
    var ks :| InScanOrder(ks, store) && IsListing(rows, Fold(ItemsAt(store, ks)), now);
    var ks' :| InScanOrder(ks', store - gone) && IsListing(rows', Fold(ItemsAt(store - gone, ks')), now);
    KeptEnumerates(store, ks, gone);
    KeptSorted(ks, gone);
    ScanOrderUnique(KeptKeys(ks, gone), ks', store - gone);
    KeptOrderAfterRevokeGrant(store, g, ks, rows, rows', now, id, grant);
  }

  /** In the tables, where those of the records left agree. */
  lemma TableListAfterRevokeGrant(store: Store, g: string, rows: seq<ClientGrants>, rows': seq<ClientGrants>,
                                  now: nat, id: string, grant: Grant)
    requires SessionsDecode(store) && IdsMatch(store) && StoreAgrees(Revoke(store, OfGrant(g)).0)
    requires IsTableList(rows, store, now) && IsTableList(rows', Revoke(store, OfGrant(g)).0, now)
    ensures (exists row :: row in rows' && row.clientId == id && grant in row.grants) <==>
            grant.requestId != g && exists row :: row in rows && row.clientId == id && grant in row.grants
  {
    var gone := RevokedKeys(store, OfGrant(g));
    var store' := store - gone;
    GrantsGone(store, g);
    assert IdsMatch(store');
    hide StoreAgrees, ItemsAt, Fold, IsListing, RevokedKeys, Revoke, IdsMatch, ListDecodes, SameSights;
    hide SessionsDecode, Enumerates, ScanRank, KeptKeys;
    var ks :| InTableOrder(ks, store) && IsListing(rows, Fold(ItemsAt(store, ks)), now);
    var ks' :| InTableOrder(ks', store') && IsListing(rows', Fold(ItemsAt(store', ks')), now);
    var kept := KeptKeys(ks, gone);
    KeptInTableOrder(store, ks, gone);
    TablesShowAlike(store', kept, ks');
    SightsDecideListing(Fold(ItemsAt(store', ks')), Fold(ItemsAt(store', kept)), rows', now);
    KeptOrderAfterRevokeGrant(store, g, ks, rows, rows', now, id, grant);
  }

  /** Revoking everything empties the list. */
  lemma NothingListedAfterRevokeAll(store: Store, rows: seq<ClientGrants>, now: nat)
    requires Revoke(store, Everything).1.Ok? && IsTableList(rows, Revoke(store, Everything).0, now)
    ensures rows == []
  {
    var left := Revoke(store, Everything).0;
    RevokeIsExact(store, Everything);
    forall k | k in left
      ensures k.kind !in {AccessToken, RefreshToken, ClientKind}
    {
      FullRevokeTakes(store, k);
    }
    hide Revoke, IsTableList;
    if rows != [] {
      ListedClientsExactly(left, rows, now, rows[0].clientId);
    }
  }
}
