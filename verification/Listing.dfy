/** The client list of a store: which records feed the aggregator, and what a revocation does to it. */
module Listing {
  import opened Wrappers
  import opened Records
  import opened StoreSpec
  import opened Ordering
  import opened Inventory
  import opened InventoryLaws

  predicate IsListed(k: Key) {
    k.kind in {AccessToken, RefreshToken, ClientKind}
  }

  predicate ListDecodes(store: Store) {
    forall k | k in store && IsListed(k) :: Decodes(k.kind, store[k])
  }

  /** What a stored record contributes to the list, if anything. */
  function RecordAt(store: Store, k: Key): Option<Item> {
    if k !in store then None
    else match (k.kind, store[k])
      case (AccessToken, Session(req)) => Some(Token(Access, req))
      case (RefreshToken, Session(req)) => Some(Token(Refresh, req))
      case (ClientKind, Registration(client)) => Some(Stored(client))
      case _ => None
  }

  function ItemsAt(store: Store, ks: seq<Key>): seq<Item> {
    if ks == [] then []
    else ItemsAt(store, ks[..|ks| - 1]) + match RecordAt(store, ks[|ks| - 1])
      case None => []
      case Some(item) => [item]
  }

  /** `ks` names every listed record once, in whatever order a backend returns them. */
  ghost predicate Enumerates(ks: seq<Key>, store: Store) {
    Distinct(ks) && forall k :: k in ks <==> k in store && IsListed(k)
  }

  lemma {:induction false} ItemsConcat(store: Store, a: seq<Key>, b: seq<Key>)
    ensures ItemsAt(store, a + b) == ItemsAt(store, a) + ItemsAt(store, b)
  {
    if b == [] {
      assert a + b == a;
    } else {
      var init, last := b[..|b| - 1], b[|b| - 1];
      ItemsConcat(store, a, init);
      assert (a + b)[..|a + b| - 1] == a + init;
    }
  }

  lemma ItemsStep(store: Store, ks: seq<Key>, k: Key)
    ensures ItemsAt(store, ks + [k]) ==
            ItemsAt(store, ks) + if RecordAt(store, k).Some? then [RecordAt(store, k).value] else []
  {
    assert (ks + [k])[..|ks|] == ks;
  }

  lemma {:induction false} ItemsOf(store: Store, ks: seq<Key>, x: Item)
    ensures x in ItemsAt(store, ks) <==> exists k :: k in ks && RecordAt(store, k) == Some(x)
  {
    hide RecordAt;
    if ks != [] {
      var init, last := ks[..|ks| - 1], ks[|ks| - 1];
      ItemsOf(store, init, x);
      assert ks == init + [last];
    }
  }

  lemma RecordsAreStored(store: Store, k: Key)
    ensures RecordAt(store, k).Some? ==> k in store && IsListed(k)
  {
  }

  // -- Listing after a revocation ------------------------------------------------------

  /** What a revocation takes out of the store is what the list attributes to the client. */
  lemma RevokedIsAttributed(store: Store, k: Key, id: string)
    requires ListDecodes(store) && IdsMatch(store) && id != "" && k in store && IsListed(k)
    ensures RecordAt(store, k).Some?
    ensures k in RevokedKeys(store, OfClient(id)) <==> ClientOf(RecordAt(store, k).value) == Some(id)
    ensures k !in RevokedKeys(store, OfClient(id)) ==>
              RecordAt(store - RevokedKeys(store, OfClient(id)), k) == RecordAt(store, k)
  {
  }

  function KeptKeys(ks: seq<Key>, gone: set<Key>): (kept: seq<Key>)
    ensures forall k :: k in kept <==> k in ks && k !in gone
  {
    if ks == [] then []
    else
      assert ks == ks[..|ks| - 1] + [ks[|ks| - 1]];
      KeptKeys(ks[..|ks| - 1], gone) + if ks[|ks| - 1] in gone then [] else [ks[|ks| - 1]]
  }

  lemma {:induction false} KeptDistinct(ks: seq<Key>, gone: set<Key>)
    requires Distinct(ks)
    ensures Distinct(KeptKeys(ks, gone))
  {
    if ks != [] {
      var init, last := ks[..|ks| - 1], ks[|ks| - 1];
      KeptDistinct(init, gone);
      assert forall k | k in init :: k != last;
    }
  }

  lemma NothingKept(store: Store, id: string)
    ensures var gone := RevokedKeys(store, OfClient(id));
            ItemsAt(store - gone, KeptKeys([], gone)) == Without(ItemsAt(store, []), id)
  {
  }

  lemma {:induction false} KeptItems(store: Store, ks: seq<Key>, id: string)
    requires ListDecodes(store) && IdsMatch(store) && id != ""
    requires forall k | k in ks :: k in store && IsListed(k)
    ensures var gone := RevokedKeys(store, OfClient(id));
            ItemsAt(store - gone, KeptKeys(ks, gone)) == Without(ItemsAt(store, ks), id)
  {
    hide RevokedKeys, RecordAt, IdsMatch, ListDecodes, IsListed, ItemsAt, KeptKeys, Without;
    if ks == [] {
      NothingKept(store, id);
    } else {
      var init, last := ks[..|ks| - 1], ks[|ks| - 1];
      KeptItems(store, init, id);
      KeptItemsStep(store, init, last, id);
      assert ks == init + [last];
    }
  }

  lemma KeptItemsStep(store: Store, init: seq<Key>, last: Key, id: string)
    requires ListDecodes(store) && IdsMatch(store) && id != "" && last in store && IsListed(last)
    requires var gone := RevokedKeys(store, OfClient(id));
             ItemsAt(store - gone, KeptKeys(init, gone)) == Without(ItemsAt(store, init), id)
    ensures var gone := RevokedKeys(store, OfClient(id));
            ItemsAt(store - gone, KeptKeys(init + [last], gone)) == Without(ItemsAt(store, init + [last]), id)
  {
    hide RevokedKeys, RecordAt, ClientOf, ListDecodes, IdsMatch;
    var gone := RevokedKeys(store, OfClient(id));
    RevokedIsAttributed(store, last, id);
    var kept, items := KeptKeys(init, gone), ItemsAt(store, init);
    var x := RecordAt(store, last).value;
    ItemsStep(store, init, last);
    assert (init + [last])[..|init|] == init && (items + [x])[..|items|] == items;
    if last in gone {
      assert KeptKeys(init + [last], gone) == kept;
      assert Without(items + [x], id) == Without(items, id);
    } else {
      ItemsStep(store - gone, kept, last);
      assert KeptKeys(init + [last], gone) == kept + [last];
      assert Without(items + [x], id) == Without(items, id) + [x];
    }
  }

  /** The records left after a revocation, in the order they had before, give the list without the
      client's row. No agreement between records is needed. */
  lemma KeptOrderAfterRevoke(store: Store, id: string, ks: seq<Key>, rows: seq<ClientGrants>,
                             rows': seq<ClientGrants>, now: nat)
    requires ListDecodes(store) && IdsMatch(store) && id != "" && Enumerates(ks, store)
    requires var gone := RevokedKeys(store, OfClient(id));
             && IsListing(rows, Fold(ItemsAt(store, ks)), now)
             && IsListing(rows', Fold(ItemsAt(store - gone, KeptKeys(ks, gone))), now)
    ensures rows' == RowsWithout(rows, id)
    ensures var gone := RevokedKeys(store, OfClient(id)); Enumerates(KeptKeys(ks, gone), store - gone)
  {
    hide ItemsAt, Fold, IsListing, RevokedKeys, IdsMatch, ListDecodes, IsListed;
    KeptDistinct(ks, RevokedKeys(store, OfClient(id)));
    KeptItems(store, ks, id);
    ListingWithout(ItemsAt(store, ks), id, rows, rows', now);
  }

  lemma KeptEnumerates(store: Store, ks: seq<Key>, gone: set<Key>)
    requires Enumerates(ks, store)
    ensures Enumerates(KeptKeys(ks, gone), store - gone)
  {
    KeptDistinct(ks, gone);
  }

  // -- The order the bucket is scanned in ---------------------------------------------------

  function ScanRank(kind: Kind): nat {
    match kind
    case AccessToken => 0
    case RefreshToken => 1
    case ClientKind => 2
    case _ => 3
  }

  /** Access tokens, refresh tokens, registrations, each in the byte order of their keys. */
  predicate ScannedBefore(a: Key, b: Key) {
    ScanRank(a.kind) < ScanRank(b.kind) || (a.kind == b.kind && Below(Encode(a), Encode(b)))
  }

  lemma ScannedBeforeIsStrict()
    ensures StrictOrder(ScannedBefore)
  {
    BelowIsStrictOrder();
    hide Below, Encode;
  }

  ghost predicate InScanOrder(ks: seq<Key>, store: Store) {
    Enumerates(ks, store) && StrictlySorted(ks, ScannedBefore)
  }

  /** What the operator sees when the records are read in the bucket's order. */
  ghost predicate IsScannedList(rows: seq<ClientGrants>, store: Store, now: nat) {
    ListDecodes(store) && exists ks :: InScanOrder(ks, store) && IsListing(rows, Fold(ItemsAt(store, ks)), now)
  }

  /** The tables one after the other, each in whatever order its query returns. */
  ghost predicate InTableOrder(ks: seq<Key>, store: Store) {
    Enumerates(ks, store) && forall i, j | 0 <= i < j < |ks| :: ScanRank(ks[i].kind) <= ScanRank(ks[j].kind)
  }

  /** What the operator sees when the records are read table by table. */
  ghost predicate IsTableList(rows: seq<ClientGrants>, store: Store, now: nat) {
    ListDecodes(store) && exists ks :: InTableOrder(ks, store) && IsListing(rows, Fold(ItemsAt(store, ks)), now)
  }

  lemma ScannedIsTableList(rows: seq<ClientGrants>, store: Store, now: nat)
    requires IsScannedList(rows, store, now)
    ensures IsTableList(rows, store, now)
  {
    hide ItemsAt, Fold, IsListing, Below, Encode, IsListed, Distinct;
    var ks :| InScanOrder(ks, store) && IsListing(rows, Fold(ItemsAt(store, ks)), now);
    assert InTableOrder(ks, store);
  }

  lemma ScanOrderUnique(ks: seq<Key>, ks': seq<Key>, store: Store)
    requires InScanOrder(ks, store) && InScanOrder(ks', store)
    ensures ks == ks'
  {
    ScannedBeforeIsStrict();
    hide ScannedBefore, IsListed;
    SortedUnique(ks, ks', ScannedBefore);
  }

  /** The bucket's list is a function of the stored records, whether they agree or not. */
  lemma ScannedListIsDetermined(rows: seq<ClientGrants>, rows': seq<ClientGrants>, store: Store, now: nat)
    requires IsScannedList(rows, store, now) && IsScannedList(rows', store, now)
    ensures rows == rows'
  {
    hide ItemsAt, Fold, InScanOrder, IsListing;
    var ks :| InScanOrder(ks, store) && IsListing(rows, Fold(ItemsAt(store, ks)), now);
    var ks' :| InScanOrder(ks', store) && IsListing(rows', Fold(ItemsAt(store, ks')), now);
    ScanOrderUnique(ks, ks', store);
    ListingUnique(rows, rows', Fold(ItemsAt(store, ks)), now);
  }

  lemma {:induction false} KeptSorted(ks: seq<Key>, gone: set<Key>)
    requires StrictlySorted(ks, ScannedBefore)
    ensures StrictlySorted(KeptKeys(ks, gone), ScannedBefore)
  {
    hide ScannedBefore;
    if ks != [] {
      var init, last := ks[..|ks| - 1], ks[|ks| - 1];
      KeptSorted(init, gone);
      assert forall k | k in KeptKeys(init, gone) :: ScannedBefore(k, last);
    }
  }

  /** In the bucket, on every decodable store: revoking a client takes exactly its row out of the
      list; every other row, and the order of the list, is as before. */
  lemma ScannedListAfterRevokeClient(store: Store, id: string, rows: seq<ClientGrants>, rows': seq<ClientGrants>,
                                     now: nat)
    requires IdsMatch(store) && SessionsDecode(store) && id != ""
    requires IsScannedList(rows, store, now) && IsScannedList(rows', Revoke(store, OfClient(id)).0, now)
    ensures rows' == RowsWithout(rows, id)
  {
    var gone := RevokedKeys(store, OfClient(id));
    var store' := store - gone;
    assert Revoke(store, OfClient(id)).0 == store';
    hide ItemsAt, Fold, IsListing, RevokedKeys, Revoke, IdsMatch, ListDecodes, Enumerates, ScannedBefore;
    var ks :| InScanOrder(ks, store) && IsListing(rows, Fold(ItemsAt(store, ks)), now);
    var ks' :| InScanOrder(ks', store') && IsListing(rows', Fold(ItemsAt(store', ks')), now);
    KeptEnumerates(store, ks, gone);
    KeptSorted(ks, gone);
    ScanOrderUnique(KeptKeys(ks, gone), ks', store');
    KeptOrderAfterRevoke(store, id, ks, rows, rows', now);
  }

  /** The keys of one kind, in a given order. */
  function KeysOf(kind: Kind, ids: seq<string>): (ks: seq<Key>)
    ensures |ks| == |ids| && forall i | 0 <= i < |ks| :: ks[i] == Key(kind, ids[i])
  {
    seq(|ids|, i requires 0 <= i < |ids| => Key(kind, ids[i]))
  }

  lemma ScansAppend(before: seq<Key>, kind: Kind, ids: seq<string>)
    requires StrictlySorted(before, ScannedBefore) && StrictlySorted(KeysOf(kind, ids), ScannedBefore)
    requires forall k | k in before :: ScanRank(k.kind) < ScanRank(kind)
    ensures StrictlySorted(before + KeysOf(kind, ids), ScannedBefore)
    ensures forall k | k in before + KeysOf(kind, ids) :: ScanRank(k.kind) <= ScanRank(kind)
  {
    hide Below, Encode;
  }

  lemma TablesAppend(before: seq<Key>, kind: Kind, ids: seq<string>)
    requires forall i, j | 0 <= i < j < |before| :: ScanRank(before[i].kind) <= ScanRank(before[j].kind)
    requires forall k | k in before :: ScanRank(k.kind) < ScanRank(kind)
    ensures var ks := before + KeysOf(kind, ids);
            && (forall i, j | 0 <= i < j < |ks| :: ScanRank(ks[i].kind) <= ScanRank(ks[j].kind))
            && forall k | k in ks :: ScanRank(k.kind) <= ScanRank(kind)
  {
    hide ScanRank;
  }
}
