/** What of the accumulated clients reaches the operator's list, and that every such list exists. */
module Sights {
  import opened Records
  import opened Ordering
  import opened Inventory

  /** All of an accumulator but the time of its snapshot. */
  function Sight(acc: Accumulator): Accumulator {
    acc.(snapshotAt := 0)
  }

  ghost predicate SameSights(a: map<string, Accumulator>, b: map<string, Accumulator>) {
    a.Keys == b.Keys && forall id | id in a :: Sight(a[id]) == Sight(b[id])
  }

  /** A row before its grants, scopes and name are put in; without tokens it has seen no activity. */
  ghost predicate Bare(clients: map<string, Accumulator>) {
    forall id | id in clients ::
      && clients[id].row.grants == [] && clients[id].row.scopes == [] && clients[id].row.title == ""
      && (clients[id].grants == map[] ==> clients[id].row.lastActivity == 0)
  }

  lemma AddKeepsBare(clients: map<string, Accumulator>, x: Item)
    requires Bare(clients)
    ensures Bare(Add(clients, x))
  {
    hide GrantAfter, GrantedScopes, Activity;
    if x.Token? && ClientOf(x).Some? {
      assert x.req.id in Add(clients, x)[ClientOf(x).value].grants;
    }
  }

  lemma {:induction false} FoldIsBare(items: seq<Item>)
    ensures Bare(Fold(items))
  {
    if items != [] {
      hide Add, Bare;
      FoldIsBare(items[..|items| - 1]);
      AddKeepsBare(Fold(items[..|items| - 1]), items[|items| - 1]);
    } else {
      assert Bare(map[]);
    }
  }

  lemma SightsDecideListing(a: map<string, Accumulator>, b: map<string, Accumulator>, rows: seq<ClientGrants>, now: nat)
    requires SameSights(a, b) && IsListing(rows, a, now)
    ensures IsListing(rows, b, now)
  {
    forall id | id in a
      ensures Shown(a[id], now) <==> Shown(b[id], now)
      ensures forall row :: IsRow(row, a[id]) <==> IsRow(row, b[id])
    {
      assert Sight(a[id]) == Sight(b[id]);
    }
    hide Shown, IsRow;
  }

  lemma RowShowsSight(row: ClientGrants, a: Accumulator, b: Accumulator)
    requires IsRow(row, a) && IsRow(row, b)
    requires a.row.grants == b.row.grants && a.row.scopes == b.row.scopes && a.row.title == b.row.title
    requires forall g | g in a.grants :: a.grants[g].requestId == g
    requires forall g | g in b.grants :: b.grants[g].requestId == g
    ensures Sight(a) == Sight(b)
  {
    assert a.row == b.row;
    assert a.scopes == b.scopes;
    ValuesShowGrants(a.grants, b.grants, row.grants);
    ValuesShowGrants(b.grants, a.grants, row.grants);
    assert a.grants == b.grants;
  }

  lemma ValuesShowGrants(a: map<string, Grant>, b: map<string, Grant>, grants: seq<Grant>)
    requires forall g | g in a :: a[g].requestId == g
    requires forall g | g in b :: b[g].requestId == g
    requires forall g :: g in grants <==> g in a.Values
    requires forall g :: g in grants <==> g in b.Values
    ensures forall g | g in a :: g in b && a[g] == b[g]
  {
    forall g | g in a
      ensures g in b && a[g] == b[g]
    {
      assert a[g] in a.Values && a[g] in grants && a[g] in b.Values;
      var h :| h in b && b[h] == a[g];
    }
  }

  /** At a time when no registration has expired, the list gives away all there is to see. */
  lemma ListingShowsSights(a: map<string, Accumulator>, b: map<string, Accumulator>, rows: seq<ClientGrants>)
    requires WellKeyed(a) && WellKeyed(b) && Bare(a) && Bare(b)
    requires IsListing(rows, a, 0) && IsListing(rows, b, 0)
    ensures SameSights(a, b)
  {
    ListedAreKnown(a, b, rows);
    ListedAreKnown(b, a, rows);
    forall id | id in a
      ensures Sight(a[id]) == Sight(b[id])
    {
      assert Shown(a[id], 0);
      var row :| row in rows && row.clientId == id;
      hide IsRow, Shown, Sight;
      RowShowsSight(row, a[id], b[id]);
    }
  }

  lemma ListedAreKnown(a: map<string, Accumulator>, b: map<string, Accumulator>, rows: seq<ClientGrants>)
    requires IsListing(rows, a, 0) && IsListing(rows, b, 0)
    ensures a.Keys <= b.Keys
  {
    forall id | id in a
      ensures id in b
    {
      assert Shown(a[id], 0);
      var row :| row in rows && row.clientId == id;
    }
  }

  // -- Every listing exists -------------------------------------------------------------------

  lemma GrantsSort(grants: map<string, Grant>) returns (out: seq<Grant>)
    requires forall g | g in grants :: grants[g].requestId == g
    ensures StrictlySorted(out, NewerGrant) && forall g :: g in out <==> g in grants.Values
  {
    NewerIsStrictOrder();
    forall a, b | a in grants.Values && b in grants.Values && a != b
      ensures NewerGrant(a, b) || NewerGrant(b, a)
    {
      BelowTotal(a.requestId, b.requestId);
    }
    out := SortedOf(grants.Values, NewerGrant);
  }

  lemma RowExists(acc: Accumulator) returns (row: ClientGrants)
    requires forall g | g in acc.grants :: acc.grants[g].requestId == g
    ensures IsRow(row, acc) && row.clientId == acc.row.clientId
  {
    var grants := GrantsSort(acc.grants);
    BelowIsStrictOrder();
    forall a, b | a in acc.scopes && b in acc.scopes && a != b
      ensures Below(a, b) || Below(b, a)
    {
      BelowTotal(a, b);
    }
    var scopes := SortedOf(acc.scopes, Below);
    row := acc.row.(grants := grants, scopes := scopes, title := FirstTitle(grants));
  }

  /** The rows of the given clients, in some order. */
  ghost predicate AreRows(rows: set<ClientGrants>, clients: map<string, Accumulator>, ids: set<string>) {
    && (forall row | row in rows :: row.clientId in ids && row.clientId in clients && IsRow(row, clients[row.clientId]))
    && (forall id | id in ids :: exists row :: row in rows && row.clientId == id)
  }

  lemma {:induction false} RowsExist(clients: map<string, Accumulator>, ids: set<string>)
    returns (rows: set<ClientGrants>)
    requires WellKeyed(clients) && ids <= clients.Keys
    ensures AreRows(rows, clients, ids)
    decreases ids
  {
    if ids == {} {
      rows := {};
    } else {
      var id :| id in ids;
      var others := RowsExist(clients, ids - {id});
      var row := RowExists(clients[id]);
      hide IsRow;
      rows := others + {row};
      forall known | known in ids
        ensures exists y :: y in rows && y.clientId == known
      {
        if known == id {
          assert row in rows;
        } else {
          assert known in ids - {id};
          var y :| y in others && y.clientId == known;
          assert y in rows;
        }
      }
    }
  }

  lemma ListingExists(clients: map<string, Accumulator>, now: nat) returns (rows: seq<ClientGrants>)
    requires WellKeyed(clients)
    ensures IsListing(rows, clients, now)
  {
    hide Shown;
    var ids := set id | id in clients && Shown(clients[id], now);
    var all := RowsExist(clients, ids);
    NewerIsStrictOrder();
    forall a, b | a in all && b in all && a != b
      ensures NewerRow(a, b) || NewerRow(b, a)
    {
      if a.clientId == b.clientId {
        RowUnique(a, b, clients[a.clientId]);
      }
      BelowTotal(a.clientId, b.clientId);
    }
    hide IsRow, NewerRow;
    rows := SortedOf(all, NewerRow);
    forall id | id in clients && Shown(clients[id], now)
      ensures exists row :: row in rows && row.clientId == id
    {
      assert id in ids;
      var row :| row in all && row.clientId == id;
      assert row in rows;
    }
  }

  /** Whatever the time, the two give the same list. */
  ghost predicate SameLists(a: map<string, Accumulator>, b: map<string, Accumulator>) {
    forall now: nat, rows, rows' :: IsListing(rows, a, now) && IsListing(rows', b, now) ==> rows == rows'
  }

  /** The lists are the same exactly when the sights are. */
  lemma SameListsExactly(a: map<string, Accumulator>, b: map<string, Accumulator>)
    requires WellKeyed(a) && WellKeyed(b) && Bare(a) && Bare(b)
    ensures SameLists(a, b) <==> SameSights(a, b)
  {
    hide IsListing, SameSights;
    if SameSights(a, b) {
      forall now: nat, rows, rows' | IsListing(rows, a, now) && IsListing(rows', b, now)
        ensures rows == rows'
      {
        SightsDecideListing(a, b, rows, now);
        ListingUnique(rows, rows', b, now);
      }
    }
    if SameLists(a, b) {
      var rows := ListingExists(a, 0);
      var rows' := ListingExists(b, 0);
      ListingShowsSights(a, b, rows);
    }
  }

  lemma FoldsCompare(a: seq<Item>, b: seq<Item>)
    ensures SameLists(Fold(a), Fold(b)) <==> SameSights(Fold(a), Fold(b))
  {
    FoldWellKeyed(a);
    FoldWellKeyed(b);
    FoldIsBare(a);
    FoldIsBare(b);
    hide Fold;
    SameListsExactly(Fold(a), Fold(b));
  }
}
