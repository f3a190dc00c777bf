/** What the client list depends on, and what its numbers mean. */
module InventoryLaws {
  import opened Wrappers
  import opened Records
  import opened Ordering
  import opened Inventory
  import opened MapSums

  // -- The order of the records does not matter ---------------------------------------

  /** Two token records of one client that may be read in either order: equal request times carry
      equal snapshots, one authorization carries one name, and a zero request time is not mixed
      with others. */
  predicate TokensAgree(a: Request, b: Request)
    requires a.client.Some? && b.client.Some?
  {
    && (a.requestedAt == b.requestedAt ==> a.client.value.redirectUris == b.client.value.redirectUris)
    && (a.id == b.id && a.title != "" && b.title != "" ==> a.title == b.title)
    && (a.requestedAt == 0 <==> b.requestedAt == 0)
  }

  predicate RegistrationsAgree(a: Client, b: Client) {
    a.createdAt == b.createdAt && a.expiresAt == b.expiresAt && a.redirectUris == b.redirectUris
  }

  predicate Agree(a: Item, b: Item) {
    ClientOf(a).Some? && ClientOf(a) == ClientOf(b) ==>
      (a.Token? && b.Token? ==> TokensAgree(a.req, b.req)) &&
      (a.Stored? && b.Stored? ==> RegistrationsAgree(a.client, b.client))
  }

  predicate AllAgree(items: seq<Item>) {
    forall i, j | 0 <= i < j < |items| :: Agree(items[i], items[j])
  }

  lemma RowsCommute(acc: Accumulator, a: Item, b: Item)
    requires a.Token? && b.Token? && a.req.client.Some? && b.req.client.Some? && TokensAgree(a.req, b.req)
    ensures var ab := AfterToken(AfterToken(acc, a.kind, a.req), b.kind, b.req);
            var ba := AfterToken(AfterToken(acc, b.kind, b.req), a.kind, a.req);
            ab.row == ba.row && ab.snapshotAt == ba.snapshotAt
  {
    hide GrantAfter, Activity;
    var row := acc.row;
    assert Earliest(Earliest(row.firstActivity, a.req.requestedAt), b.req.requestedAt)
        == Earliest(Earliest(row.firstActivity, b.req.requestedAt), a.req.requestedAt);
    assert Later(Later(row.lastActivity, Activity(a.req)), Activity(b.req))
        == Later(Later(row.lastActivity, Activity(b.req)), Activity(a.req));
  }

  lemma GrantsCommute(grants: map<string, Grant>, a: Item, b: Item)
    requires a.Token? && b.Token? && a.req.client.Some? && b.req.client.Some? && TokensAgree(a.req, b.req)
    ensures var ga := grants[a.req.id := GrantAfter(grants, a.kind, a.req)];
            var gb := grants[b.req.id := GrantAfter(grants, b.kind, b.req)];
            ga[b.req.id := GrantAfter(ga, b.kind, b.req)] == gb[a.req.id := GrantAfter(gb, a.kind, a.req)]
  {
    hide Activity;
    var ga := grants[a.req.id := GrantAfter(grants, a.kind, a.req)];
    var gb := grants[b.req.id := GrantAfter(grants, b.kind, b.req)];
    if a.req.id == b.req.id {
      assert GrantAfter(ga, b.kind, b.req) == GrantAfter(gb, a.kind, a.req);
    }
  }

  lemma TokensCommute(acc: Accumulator, a: Item, b: Item)
    requires a.Token? && b.Token? && a.req.client.Some? && b.req.client.Some? && TokensAgree(a.req, b.req)
    ensures AfterToken(AfterToken(acc, a.kind, a.req), b.kind, b.req) ==
            AfterToken(AfterToken(acc, b.kind, b.req), a.kind, a.req)
  {
    RowsCommute(acc, a, b);
    GrantsCommute(acc.grants, a, b);
    hide RowAfter, GrantAfter, GrantedScopes;
    var sa, sb := set s | s in GrantedScopes(a.req), set s | s in GrantedScopes(b.req);
    assert acc.scopes + sa + sb == acc.scopes + sb + sa;
  }

  lemma TokenAndRegistrationCommute(acc: Accumulator, a: Item, b: Item)
    requires a.Token? && a.req.client.Some? && b.Stored?
    ensures AfterRegistration(AfterToken(acc, a.kind, a.req), b.client) ==
            AfterToken(AfterRegistration(acc, b.client), a.kind, a.req)
  {
    hide GrantAfter, GrantedScopes, Activity;
  }

  lemma AftersCommute(acc: Accumulator, a: Item, b: Item)
    requires Agree(a, b) && ClientOf(a).Some? && ClientOf(a) == ClientOf(b)
    ensures After(After(acc, a), b) == After(After(acc, b), a)
  {
    if a.Token? && b.Token? {
      TokensCommute(acc, a, b);
    } else if a.Token? {
      TokenAndRegistrationCommute(acc, a, b);
    } else if b.Token? {
      TokenAndRegistrationCommute(acc, b, a);
    }
  }

  lemma AddCommutes(clients: map<string, Accumulator>, a: Item, b: Item)
    requires Agree(a, b)
    ensures Add(Add(clients, a), b) == Add(Add(clients, b), a)
  {
    hide After, NewAccumulator, Agree, ClientOf;
    if ClientOf(a).Some? && ClientOf(b).Some? {
      var ida, idb := ClientOf(a).value, ClientOf(b).value;
      if ida == idb {
        var acc := AccumulatorOf(clients, ida);
        AftersCommute(acc, a, b);
        assert Add(Add(clients, a), b) == clients[ida := After(After(acc, a), b)];
        assert Add(Add(clients, b), a) == clients[ida := After(After(acc, b), a)];
      } else {
        var na, nb := After(AccumulatorOf(clients, ida), a), After(AccumulatorOf(clients, idb), b);
        assert Add(Add(clients, a), b) == clients[ida := na][idb := nb];
        assert Add(Add(clients, b), a) == clients[idb := nb][ida := na];
      }
    }
  }

  /** Moving a record to the end changes nothing. */
  lemma {:induction false} MoveToEnd(items: seq<Item>, i: nat)
    requires i < |items| && AllAgree(items)
    ensures Fold(items) == Fold(items[..i] + items[i + 1..] + [items[i]])
    decreases |items|
  {
    var moved := items[..i] + items[i + 1..] + [items[i]];
    if i == |items| - 1 {
      assert moved == items;
    } else {
      var init, last := items[..|items| - 1], items[|items| - 1];
      MoveToEnd(init, i);
      var rest := init[..i] + init[i + 1..];
      assert (rest + [items[i]])[..|rest|] == rest && (rest + [last])[..|rest|] == rest;
      AddCommutes(Fold(rest), items[i], last);
      assert moved[..|moved| - 1] == rest + [last];
    }
  }

  /** Records that agree pairwise fold alike in every order. */
  lemma {:induction false} AgreeingFoldAlike(items: seq<Item>, items': seq<Item>)
    requires AllAgree(items) && AllAgree(items') && multiset(items) == multiset(items')
    ensures Fold(items) == Fold(items')
  {
    hide Add, Agree;
    if items == [] {
      assert |multiset(items')| == 0;
    } else {
      var init, last := items[..|items| - 1], items[|items| - 1];
      var i := FindIn(items, items');
      MoveToEnd(items', i);
      var rest := items'[..i] + items'[i + 1..];
      AgreeingFoldAlike(init, rest);
      assert (rest + [last])[..|rest|] == rest;
    }
  }

  lemma FindIn(items: seq<Item>, items': seq<Item>) returns (i: nat)
    requires items != [] && multiset(items) == multiset(items') && AllAgree(items')
    ensures i < |items'| && items'[i] == items[|items| - 1]
    ensures multiset(items[..|items| - 1]) == multiset(items'[..i] + items'[i + 1..])
    ensures AllAgree(items'[..i] + items'[i + 1..])
  {
    hide Agree;
    var init, last := items[..|items| - 1], items[|items| - 1];
    assert items == init + [last];
    assert last in multiset(items');
    i :| 0 <= i < |items'| && items'[i] == last;
    WithoutOne(items', i);
  }

  lemma WithoutOne(items: seq<Item>, i: nat)
    requires i < |items| && AllAgree(items)
    ensures multiset(items[..i] + items[i + 1..]) == multiset(items) - multiset{items[i]}
    ensures AllAgree(items[..i] + items[i + 1..])
  {
    hide Agree;
    assert items == items[..i] + [items[i]] + items[i + 1..];
  }

  // -- Removing one client's records removes one row ------------------------------------

  function Without(items: seq<Item>, id: string): seq<Item> {
    if items == [] then []
    else
      var last := items[|items| - 1];
      Without(items[..|items| - 1], id) + if ClientOf(last) == Some(id) then [] else [last]
  }

  lemma AddWithout(clients: map<string, Accumulator>, item: Item, id: string)
    ensures Add(clients, item) - {id} ==
            if ClientOf(item) == Some(id) then clients - {id} else Add(clients - {id}, item)
  {
    hide After, NewAccumulator;
  }

  lemma {:induction false} FoldWithout(items: seq<Item>, id: string)
    ensures Fold(Without(items, id)) == Fold(items) - {id}
  {
    if items != [] {
      var init, last := items[..|items| - 1], items[|items| - 1];
      FoldWithout(init, id);
      AddWithout(Fold(init), last, id);
      hide Add;
      var kept := Without(init, id);
      assert (kept + [last])[..|kept|] == kept;
      assert kept + [] == kept;
    }
  }

  function RowsWithout(rows: seq<ClientGrants>, id: string): (r: seq<ClientGrants>)
    ensures forall row :: row in r <==> row in rows && row.clientId != id
  {
    if rows == [] then []
    else
      assert rows == rows[..|rows| - 1] + [rows[|rows| - 1]];
      RowsWithout(rows[..|rows| - 1], id) + if rows[|rows| - 1].clientId == id then [] else [rows[|rows| - 1]]
  }

  lemma {:induction false} RowsWithoutSorted(rows: seq<ClientGrants>, id: string)
    requires StrictlySorted(rows, NewerRow)
    ensures StrictlySorted(RowsWithout(rows, id), NewerRow)
  {
    if rows != [] {
      var init, last := rows[..|rows| - 1], rows[|rows| - 1];
      RowsWithoutSorted(init, id);
      forall row | row in RowsWithout(init, id) ensures NewerRow(row, last) {
        var i :| 0 <= i < |init| && init[i] == row;
      }
    }
  }

  /** Listing what is left is the old list with that client's row taken out, all other rows
      unchanged and in the same places. */
  lemma ListingWithout(items: seq<Item>, id: string, rows: seq<ClientGrants>, rows': seq<ClientGrants>, now: nat)
    requires IsListing(rows, Fold(items), now) && IsListing(rows', Fold(Without(items, id)), now)
    ensures rows' == RowsWithout(rows, id)
  {
    FoldWithout(items, id);
    RowsWithoutSorted(rows, id);
    var kept := RowsWithout(rows, id);
    forall other | other in Fold(items) - {id} && Shown(Fold(items)[other], now)
      ensures exists row :: row in kept && row.clientId == other
    {
      var row :| row in rows && row.clientId == other;
      assert row in kept;
    }
    ListingUnique(rows', kept, Fold(items) - {id}, now);
  }

  // -- What the numbers count ------------------------------------------------------------

  function GrantCounts(grants: map<string, Grant>, kind: TokenKind): map<string, nat> {
    map id | id in grants :: if kind == Access then grants[id].accessTokens else grants[id].refreshTokens
  }

  function RowCounts(clients: map<string, Accumulator>, kind: TokenKind): map<string, nat> {
    map id | id in clients :: RowCount(clients[id], kind)
  }

  function RowCount(acc: Accumulator, kind: TokenKind): nat {
    if kind == Access then acc.row.accessTokens else acc.row.refreshTokens
  }

  /** Token records of the kind that can be attributed to a client. */
  function Attributable(items: seq<Item>, kind: TokenKind): nat {
    if items == [] then 0
    else
      var last := items[|items| - 1];
      Attributable(items[..|items| - 1], kind) +
        if last.Token? && last.kind == kind && ClientOf(last).Some? then 1 else 0
  }

  ghost predicate Balanced(acc: Accumulator, kind: TokenKind) {
    RowCount(acc, kind) == Sum(GrantCounts(acc.grants, kind))
  }

  lemma TokenKeepsBalance(acc: Accumulator, kind: TokenKind, req: Request, counted: TokenKind)
    requires req.client.Some? && Balanced(acc, counted)
    ensures Balanced(AfterToken(acc, kind, req), counted)
    ensures RowCount(AfterToken(acc, kind, req), counted) == RowCount(acc, counted) + if kind == counted then 1 else 0
  {
    var acc' := AfterToken(acc, kind, req);
    var before := GrantCounts(acc.grants, counted);
    var n := if counted == Access then acc'.grants[req.id].accessTokens else acc'.grants[req.id].refreshTokens;
    SumUpdates(before, req.id, n);
    assert GrantCounts(acc'.grants, counted) == before[req.id := n];
  }

  /** Within each row the grants account for every token, and over all rows every attributable
      record is counted once. */
  lemma {:induction false} CountsAreConserved(items: seq<Item>, kind: TokenKind)
    ensures forall id | id in Fold(items) :: Balanced(Fold(items)[id], kind)
    ensures Sum(RowCounts(Fold(items), kind)) == Attributable(items, kind)
  {
    if items != [] {
      var init, last := items[..|items| - 1], items[|items| - 1];
      CountsAreConserved(init, kind);
      AddConserves(Fold(init), last, kind);
    }
  }

  lemma AfterBalanced(clients: map<string, Accumulator>, item: Item, id: string, kind: TokenKind)
    requires ClientOf(item) == Some(id) && (id in clients ==> Balanced(clients[id], kind))
    ensures var acc := AccumulatorOf(clients, id);
            Balanced(After(acc, item), kind) &&
            RowCount(After(acc, item), kind) == RowCount(acc, kind) + if item.Token? && item.kind == kind then 1 else 0
  {
    var acc := AccumulatorOf(clients, id);
    assert GrantCounts(map[], kind) == map[];
    assert Balanced(acc, kind);
    if item.Token? {
      TokenKeepsBalance(acc, item.kind, item.req, kind);
    }
    hide AfterToken;
  }

  lemma AddConserves(clients: map<string, Accumulator>, item: Item, kind: TokenKind)
    requires forall id | id in clients :: Balanced(clients[id], kind)
    ensures forall id | id in Add(clients, item) :: Balanced(Add(clients, item)[id], kind)
    ensures Sum(RowCounts(Add(clients, item), kind)) ==
            Sum(RowCounts(clients, kind)) + if item.Token? && item.kind == kind && ClientOf(item).Some? then 1 else 0
  {
    if ClientOf(item).Some? {
      var id := ClientOf(item).value;
      AfterBalanced(clients, item, id, kind);
      assert RowCount(NewAccumulator(id), kind) == 0;
      ReplaceConserves(clients, id, After(AccumulatorOf(clients, id), item), kind);
      hide After, Balanced, NewAccumulator, RowCount, Sum, RowCounts;
    }
  }

  lemma ReplaceConserves(clients: map<string, Accumulator>, id: string, acc: Accumulator, kind: TokenKind)
    ensures Sum(RowCounts(clients[id := acc], kind)) ==
            Sum(RowCounts(clients, kind)) - (if id in clients then RowCount(clients[id], kind) else 0)
            + RowCount(acc, kind)
  {
    hide RowCount;
    SumUpdates(RowCounts(clients, kind), id, RowCount(acc, kind));
    assert RowCounts(clients[id := acc], kind) == RowCounts(clients, kind)[id := RowCount(acc, kind)];
  }

  // -- What a row says about the records ---------------------------------------------------

  predicate TokenOf(item: Item, id: string) {
    item.Token? && ClientOf(item) == Some(id)
  }

  predicate RegistrationOf(item: Item, id: string) {
    item.Stored? && ClientOf(item) == Some(id)
  }

  /** The newest activity of any token of the client. */
  ghost predicate LastActivityExplained(items: seq<Item>, id: string, acc: Accumulator) {
    && (forall x | x in items && TokenOf(x, id) :: Activity(x.req) <= acc.row.lastActivity)
    && (|| acc.row.lastActivity == 0
        || exists x :: x in items && TokenOf(x, id) && Activity(x.req) == acc.row.lastActivity)
  }

  /** The earliest request of any token of the client, where none has a zero time. */
  ghost predicate FirstActivityExplained(items: seq<Item>, id: string, acc: Accumulator) {
    (forall x | x in items && TokenOf(x, id) :: x.req.requestedAt > 0) ==>
      && (forall x | x in items && TokenOf(x, id) :: 0 < acc.row.firstActivity <= x.req.requestedAt)
      && (|| acc.row.firstActivity == 0
          || exists x :: x in items && TokenOf(x, id) && x.req.requestedAt == acc.row.firstActivity)
  }

  ghost predicate ScopesExplained(items: seq<Item>, id: string, acc: Accumulator) {
    && (forall x, s | x in items && TokenOf(x, id) && s in GrantedScopes(x.req) :: s in acc.scopes)
    && (forall s | s in acc.scopes :: exists x :: x in items && TokenOf(x, id) && s in GrantedScopes(x.req))
  }

  ghost predicate GrantsExplained(items: seq<Item>, id: string, acc: Accumulator) {
    && (forall x | x in items && TokenOf(x, id) :: x.req.id in acc.grants)
    && (forall g | g in acc.grants :: exists x :: x in items && TokenOf(x, id) && x.req.id == g)
  }

  /** The live registration's redirect URIs, or else those of a newest token record. */
  ghost predicate RedirectUrisExplained(items: seq<Item>, id: string, acc: Accumulator) {
    && (forall x | x in items && RegistrationOf(x, id) :: acc.row.registered)
    && (if acc.row.registered then
          exists x :: x in items && RegistrationOf(x, id) && x.client.redirectUris == acc.row.redirectUris
        else
          && (forall x | x in items && TokenOf(x, id) :: x.req.requestedAt <= acc.snapshotAt)
          && (acc == NewAccumulator(id) ||
              exists x :: x in items && TokenOf(x, id) && x.req.requestedAt == acc.snapshotAt &&
                          x.req.client.value.redirectUris == acc.row.redirectUris))
  }

  lemma AfterExplainsActivity(items: seq<Item>, x: Item, id: string, acc: Accumulator)
    requires ClientOf(x) == Some(id)
    requires LastActivityExplained(items, id, acc) && FirstActivityExplained(items, id, acc)
    ensures LastActivityExplained(items + [x], id, After(acc, x))
    ensures FirstActivityExplained(items + [x], id, After(acc, x))
  {
    hide GrantAfter;
    var acc' := After(acc, x);
    assert x in items + [x];
    assert forall y :: y in items ==> y in items + [x];
    assert forall y :: y in items + [x] ==> y in items || y == x;
  }

  lemma AfterExplainsSets(items: seq<Item>, x: Item, id: string, acc: Accumulator)
    requires ClientOf(x) == Some(id)
    requires ScopesExplained(items, id, acc) && GrantsExplained(items, id, acc)
    ensures ScopesExplained(items + [x], id, After(acc, x))
    ensures GrantsExplained(items + [x], id, After(acc, x))
  {
    hide GrantAfter, RowAfter, GrantedScopes;
    assert x in items + [x];
    assert forall y :: y in items ==> y in items + [x];
    assert forall y :: y in items + [x] ==> y in items || y == x;
  }

  lemma AfterExplainsUris(items: seq<Item>, x: Item, id: string, acc: Accumulator)
    requires ClientOf(x) == Some(id)
    requires RedirectUrisExplained(items, id, acc)
    ensures RedirectUrisExplained(items + [x], id, After(acc, x))
  {
    hide GrantAfter, GrantedScopes;
    assert x in items + [x];
    assert forall y :: y in items ==> y in items + [x];
    assert forall y :: y in items + [x] ==> y in items || y == x;
  }

  ghost predicate Explained(items: seq<Item>, id: string, acc: Accumulator) {
    && LastActivityExplained(items, id, acc)
    && FirstActivityExplained(items, id, acc)
    && ScopesExplained(items, id, acc)
    && GrantsExplained(items, id, acc)
    && RedirectUrisExplained(items, id, acc)
  }

  lemma OthersShowNoActivity(items: seq<Item>, x: Item, id: string, acc: Accumulator)
    requires ClientOf(x) != Some(id)
    requires LastActivityExplained(items, id, acc) && FirstActivityExplained(items, id, acc)
    ensures LastActivityExplained(items + [x], id, acc) && FirstActivityExplained(items + [x], id, acc)
  {
    hide Activity, ClientOf;
    assert forall y :: y in items + [x] <==> y in items || y == x;
  }

  lemma OthersShowNoSets(items: seq<Item>, x: Item, id: string, acc: Accumulator)
    requires ClientOf(x) != Some(id)
    requires ScopesExplained(items, id, acc) && GrantsExplained(items, id, acc)
    ensures ScopesExplained(items + [x], id, acc) && GrantsExplained(items + [x], id, acc)
  {
    hide GrantedScopes, ClientOf;
    assert forall y :: y in items + [x] <==> y in items || y == x;
  }

  lemma OthersShowNoUris(items: seq<Item>, x: Item, id: string, acc: Accumulator)
    requires ClientOf(x) != Some(id) && RedirectUrisExplained(items, id, acc)
    ensures RedirectUrisExplained(items + [x], id, acc)
  {
    hide NewAccumulator;
    assert forall y :: y in items + [x] <==> y in items || y == x;
  }

  lemma OthersExplainNothing(items: seq<Item>, x: Item, id: string, acc: Accumulator)
    requires ClientOf(x) != Some(id) && Explained(items, id, acc)
    ensures Explained(items + [x], id, acc)
  {
    hide LastActivityExplained, FirstActivityExplained, ScopesExplained, GrantsExplained, RedirectUrisExplained;
    OthersShowNoActivity(items, x, id, acc);
    OthersShowNoSets(items, x, id, acc);
    OthersShowNoUris(items, x, id, acc);
  }

  lemma {:induction false} FoldExplains(items: seq<Item>, id: string)
    ensures Explained(items, id, AccumulatorOf(Fold(items), id))
  {
    if items != [] {
      var init, last := items[..|items| - 1], items[|items| - 1];
      FoldExplains(init, id);
      assert items == init + [last];
      AddExplains(init, last, id, Fold(init));
    }
  }

  lemma AddExplains(items: seq<Item>, x: Item, id: string, clients: map<string, Accumulator>)
    requires Explained(items, id, AccumulatorOf(clients, id))
    ensures Explained(items + [x], id, AccumulatorOf(Add(clients, x), id))
  {
    var acc := AccumulatorOf(clients, id);
    if ClientOf(x) == Some(id) {
      AfterExplainsActivity(items, x, id, acc);
      AfterExplainsSets(items, x, id, acc);
      AfterExplainsUris(items, x, id, acc);
      hide LastActivityExplained, FirstActivityExplained, ScopesExplained, GrantsExplained;
      hide RedirectUrisExplained, After;
    } else {
      OthersExplainNothing(items, x, id, acc);
      hide Explained;
    }
  }

  /** Every client with a record has a row, and no row is invented. */
  lemma {:induction false} FoldKeys(items: seq<Item>, id: string)
    ensures id in Fold(items) <==> exists x :: x in items && ClientOf(x) == Some(id)
  {
    if items != [] {
      var init, last := items[..|items| - 1], items[|items| - 1];
      FoldKeys(init, id);
      assert items == init + [last];
    }
  }
}
