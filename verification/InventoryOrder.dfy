/** Exactly when the order in which the records are read leaves no trace in the client list. */
module InventoryOrder {
  import opened Wrappers
  import opened Ordering
  import opened Inventory
  import opened InventoryLaws
  import opened Sights

  function ItemSet(items: seq<Item>): set<Item> {
    set x | x in items
  }

  /** Two token records of one client. */
  predicate SameClient(a: Item, b: Item) {
    a.Token? && b.Token? && ClientOf(a).Some? && ClientOf(a) == ClientOf(b)
  }

  /** Every grant carries one name, on the records that carry any. */
  predicate NamesAgree(records: set<Item>) {
    forall a, b | a in records && b in records && SameClient(a, b) ::
      a.req.id == b.req.id && a.req.title != "" && b.req.title != "" ==> a.req.title == b.req.title
  }

  /** A client's request times are all zero or none is. */
  predicate TimesAgree(records: set<Item>) {
    forall a, b | a in records && b in records && SameClient(a, b) ::
      a.req.requestedAt == 0 <==> b.req.requestedAt == 0
  }

  predicate RegistrationsAgreeIn(records: set<Item>) {
    forall a, b | a in records && b in records && a.Stored? && b.Stored? ::
      ClientOf(a).Some? && ClientOf(a) == ClientOf(b) ==> RegistrationsAgree(a.client, b.client)
  }

  predicate Registered(records: set<Item>, id: string) {
    exists x :: x in records && RegistrationOf(x, id)
  }

  predicate IsNewest(records: set<Item>, a: Item) {
    a in records && a.Token? && forall c | c in records && SameClient(a, c) :: c.req.requestedAt <= a.req.requestedAt
  }

  /** A client without a registration has one set of redirect URIs on its newest records. */
  predicate NewestAgree(records: set<Item>) {
    forall a, b | a in records && b in records && IsNewest(records, a) && IsNewest(records, b) && SameClient(a, b) ::
      Registered(records, ClientOf(a).value) || a.req.client.value.redirectUris == b.req.client.value.redirectUris
  }

  predicate OrderFree(records: set<Item>) {
    NamesAgree(records) && TimesAgree(records) && RegistrationsAgreeIn(records) && NewestAgree(records)
  }

  // -- What no order changes ---------------------------------------------------------------

  /** The record without what the order may decide: names, redirect URIs and zero times. */
  function Plain(item: Item): Item {
    if item.Token? && item.req.client.Some? then
      Token(item.kind, item.req.(client := Some(item.req.client.value.(redirectUris := [])), title := "",
                                 requestedAt := item.req.requestedAt + 1, rotatedAt := item.req.rotatedAt + 1))
    else item
  }

  function PlainGrant(g: Grant): Grant {
    g.(title := "", requestedAt := g.requestedAt + 1, lastActivity := g.lastActivity + 1)
  }

  function PlainGrants(grants: map<string, Grant>): map<string, Grant> {
    map g | g in grants :: PlainGrant(grants[g])
  }

  /** What the plain records of a client must add up to. */
  function PlainAcc(acc: Accumulator): Accumulator {
    Accumulator(
      acc.row.(redirectUris := if acc.row.registered then acc.row.redirectUris else [],
               firstActivity := 0,
               lastActivity := if acc.grants == map[] then 0 else acc.row.lastActivity + 1),
      PlainGrants(acc.grants), acc.scopes, 0)
  }

  function Cut(acc: Accumulator): Accumulator {
    acc.(row := acc.row.(firstActivity := 0), snapshotAt := 0)
  }

  ghost predicate Mirrors(plain: map<string, Accumulator>, clients: map<string, Accumulator>) {
    plain.Keys == clients.Keys && forall id | id in clients :: Cut(plain[id]) == PlainAcc(clients[id])
  }

  lemma PlainCountsAlike(grants: map<string, Grant>, x: Item)
    requires x.Token? && x.req.client.Some?
    ensures Plain(x).Token? && Plain(x).kind == x.kind && Plain(x).req.id == x.req.id
    ensures Activity(Plain(x).req) == Activity(x.req) + 1 && GrantedScopes(Plain(x).req) == GrantedScopes(x.req)
    ensures GrantAfter(PlainGrants(grants), x.kind, Plain(x).req) == PlainGrant(GrantAfter(grants, x.kind, x.req))
  {
  }

  lemma AfterPlain(p: Accumulator, acc: Accumulator, x: Item)
    requires ClientOf(x).Some? && Cut(p) == PlainAcc(acc)
    requires acc.grants == map[] ==> acc.row.lastActivity == 0
    ensures ClientOf(Plain(x)) == ClientOf(x) && Cut(After(p, Plain(x))) == PlainAcc(After(acc, x))
  {
    if x.Token? {
      PlainCountsAlike(acc.grants, x);
      hide GrantAfter, Activity, GrantedScopes, PlainGrant;
      var g := GrantAfter(acc.grants, x.kind, x.req);
      assert acc.grants[x.req.id := g] != map[] by {
        assert x.req.id in acc.grants[x.req.id := g];
      }
      assert PlainGrants(acc.grants[x.req.id := g]) == PlainGrants(acc.grants)[x.req.id := PlainGrant(g)];
      assert p.grants == PlainGrants(acc.grants);
    }
  }

  lemma UpdateMirrors(plain: map<string, Accumulator>, clients: map<string, Accumulator>, id: string,
                      p: Accumulator, acc: Accumulator)
    requires Mirrors(plain, clients) && Cut(p) == PlainAcc(acc)
    ensures Mirrors(plain[id := p], clients[id := acc])
  {
    hide Cut, PlainAcc;
  }

  lemma MirroredOf(plain: map<string, Accumulator>, clients: map<string, Accumulator>, id: string)
    requires Mirrors(plain, clients) && Bare(clients)
    ensures var acc := AccumulatorOf(clients, id);
            && Cut(AccumulatorOf(plain, id)) == PlainAcc(acc)
            && (acc.grants == map[] ==> acc.row.lastActivity == 0)
  {
    assert Cut(NewAccumulator(id)) == PlainAcc(NewAccumulator(id));
    hide Cut, PlainAcc;
  }

  lemma AddMirrors(plain: map<string, Accumulator>, clients: map<string, Accumulator>, x: Item)
    requires Mirrors(plain, clients) && Bare(clients)
    ensures Mirrors(Add(plain, Plain(x)), Add(clients, x))
  {
    hide Mirrors, Bare, Cut, PlainAcc, After, AccumulatorOf, ClientOf, Plain;
    PlainClient(x);
    if ClientOf(x).Some? {
      var id := ClientOf(x).value;
      var p, acc := AccumulatorOf(plain, id), AccumulatorOf(clients, id);
      MirroredOf(plain, clients, id);
      AfterPlain(p, acc, x);
      UpdateMirrors(plain, clients, id, After(p, Plain(x)), After(acc, x));
    }
  }

  lemma PlainClient(x: Item)
    ensures ClientOf(Plain(x)) == ClientOf(x)
  {
  }

  lemma {:induction false} FoldMirrors(items: seq<Item>)
    ensures Mirrors(Fold(Mapped(Plain, items)), Fold(items))
  {
    if items == [] {
    } else {
      var init, last := items[..|items| - 1], items[|items| - 1];
      FoldMirrors(init);
      FoldIsBare(init);
      AddMirrors(Fold(Mapped(Plain, init)), Fold(init), last);
      assert Mapped(Plain, items)[..|init|] == Mapped(Plain, init);
    }
  }

  lemma PlainAgree(items: seq<Item>)
    requires RegistrationsAgreeIn(ItemSet(items))
    ensures AllAgree(Mapped(Plain, items))
  {
    var plain := Mapped(Plain, items);
    forall i, j | 0 <= i < j < |plain|
      ensures Agree(plain[i], plain[j])
    {
      assert items[i] in ItemSet(items) && items[j] in ItemSet(items);
    }
  }

  lemma SameItems(items: seq<Item>, items': seq<Item>)
    requires multiset(items) == multiset(items')
    ensures ItemSet(items) == ItemSet(items')
  {
    SameElements(items, items');
  }

  /** In every order the clients are the same, and so is all of them that the order cannot decide. */
  lemma SamePlain(items: seq<Item>, items': seq<Item>)
    requires RegistrationsAgreeIn(ItemSet(items)) && multiset(items) == multiset(items')
    ensures Fold(items).Keys == Fold(items').Keys
    ensures forall id | id in Fold(items) :: PlainAcc(Fold(items)[id]) == PlainAcc(Fold(items')[id])
  {
    hide Fold, PlainAcc, Plain, RegistrationsAgreeIn, AllAgree, ItemSet, Mapped;
    SameItems(items, items');
    PlainAgree(items);
    PlainAgree(items');
    MappedPermutes(Plain, items, items');
    AgreeingFoldAlike(Mapped(Plain, items), Mapped(Plain, items'));
    FoldMirrors(items);
    FoldMirrors(items');
  }

  // -- What an order may change -------------------------------------------------------------

  predicate GrantToken(x: Item, id: string, g: string) {
    TokenOf(x, id) && x.req.id == g
  }

  /** The first name a grant is given. */
  function FirstName(items: seq<Item>, id: string, g: string): string {
    if items == [] then ""
    else
      var name, last := FirstName(items[..|items| - 1], id, g), items[|items| - 1];
      if name == "" && GrantToken(last, id, g) then last.req.title else name
  }

  lemma {:induction false} TitleIsFirstName(items: seq<Item>, id: string, g: string)
    ensures var acc := AccumulatorOf(Fold(items), id);
            FirstName(items, id, g) == if g in acc.grants then acc.grants[g].title else ""
  {
    if items != [] {
      TitleIsFirstName(items[..|items| - 1], id, g);
      hide RowAfter, GrantedScopes, Activity;
    }
  }

  /** The name comes from the first record of the grant that has one. */
  ghost predicate FirstNamed(items: seq<Item>, i: nat, id: string, g: string) {
    && i < |items| && GrantToken(items[i], id, g) && items[i].req.title != ""
    && forall j | 0 <= j < i && GrantToken(items[j], id, g) :: items[j].req.title == ""
  }

  lemma {:induction false} FirstNameAt(items: seq<Item>, id: string, g: string) returns (i: nat)
    ensures if FirstName(items, id, g) == ""
            then forall x | x in items && GrantToken(x, id, g) :: x.req.title == ""
            else FirstNamed(items, i, id, g) && items[i].req.title == FirstName(items, id, g)
  {
    i := 0;
    if items != [] {
      var init, last := items[..|items| - 1], items[|items| - 1];
      i := FirstNameAt(init, id, g);
      assert items == init + [last];
      hide GrantToken;
      if FirstName(init, id, g) == "" {
        i := |init|;
        assert forall j | 0 <= j < |init| :: items[j] in init;
      }
    }
  }

  /** There is only one such record. */
  lemma NamedIs(items: seq<Item>, i: nat, id: string, g: string)
    requires FirstNamed(items, i, id, g)
    ensures FirstName(items, id, g) == items[i].req.title
  {
    var j := FirstNameAt(items, id, g);
    hide GrantToken;
    assert items[i] in items;
  }

  /** The last of a client's newest records. */
  ghost predicate LastNewest(items: seq<Item>, i: nat, id: string) {
    && i < |items| && TokenOf(items[i], id)
    && (forall j | 0 <= j < |items| && TokenOf(items[j], id) :: items[j].req.requestedAt <= items[i].req.requestedAt)
    && (forall j | i < j < |items| && TokenOf(items[j], id) :: items[j].req.requestedAt < items[i].req.requestedAt)
  }

  lemma {:induction false} RegisteredExactly(items: seq<Item>, id: string)
    ensures AccumulatorOf(Fold(items), id).row.registered <==> Registered(ItemSet(items), id)
  {
    FoldExplains(items, id);
    hide Fold, AccumulatorOf, LastActivityExplained, FirstActivityExplained, ScopesExplained, GrantsExplained;
  }

  lemma {:induction false} NewestAt(items: seq<Item>, id: string) returns (i: nat)
    requires id in Fold(items) && !Fold(items)[id].row.registered
    ensures LastNewest(items, i, id) && Fold(items)[id].snapshotAt == items[i].req.requestedAt
    ensures Fold(items)[id].row.redirectUris == items[i].req.client.value.redirectUris
  {
    var init, last := items[..|items| - 1], items[|items| - 1];
    FoldKeys(init, id);
    hide GrantAfter, GrantedScopes, Activity;
    if ClientOf(last) != Some(id) {
      i := NewestAt(init, id);
      NewestExtends(init, last, i, id);
    } else if id in Fold(init) {
      i := NewestAt(init, id);
      if TakesSnapshot(Fold(init)[id], last.req) {
        NewestReplaced(init, last, i, id);
        i := |init|;
      } else {
        NewestExtends(init, last, i, id);
      }
    } else {
      i := |init|;
      NewestAlone(init, last, id);
    }
    assert items == init + [last];
  }

  lemma NewestExtends(init: seq<Item>, last: Item, i: nat, id: string)
    requires LastNewest(init, i, id)
    requires TokenOf(last, id) ==> last.req.requestedAt < init[i].req.requestedAt
    ensures LastNewest(init + [last], i, id)
  {
    hide TokenOf;
  }

  lemma NewestReplaced(init: seq<Item>, last: Item, i: nat, id: string)
    requires LastNewest(init, i, id) && TokenOf(last, id) && last.req.requestedAt >= init[i].req.requestedAt
    ensures LastNewest(init + [last], |init|, id)
  {
    hide TokenOf;
  }

  lemma NewestAlone(init: seq<Item>, last: Item, id: string)
    requires TokenOf(last, id) && forall x | x in init :: ClientOf(x) != Some(id)
    ensures LastNewest(init + [last], |init|, id)
  {
    var items := init + [last];
    forall j | 0 <= j < |init|
      ensures !TokenOf(items[j], id)
    {
      assert items[j] in init;
    }
  }

  /** There is only one last newest record, and an unregistered row shows its redirect URIs. */
  lemma UrisAre(items: seq<Item>, i: nat, id: string)
    requires LastNewest(items, i, id) && !Registered(ItemSet(items), id)
    ensures id in Fold(items) && !Fold(items)[id].row.registered
    ensures Fold(items)[id].row.redirectUris == items[i].req.client.value.redirectUris
  {
    hide Fold;
    FoldKeys(items, id);
    assert items[i] in items && ClientOf(items[i]) == Some(id);
    RegisteredExactly(items, id);
    var j := NewestAt(items, id);
    hide TokenOf;
    assert i == j;
  }

  function FirstActivity(items: seq<Item>, id: string): nat {
    if items == [] then 0
    else
      var first, last := FirstActivity(items[..|items| - 1], id), items[|items| - 1];
      if TokenOf(last, id) then Earliest(first, last.req.requestedAt) else first
  }

  lemma {:induction false} FirstActivityIs(items: seq<Item>, id: string)
    ensures AccumulatorOf(Fold(items), id).row.firstActivity == FirstActivity(items, id)
  {
    if items != [] {
      FirstActivityIs(items[..|items| - 1], id);
      hide GrantAfter, GrantedScopes, Activity;
    }
  }

  lemma {:induction false} FirstActivityTail(pre: seq<Item>, post: seq<Item>, id: string)
    requires forall x | x in post && TokenOf(x, id) :: x.req.requestedAt > 0
    ensures var f, f0 := FirstActivity(pre + post, id), FirstActivity(pre, id);
            if f0 > 0 then 0 < f <= f0
            else if f == 0 then forall x | x in post :: !TokenOf(x, id)
            else exists x :: x in post && TokenOf(x, id) && x.req.requestedAt == f
  {
    if post == [] {
      assert pre + post == pre;
    } else {
      var init, last := post[..|post| - 1], post[|post| - 1];
      assert post == init + [last] && (pre + post)[..|pre + post| - 1] == pre + init;
      assert last in post && forall x :: x in init ==> x in post;
      hide TokenOf;
      FirstActivityTail(pre, init, id);
      assert forall x :: x in post <==> x in init || x == last;
    }
  }

  /** The last of a client's records. */
  ghost predicate LastToken(items: seq<Item>, i: nat, id: string) {
    i < |items| && TokenOf(items[i], id) && forall j | i < j < |items| :: !TokenOf(items[j], id)
  }

  /** The last record decides whether the first activity is unknown. */
  lemma {:induction false} LastDecidesZero(items: seq<Item>, i: nat, id: string)
    requires LastToken(items, i, id)
    ensures FirstActivity(items, id) == 0 <==> items[i].req.requestedAt == 0
  {
    if i < |items| - 1 {
      LastDecidesZero(items[..|items| - 1], i, id);
    }
  }

  lemma {:induction false} LastTokenAt(items: seq<Item>, id: string) returns (i: nat)
    requires exists x :: x in items && TokenOf(x, id)
    ensures LastToken(items, i, id)
  {
    var init, last := items[..|items| - 1], items[|items| - 1];
    hide TokenOf;
    if TokenOf(last, id) {
      i := |init|;
    } else {
      var x :| x in items && TokenOf(x, id);
      assert items == init + [last];
      assert x in init;
      i := LastTokenAt(init, id);
    }
  }

  /** The first activity is no earlier time than a record's, nor later where no time is zero. */
  lemma {:induction false} FirstActivityBounds(items: seq<Item>, id: string)
    ensures var f := FirstActivity(items, id);
            && (f == 0 || exists x :: x in items && TokenOf(x, id) && x.req.requestedAt == f)
            && ((forall x | x in items && TokenOf(x, id) :: x.req.requestedAt > 0) ==>
                  forall x | x in items && TokenOf(x, id) :: 0 < f <= x.req.requestedAt)
  {
    if items != [] {
      var init, last := items[..|items| - 1], items[|items| - 1];
      FirstActivityBounds(init, id);
      assert items == init + [last];
      hide TokenOf;
      assert forall x :: x in items <==> x in init || x == last;
    }
  }

  // -- Comparing two orders -------------------------------------------------------------------

  /** Two orders agree on all that the order may decide for a client. */
  ghost predicate SameChoices(items: seq<Item>, items': seq<Item>, id: string) {
    && (forall g :: FirstName(items, id, g) == FirstName(items', id, g))
    && FirstActivity(items, id) == FirstActivity(items', id)
    && (id in Fold(items) && id in Fold(items') && !Fold(items)[id].row.registered ==>
          Fold(items)[id].row.redirectUris == Fold(items')[id].row.redirectUris)
  }

  lemma SightFrom(a: Accumulator, b: Accumulator)
    requires PlainAcc(a) == PlainAcc(b) && a.row.firstActivity == b.row.firstActivity
    requires !a.row.registered ==> a.row.redirectUris == b.row.redirectUris
    requires forall g | g in a.grants && g in b.grants :: a.grants[g].title == b.grants[g].title
    requires a.grants == map[] ==> a.row.lastActivity == 0
    requires b.grants == map[] ==> b.row.lastActivity == 0
    ensures Sight(a) == Sight(b)
  {
    assert a.grants.Keys == PlainGrants(a.grants).Keys == PlainGrants(b.grants).Keys == b.grants.Keys;
    forall g | g in a.grants
      ensures a.grants[g] == b.grants[g]
    {
      assert PlainGrants(a.grants)[g] == PlainGrants(b.grants)[g];
    }
    assert a.grants == b.grants;
    hide PlainGrants;
    assert PlainAcc(a).row == PlainAcc(b).row;
    assert a.row.registered == b.row.registered;
    assert a.row == b.row;
  }

  lemma SameChoicesSameSight(items: seq<Item>, items': seq<Item>, id: string)
    requires id in Fold(items) && id in Fold(items') && PlainAcc(Fold(items)[id]) == PlainAcc(Fold(items')[id])
    requires SameChoices(items, items', id)
    ensures Sight(Fold(items)[id]) == Sight(Fold(items')[id])
  {
    var a, b := Fold(items)[id], Fold(items')[id];
    FirstActivityIs(items, id);
    FirstActivityIs(items', id);
    FoldIsBare(items);
    FoldIsBare(items');
    hide Fold, PlainAcc;
    forall g | g in a.grants && g in b.grants
      ensures a.grants[g].title == b.grants[g].title
    {
      TitleIsFirstName(items, id, g);
      TitleIsFirstName(items', id, g);
    }
    SightFrom(a, b);
  }

  lemma ChoicesDecideSights(items: seq<Item>, items': seq<Item>)
    requires RegistrationsAgreeIn(ItemSet(items)) && multiset(items) == multiset(items')
    requires forall id | id in Fold(items) :: SameChoices(items, items', id)
    ensures SameSights(Fold(items), Fold(items'))
  {
    hide Fold, SameChoices, Sight, PlainAcc, RegistrationsAgreeIn;
    SamePlain(items, items');
    forall id | id in Fold(items)
      ensures Sight(Fold(items)[id]) == Sight(Fold(items')[id])
    {
      SameChoicesSameSight(items, items', id);
    }
  }

  lemma NamesFromSet(items: seq<Item>, items': seq<Item>, id: string, g: string)
    requires ItemSet(items) == ItemSet(items') && NamesAgree(ItemSet(items))
    ensures FirstName(items, id, g) == FirstName(items', id, g)
  {
    var i := FirstNameAt(items, id, g);
    var j := FirstNameAt(items', id, g);
    SetsHold(items, items');
    if FirstName(items, id, g) != "" {
      assert items[i] in items;
    }
    if FirstName(items', id, g) != "" {
      assert items'[j] in items';
    }
  }

  lemma SetsHold(items: seq<Item>, items': seq<Item>)
    requires ItemSet(items) == ItemSet(items')
    ensures forall x :: x in items <==> x in items'
    ensures forall x :: x in items <==> x in ItemSet(items)
  {
    assert forall x :: x in items <==> x in ItemSet(items);
    assert forall x :: x in items' <==> x in ItemSet(items');
  }

  lemma NewestInSet(items: seq<Item>, i: nat, id: string)
    requires LastNewest(items, i, id)
    ensures IsNewest(ItemSet(items), items[i]) && items[i] in ItemSet(items)
  {
    forall c | c in ItemSet(items) && SameClient(items[i], c)
      ensures c.req.requestedAt <= items[i].req.requestedAt
    {
      var j :| 0 <= j < |items| && items[j] == c;
      assert TokenOf(items[j], id);
    }
  }

  lemma UrisFromSet(items: seq<Item>, items': seq<Item>, id: string)
    requires ItemSet(items) == ItemSet(items') && NewestAgree(ItemSet(items))
    requires id in Fold(items) && id in Fold(items') && !Fold(items)[id].row.registered
    ensures Fold(items)[id].row.redirectUris == Fold(items')[id].row.redirectUris
  {
    hide Fold;
    RegisteredExactly(items, id);
    RegisteredExactly(items', id);
    var i := NewestAt(items, id);
    var j := NewestAt(items', id);
    NewestInSet(items, i, id);
    NewestInSet(items', j, id);
    hide IsNewest, LastNewest, Registered, ItemSet;
    assert SameClient(items[i], items'[j]);
  }

  lemma TimesFromSet(items: seq<Item>, items': seq<Item>, id: string)
    requires ItemSet(items) == ItemSet(items') && TimesAgree(ItemSet(items))
    ensures FirstActivity(items, id) == FirstActivity(items', id)
  {
    FirstActivityBounds(items, id);
    FirstActivityBounds(items', id);
    SetsHold(items, items');
    hide ItemSet, FirstActivity;
    forall x, y | x in items && y in items && TokenOf(x, id) && TokenOf(y, id)
      ensures x.req.requestedAt == 0 <==> y.req.requestedAt == 0
    {
      assert SameClient(x, y);
    }
    hide TokenOf;
  }

  /** The sights of the accumulated clients are a function of the records alone. */
  lemma SightsIgnoreOrder(items: seq<Item>, items': seq<Item>)
    requires OrderFree(ItemSet(items)) && multiset(items) == multiset(items')
    ensures SameSights(Fold(items), Fold(items'))
  {
    SameItems(items, items');
    SamePlain(items, items');
    hide Fold, PlainAcc, FirstName, FirstActivity, ItemSet, NamesAgree, TimesAgree, RegistrationsAgreeIn, NewestAgree;
    forall id | id in Fold(items)
      ensures SameChoices(items, items', id)
    {
      forall g ensures FirstName(items, id, g) == FirstName(items', id, g) {
        NamesFromSet(items, items', id, g);
      }
      TimesFromSet(items, items', id);
      if !Fold(items)[id].row.registered {
        UrisFromSet(items, items', id);
      }
    }
    ChoicesDecideSights(items, items');
  }

  /** Every order of the records and every map iteration order give the identical list. */
  lemma ListIgnoresOrder(items: seq<Item>, items': seq<Item>, rows: seq<ClientGrants>, rows': seq<ClientGrants>,
                         now: nat)
    requires OrderFree(ItemSet(items)) && multiset(items) == multiset(items')
    requires IsListing(rows, Fold(items), now) && IsListing(rows', Fold(items'), now)
    ensures rows == rows'
  {
    hide Fold, OrderFree, IsListing;
    SightsIgnoreOrder(items, items');
    SightsDecideListing(Fold(items), Fold(items'), rows, now);
    ListingUnique(rows, rows', Fold(items'), now);
  }

  // -- Needed: without it, two orders give different lists ---------------------------------------

  /** What the sights are equal in. */
  lemma SightsShowChoices(a: seq<Item>, b: seq<Item>, id: string, g: string)
    requires SameSights(Fold(a), Fold(b))
    ensures FirstName(a, id, g) == FirstName(b, id, g) && FirstActivity(a, id) == FirstActivity(b, id)
    ensures AccumulatorOf(Fold(a), id).row == AccumulatorOf(Fold(b), id).row
  {
    TitleIsFirstName(a, id, g);
    TitleIsFirstName(b, id, g);
    FirstActivityIs(a, id);
    FirstActivityIs(b, id);
    hide Fold, FirstName, FirstActivity, NewAccumulator;
    assert id in Fold(a) ==> Sight(Fold(a)[id]) == Sight(Fold(b)[id]);
  }

  lemma NamesShow(items: seq<Item>) returns (a: seq<Item>, b: seq<Item>)
    requires !NamesAgree(ItemSet(items))
    ensures multiset(a) == multiset(items) == multiset(b) && !SameSights(Fold(a), Fold(b))
  {
    var x, y :| x in items && y in items && SameClient(x, y) && x.req.id == y.req.id
                && x.req.title != "" && y.req.title != "" && x.req.title != y.req.title;
    var id, g := ClientOf(x).value, x.req.id;
    a := PutFirst(items, x);
    b := PutFirst(items, y);
    NamedIs(a, 0, id, g);
    NamedIs(b, 0, id, g);
    hide Fold, FirstName, ItemSet;
    if SameSights(Fold(a), Fold(b)) {
      SightsShowChoices(a, b, id, g);
    }
  }

  lemma TimesShow(items: seq<Item>) returns (a: seq<Item>, b: seq<Item>)
    requires !TimesAgree(ItemSet(items))
    ensures multiset(a) == multiset(items) == multiset(b) && !SameSights(Fold(a), Fold(b))
  {
    var x, y :| x in items && y in items && SameClient(x, y) && (x.req.requestedAt == 0) != (y.req.requestedAt == 0);
    var id := ClientOf(x).value;
    a := PutLast(items, x);
    b := PutLast(items, y);
    LastDecidesZero(a, |a| - 1, id);
    LastDecidesZero(b, |b| - 1, id);
    hide Fold, FirstActivity, ItemSet;
    if SameSights(Fold(a), Fold(b)) {
      SightsShowChoices(a, b, id, "");
    }
  }

  lemma LastRegistrationShows(items: seq<Item>, id: string)
    requires items != [] && RegistrationOf(items[|items| - 1], id)
    ensures var client, row := items[|items| - 1].client, AccumulatorOf(Fold(items), id).row;
            && row.registeredAt == client.createdAt && row.expiresAt == client.expiresAt
            && row.redirectUris == client.redirectUris
  {
  }

  lemma RegistrationsShow(items: seq<Item>) returns (a: seq<Item>, b: seq<Item>)
    requires !RegistrationsAgreeIn(ItemSet(items))
    ensures multiset(a) == multiset(items) == multiset(b) && !SameSights(Fold(a), Fold(b))
  {
    var x, y :| x in items && y in items && x.Stored? && y.Stored? && ClientOf(x).Some? && ClientOf(x) == ClientOf(y)
                && !RegistrationsAgree(x.client, y.client);
    var id := ClientOf(x).value;
    a := PutLast(items, x);
    b := PutLast(items, y);
    LastRegistrationShows(a, id);
    LastRegistrationShows(b, id);
    hide Fold, ItemSet;
    if SameSights(Fold(a), Fold(b)) {
      SightsShowChoices(a, b, id, "");
    }
  }

  /** A newest record after which the client has none as new. */
  lemma NewestIsLast(items: seq<Item>, i: nat, id: string)
    requires i < |items| && TokenOf(items[i], id) && IsNewest(ItemSet(items), items[i])
    requires forall j | i < j < |items| && TokenOf(items[j], id) :: items[j].req.requestedAt < items[i].req.requestedAt
    ensures LastNewest(items, i, id)
  {
    forall j | 0 <= j < |items| && TokenOf(items[j], id)
      ensures items[j].req.requestedAt <= items[i].req.requestedAt
    {
      assert items[j] in ItemSet(items) && SameClient(items[i], items[j]);
    }
  }

  /** Two orders whose last newest records differ in their redirect URIs. */
  lemma UrisDiffer(a: seq<Item>, i: nat, b: seq<Item>, j: nat, id: string)
    requires LastNewest(a, i, id) && !Registered(ItemSet(a), id)
    requires LastNewest(b, j, id) && !Registered(ItemSet(b), id)
    requires a[i].req.client.value.redirectUris != b[j].req.client.value.redirectUris
    ensures !SameSights(Fold(a), Fold(b))
  {
    UrisAre(a, i, id);
    UrisAre(b, j, id);
    hide Fold, LastNewest, Registered;
    if SameSights(Fold(a), Fold(b)) {
      SightsShowChoices(a, b, id, "");
    }
  }

  lemma NewestShow(items: seq<Item>) returns (a: seq<Item>, b: seq<Item>)
    requires !NewestAgree(ItemSet(items))
    ensures multiset(a) == multiset(items) == multiset(b) && !SameSights(Fold(a), Fold(b))
  {
    var x, y :| x in items && y in items && SameClient(x, y)
                && IsNewest(ItemSet(items), x) && IsNewest(ItemSet(items), y)
                && !Registered(ItemSet(items), ClientOf(x).value)
                && x.req.client.value.redirectUris != y.req.client.value.redirectUris;
    var id := ClientOf(x).value;
    a := PutLast(items, x);
    b := PutLast(items, y);
    SameItems(items, a);
    SameItems(items, b);
    hide Fold, ItemSet, IsNewest, Registered;
    NewestIsLast(a, |a| - 1, id);
    NewestIsLast(b, |b| - 1, id);
    hide LastNewest;
    UrisDiffer(a, |a| - 1, b, |b| - 1, id);
  }

  lemma SightsCompose(a: map<string, Accumulator>, b: map<string, Accumulator>, c: map<string, Accumulator>)
    requires SameSights(c, a) && SameSights(c, b)
    ensures SameSights(a, b)
  {
    hide Sight;
  }

  /** Over any number of records: every order gives the same list at every time exactly when each grant
      carries one name, no client mixes zero request times with others, registrations of one ID
      agree, and a client without one has the same redirect URIs on all its newest records. */
  lemma OrderShowsExactly(items: seq<Item>)
    ensures (forall items' :: multiset(items') == multiset(items) ==> SameLists(Fold(items), Fold(items'))) <==>
            OrderFree(ItemSet(items))
  {
    hide Fold, NamesAgree, TimesAgree, RegistrationsAgreeIn, NewestAgree, SameLists, SameSights;
    if OrderFree(ItemSet(items)) {
      forall items' | multiset(items') == multiset(items)
        ensures SameLists(Fold(items), Fold(items'))
      {
        SightsIgnoreOrder(items, items');
        FoldsCompare(items, items');
      }
    } else {
      var a, b;
      if !NamesAgree(ItemSet(items)) {
        a, b := NamesShow(items);
      } else if !NewestAgree(ItemSet(items)) {
        a, b := NewestShow(items);
      } else if !TimesAgree(ItemSet(items)) {
        a, b := TimesShow(items);
      } else {
        a, b := RegistrationsShow(items);
      }
      FoldsCompare(items, a);
      FoldsCompare(items, b);
      if SameSights(Fold(items), Fold(a)) && SameSights(Fold(items), Fold(b)) {
        SightsCompose(Fold(a), Fold(b), Fold(items));
      }
    }
  }
}
