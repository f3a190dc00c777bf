/** Exactly when the order of the records leaves no trace in a list that is read table by table:
    access tokens, then refresh tokens, then registrations. */
module TableOrder {
  import opened Ordering
  import opened Inventory
  import opened InventoryLaws
  import opened InventoryOrder
  import opened Sights

  function Table(x: Item): nat {
    match x
    case Token(kind, _) => if kind == Access then 0 else 1
    case Stored(_) => 2
  }

  ghost predicate InTables(items: seq<Item>) {
    forall i, j | 0 <= i < j < |items| :: Table(items[i]) <= Table(items[j])
  }

  predicate RefreshOf(x: Item, id: string) {
    TokenOf(x, id) && x.kind == Refresh
  }

  predicate NamedAccess(records: set<Item>, id: string, g: string) {
    exists x :: x in records && GrantToken(x, id, g) && x.kind == Access && x.req.title != ""
  }

  predicate NewestRefresh(records: set<Item>, id: string) {
    exists x :: x in records && IsNewest(records, x) && RefreshOf(x, id)
  }

  /** A grant carries one name on its access records, or where those have none, on its refresh records. */
  predicate TableNames(records: set<Item>) {
    forall a, b | a in records && b in records && SameClient(a, b) ::
      && a.kind == b.kind && a.req.id == b.req.id && a.req.title != "" && b.req.title != ""
      && (a.kind == Refresh ==> !NamedAccess(records, ClientOf(a).value, a.req.id)) ==>
        a.req.title == b.req.title
  }

  /** A client without a registration has one set of redirect URIs on its newest refresh records, or
      where none of those is newest, on its newest access records. */
  predicate TableUris(records: set<Item>) {
    forall a, b | a in records && b in records && SameClient(a, b) ::
      && a.kind == b.kind && IsNewest(records, a) && IsNewest(records, b)
      && (a.kind == Access ==> !NewestRefresh(records, ClientOf(a).value))
      && !Registered(records, ClientOf(a).value) ==>
        a.req.client.value.redirectUris == b.req.client.value.redirectUris
  }

  /** A client's refresh times are all zero or none is. Where its access times mix zero with others, a
      refresh record is no later than each of the others. */
  predicate TableTimes(records: set<Item>) {
    && (forall a, b | a in records && b in records && SameClient(a, b) ::
          a.kind == b.kind == Refresh ==> (a.req.requestedAt == 0 <==> b.req.requestedAt == 0))
    && (forall a, b | a in records && b in records && SameClient(a, b) ::
          a.kind == b.kind == Access && a.req.requestedAt == 0 < b.req.requestedAt ==>
            exists r :: r in records && RefreshOf(r, ClientOf(a).value) && r.req.requestedAt <= b.req.requestedAt)
  }

  predicate TablesAgree(records: set<Item>) {
    TableNames(records) && TableUris(records) && TableTimes(records)
  }

  // -- Enough -------------------------------------------------------------------------------

  /** The record that names a grant is an access record, if any of those has a name. */
  lemma FirstNamedTable(items: seq<Item>, i: nat, id: string, g: string)
    requires InTables(items) && FirstNamed(items, i, id, g)
    ensures items[i] in ItemSet(items)
    ensures items[i].kind == Access <==> NamedAccess(ItemSet(items), id, g)
  {
    if items[i].kind == Refresh {
      forall x | x in ItemSet(items) && GrantToken(x, id, g) && x.kind == Access
        ensures x.req.title == ""
      {
        var k :| 0 <= k < |items| && items[k] == x;
        assert Table(items[k]) < Table(items[i]);
      }
    }
  }

  lemma NamesFromTables(items: seq<Item>, items': seq<Item>, id: string, g: string)
    requires InTables(items) && InTables(items') && ItemSet(items) == ItemSet(items') && TableNames(ItemSet(items))
    ensures FirstName(items, id, g) == FirstName(items', id, g)
  {
    var i := FirstNameAt(items, id, g);
    var j := FirstNameAt(items', id, g);
    SetsHold(items, items');
    hide FirstName, InTables;
    if FirstName(items, id, g) != "" && FirstName(items', id, g) != "" {
      FirstNamedTable(items, i, id, g);
      FirstNamedTable(items', j, id, g);
      var a, b := items[i], items'[j];
      assert SameClient(a, b);
    }
  }

  /** The last newest record is a refresh record, if any of those is newest. */
  lemma LastNewestTable(items: seq<Item>, i: nat, id: string)
    requires InTables(items) && LastNewest(items, i, id)
    ensures items[i].kind == Access ==> !NewestRefresh(ItemSet(items), id)
  {
    if items[i].kind == Access {
      forall x | x in ItemSet(items) && RefreshOf(x, id)
        ensures !IsNewest(ItemSet(items), x)
      {
        var k :| 0 <= k < |items| && items[k] == x;
        assert SameClient(x, items[i]);
      }
    }
  }

  lemma UrisFromTables(items: seq<Item>, items': seq<Item>, id: string)
    requires InTables(items) && InTables(items') && ItemSet(items) == ItemSet(items') && TableUris(ItemSet(items))
    requires id in Fold(items) && id in Fold(items') && !Fold(items)[id].row.registered
    ensures Fold(items)[id].row.redirectUris == Fold(items')[id].row.redirectUris
  {
    hide Fold, InTables;
    RegisteredExactly(items, id);
    RegisteredExactly(items', id);
    var i := NewestAt(items, id);
    var j := NewestAt(items', id);
    NewestInSet(items, i, id);
    NewestInSet(items', j, id);
    LastNewestTable(items, i, id);
    LastNewestTable(items', j, id);
    var a, b := items[i], items'[j];
    assert TokenOf(a, id) && TokenOf(b, id) && SameClient(a, b);
    hide IsNewest, LastNewest, Registered, ItemSet;
    if a.kind == Refresh {
      assert RefreshOf(a, id) && NewestRefresh(ItemSet(items), id);
    }
    if b.kind == Refresh {
      assert RefreshOf(b, id) && NewestRefresh(ItemSet(items), id);
    }
  }

  /** Refresh records come last. */
  lemma LastIsRefresh(items: seq<Item>, r: Item, i: nat, id: string)
    requires InTables(items) && LastToken(items, i, id) && r in items && RefreshOf(r, id)
    ensures items[i].kind == Refresh && SameClient(r, items[i]) && items[i] in ItemSet(items)
  {
    var k :| 0 <= k < |items| && items[k] == r;
    assert Table(items[k]) <= Table(items[i]);
  }

  /** So a zero time among them erases the first activity. */
  lemma ZeroRefresh(items: seq<Item>, id: string)
    requires InTables(items) && TableTimes(ItemSet(items))
    requires exists r :: r in items && RefreshOf(r, id) && r.req.requestedAt == 0
    ensures FirstActivity(items, id) == 0
  {
    hide FirstActivity, InTables, LastToken;
    var r :| r in items && RefreshOf(r, id) && r.req.requestedAt == 0;
    var i := LastTokenAt(items, id);
    LastIsRefresh(items, r, i, id);
    LastDecidesZero(items, i, id);
  }

  lemma NoRefreshBefore(init: seq<Item>, last: Item, id: string)
    requires InTables(init + [last]) && TokenOf(last, id) && last.kind == Access
    ensures forall x | x in init :: !RefreshOf(x, id)
  {
    forall x | x in init
      ensures !RefreshOf(x, id)
    {
      var k :| 0 <= k < |init| && init[k] == x;
      assert Table((init + [last])[k]) <= Table((init + [last])[|init|]);
    }
  }

  lemma InTablesBefore(init: seq<Item>, last: Item)
    requires InTables(init + [last])
    ensures InTables(init)
  {
    hide Table;
    forall i, j | 0 <= i < j < |init|
      ensures Table(init[i]) <= Table(init[j])
    {
      assert (init + [last])[i] == init[i] && (init + [last])[j] == init[j];
    }
  }

  /** And where none is zero, the first activity is known and no later than any of them. */
  lemma {:induction false} RefreshBounds(items: seq<Item>, id: string)
    requires InTables(items)
    requires forall r | r in items && RefreshOf(r, id) :: r.req.requestedAt > 0
    ensures forall r | r in items && RefreshOf(r, id) :: 0 < FirstActivity(items, id) <= r.req.requestedAt
  {
    if items != [] {
      var init, last := items[..|items| - 1], items[|items| - 1];
      assert items == init + [last];
      assert forall x :: x in items <==> x in init || x == last;
      InTablesBefore(init, last);
      RefreshBounds(init, id);
      if TokenOf(last, id) && last.kind == Access {
        NoRefreshBefore(init, last, id);
      }
      hide TokenOf, InTables;
    }
  }

  lemma RefreshBelow(records: set<Item>, z: Item, x: Item, id: string) returns (r: Item)
    requires TableTimes(records) && z in records && x in records && TokenOf(z, id) && TokenOf(x, id)
    requires z.kind == x.kind == Access && z.req.requestedAt == 0 < x.req.requestedAt
    ensures r in records && RefreshOf(r, id) && r.req.requestedAt <= x.req.requestedAt
  {
    assert SameClient(z, x);
    r :| r in records && RefreshOf(r, id) && r.req.requestedAt <= x.req.requestedAt;
  }

  lemma FirstActivityOf(items: seq<Item>, id: string) returns (x: Item)
    requires FirstActivity(items, id) > 0
    ensures x in items && TokenOf(x, id) && x.req.requestedAt == FirstActivity(items, id)
  {
    FirstActivityBounds(items, id);
    x :| x in items && TokenOf(x, id) && x.req.requestedAt == FirstActivity(items, id);
  }

  /** One order's first activity is no later than another's, where no refresh time is zero. */
  lemma FirstActivityLeast(items: seq<Item>, items': seq<Item>, id: string)
    requires InTables(items) && InTables(items') && ItemSet(items) == ItemSet(items') && TableTimes(ItemSet(items))
    requires forall r | r in items && RefreshOf(r, id) :: r.req.requestedAt > 0
    requires FirstActivity(items', id) > 0
    ensures FirstActivity(items, id) <= FirstActivity(items', id)
  {
    var x := FirstActivityOf(items', id);
    SetsHold(items, items');
    hide FirstActivity, InTables, TableTimes, ItemSet;
    if z :| z in items && TokenOf(z, id) && z.req.requestedAt == 0 {
      RefreshBounds(items, id);
      if x.kind == Access {
        var r := RefreshBelow(ItemSet(items), z, x, id);
      }
    } else {
      FirstActivityBounds(items, id);
    }
  }

  /** A first activity known in one order is known in the other. */
  lemma NotZeroAlone(items: seq<Item>, items': seq<Item>, id: string)
    requires InTables(items) && ItemSet(items) == ItemSet(items') && TableTimes(ItemSet(items))
    requires forall r | r in items && RefreshOf(r, id) :: r.req.requestedAt > 0
    requires FirstActivity(items', id) > 0
    ensures FirstActivity(items, id) > 0
  {
    var x := FirstActivityOf(items', id);
    FirstActivityBounds(items, id);
    RefreshBounds(items, id);
    SetsHold(items, items');
    hide FirstActivity, InTables;
    if forall r | r in items :: !RefreshOf(r, id) {
      forall z | z in items && TokenOf(z, id)
        ensures z.req.requestedAt > 0
      {
        assert z in ItemSet(items) && x in ItemSet(items) && SameClient(z, x);
      }
    }
  }

  lemma TimesFromTables(items: seq<Item>, items': seq<Item>, id: string)
    requires InTables(items) && InTables(items') && ItemSet(items) == ItemSet(items') && TableTimes(ItemSet(items))
    ensures FirstActivity(items, id) == FirstActivity(items', id)
  {
    SetsHold(items, items');
    hide InTables, FirstActivity;
    if exists r :: r in items && RefreshOf(r, id) && r.req.requestedAt == 0 {
      ZeroRefresh(items, id);
      ZeroRefresh(items', id);
    } else {
      var f, f' := FirstActivity(items, id), FirstActivity(items', id);
      if f > 0 {
        FirstActivityLeast(items', items, id);
        NotZeroAlone(items', items, id);
      }
      if f' > 0 {
        FirstActivityLeast(items, items', id);
        NotZeroAlone(items, items', id);
      }
    }
  }

  lemma SightsIgnoreTableOrder(items: seq<Item>, items': seq<Item>)
    requires InTables(items) && InTables(items') && multiset(items) == multiset(items')
    requires RegistrationsAgreeIn(ItemSet(items)) && TablesAgree(ItemSet(items))
    ensures SameSights(Fold(items), Fold(items'))
  {
    SameItems(items, items');
    SamePlain(items, items');
    hide Fold, PlainAcc, FirstName, FirstActivity, ItemSet, InTables;
    hide TableNames, TableTimes, TableUris, RegistrationsAgreeIn;
    forall id | id in Fold(items)
      ensures SameChoices(items, items', id)
    {
      forall g ensures FirstName(items, id, g) == FirstName(items', id, g) {
        NamesFromTables(items, items', id, g);
      }
      TimesFromTables(items, items', id);
      if !Fold(items)[id].row.registered {
        UrisFromTables(items, items', id);
      }
    }
    ChoicesDecideSights(items, items');
  }

  // -- Needed -------------------------------------------------------------------------------

  function Part(items: seq<Item>, t: nat): seq<Item> {
    if items == [] then []
    else
      var last := items[|items| - 1];
      Part(items[..|items| - 1], t) + if Table(last) == t then [last] else []
  }

  /** The records table by table, each table in the order it had. */
  function Tabled(items: seq<Item>): seq<Item> {
    Part(items, 0) + Part(items, 1) + Part(items, 2)
  }

  lemma {:induction false} PartIs(items: seq<Item>, t: nat)
    ensures forall x | x in Part(items, t) :: Table(x) == t
  {
    if items != [] {
      PartIs(items[..|items| - 1], t);
    }
  }

  lemma TableBound(x: Item)
    ensures Table(x) <= 2
  {
  }

  lemma {:induction false} PartCounts(items: seq<Item>, t: nat, x: Item)
    ensures multiset(Part(items, t))[x] == if Table(x) == t then multiset(items)[x] else 0
  {
    if items != [] {
      var init, last := items[..|items| - 1], items[|items| - 1];
      PartCounts(init, t, x);
      assert items == init + [last];
      hide Table;
    }
  }

  lemma TabledPermutes(items: seq<Item>)
    ensures multiset(Tabled(items)) == multiset(items)
  {
    forall x
      ensures multiset(Tabled(items))[x] == multiset(items)[x]
    {
      PartCounts(items, 0, x);
      PartCounts(items, 1, x);
      PartCounts(items, 2, x);
      TableBound(x);
    }
  }

  lemma TabledInTables(items: seq<Item>)
    ensures InTables(Tabled(items))
  {
    PartIs(items, 0);
    PartIs(items, 1);
    PartIs(items, 2);
    hide Part, Table;
  }

  lemma {:induction false} PartFirst(items: seq<Item>)
    requires items != []
    ensures var part := Part(items, Table(items[0])); part != [] && part[0] == items[0]
  {
    if |items| > 1 {
      PartFirst(items[..|items| - 1]);
    } else {
      assert items[..0] == [];
    }
  }

  lemma PartLast(items: seq<Item>)
    requires items != []
    ensures var part := Part(items, Table(items[|items| - 1])); part != [] && part[|part| - 1] == items[|items| - 1]
  {
  }

  /** The records of one table as a stretch of all of them. */
  lemma Stretch(items: seq<Item>, t: nat) returns (from: nat, to: nat)
    requires t <= 2
    ensures from <= to <= |Tabled(items)| && to - from == |Part(items, t)|
    ensures forall j | from <= j < to :: Tabled(items)[j] == Part(items, t)[j - from]
    ensures forall j | 0 <= j < from :: Table(Tabled(items)[j]) < t
    ensures forall j | to <= j < |Tabled(items)| :: Table(Tabled(items)[j]) > t
  {
    PartIs(items, 0);
    PartIs(items, 1);
    PartIs(items, 2);
    var low, mid := |Part(items, 0)|, |Part(items, 0) + Part(items, 1)|;
    hide Part, Table;
    from := if t == 0 then 0 else if t == 1 then low else mid;
    to := from + |Part(items, t)|;
  }

  /** An order in which a record is the first of its table. */
  lemma FirstInTable(items: seq<Item>, x: Item) returns (a: seq<Item>, p: nat)
    requires x in items
    ensures multiset(a) == multiset(items) && InTables(a)
    ensures p < |a| && a[p] == x && forall j | 0 <= j < p :: Table(a[j]) < Table(x)
  {
    var y := PutFirst(items, x);
    TabledPermutes(y);
    TabledInTables(y);
    PartFirst(y);
    TableBound(x);
    a := Tabled(y);
    hide Part, Table, InTables, Tabled;
    var to;
    p, to := Stretch(y, Table(x));
  }

  /** An order in which a record is the last of its table. */
  lemma LastInTable(items: seq<Item>, x: Item) returns (a: seq<Item>, p: nat)
    requires x in items
    ensures multiset(a) == multiset(items) && InTables(a)
    ensures p < |a| && a[p] == x && forall j | p < j < |a| :: Table(a[j]) > Table(x)
  {
    var y := PutLast(items, x);
    TabledPermutes(y);
    TabledInTables(y);
    PartLast(y);
    TableBound(x);
    a := Tabled(y);
    hide Part, Table, InTables, Tabled;
    var from, to := Stretch(y, Table(x));
    p := to - 1;
  }

  lemma TableNamesShow(items: seq<Item>) returns (a: seq<Item>, b: seq<Item>)
    requires !TableNames(ItemSet(items))
    ensures multiset(a) == multiset(items) == multiset(b) && InTables(a) && InTables(b)
    ensures !SameSights(Fold(a), Fold(b))
  {
    var x, y :| x in items && y in items && SameClient(x, y) && x.kind == y.kind && x.req.id == y.req.id
                && x.req.title != "" && y.req.title != "" && x.req.title != y.req.title
                && (x.kind == Refresh ==> !NamedAccess(ItemSet(items), ClientOf(x).value, x.req.id));
    var id, g := ClientOf(x).value, x.req.id;
    var p, q;
    a, p := FirstInTable(items, x);
    b, q := FirstInTable(items, y);
    NamesFirst(items, a, p, id, g);
    NamesFirst(items, b, q, id, g);
    hide Fold, FirstName, ItemSet, InTables;
    if SameSights(Fold(a), Fold(b)) {
      SightsShowChoices(a, b, id, g);
    }
  }

  lemma NamesFirst(items: seq<Item>, a: seq<Item>, p: nat, id: string, g: string)
    requires multiset(a) == multiset(items) && p < |a| && GrantToken(a[p], id, g) && a[p].req.title != ""
    requires forall j | 0 <= j < p :: Table(a[j]) < Table(a[p])
    requires a[p].kind == Refresh ==> !NamedAccess(ItemSet(items), id, g)
    ensures FirstName(a, id, g) == a[p].req.title
  {
    SameElements(a, items);
    forall j | 0 <= j < p && GrantToken(a[j], id, g)
      ensures a[j].req.title == ""
    {
      assert a[j] in a && a[j] in ItemSet(items);
    }
    NamedIs(a, p, id, g);
  }

  lemma TableUrisShow(items: seq<Item>) returns (a: seq<Item>, b: seq<Item>)
    requires !TableUris(ItemSet(items))
    ensures multiset(a) == multiset(items) == multiset(b) && InTables(a) && InTables(b)
    ensures !SameSights(Fold(a), Fold(b))
  {
    var x, y :| x in items && y in items && SameClient(x, y) && x.kind == y.kind
                && IsNewest(ItemSet(items), x) && IsNewest(ItemSet(items), y)
                && (x.kind == Access ==> !NewestRefresh(ItemSet(items), ClientOf(x).value))
                && !Registered(ItemSet(items), ClientOf(x).value)
                && x.req.client.value.redirectUris != y.req.client.value.redirectUris;
    var id := ClientOf(x).value;
    var p, q;
    a, p := LastInTable(items, x);
    b, q := LastInTable(items, y);
    SameItems(items, a);
    SameItems(items, b);
    hide Fold, ItemSet, InTables, IsNewest, Registered, NewestRefresh;
    NewestLast(a, p, id);
    NewestLast(b, q, id);
    hide LastNewest;
    UrisDiffer(a, p, b, q, id);
  }

  lemma NewestLast(a: seq<Item>, p: nat, id: string)
    requires p < |a| && TokenOf(a[p], id) && IsNewest(ItemSet(a), a[p])
    requires forall j | p < j < |a| :: Table(a[j]) > Table(a[p])
    requires a[p].kind == Access ==> !NewestRefresh(ItemSet(a), id)
    ensures LastNewest(a, p, id)
  {
    forall j | p < j < |a| && TokenOf(a[j], id)
      ensures a[j].req.requestedAt < a[p].req.requestedAt
    {
      assert a[j] in ItemSet(a) && SameClient(a[p], a[j]);
      if a[j].req.requestedAt == a[p].req.requestedAt {
        AsNewIsNewest(ItemSet(a), a[p], a[j]);
        assert RefreshOf(a[j], id);
      }
    }
    NewestIsLast(a, p, id);
  }

  lemma AsNewIsNewest(records: set<Item>, a: Item, b: Item)
    requires IsNewest(records, a) && b in records && SameClient(a, b) && b.req.requestedAt == a.req.requestedAt
    ensures IsNewest(records, b)
  {
    forall c | c in records && SameClient(b, c)
      ensures c.req.requestedAt <= b.req.requestedAt
    {
      assert SameClient(a, c);
    }
  }

  lemma RefreshTimesShow(items: seq<Item>, x: Item, y: Item) returns (a: seq<Item>, b: seq<Item>)
    requires x in items && y in items && SameClient(x, y) && x.kind == y.kind == Refresh
    requires (x.req.requestedAt == 0) != (y.req.requestedAt == 0)
    ensures multiset(a) == multiset(items) == multiset(b) && InTables(a) && InTables(b)
    ensures !SameSights(Fold(a), Fold(b))
  {
    var id := ClientOf(x).value;
    var p, q;
    a, p := LastInTable(items, x);
    b, q := LastInTable(items, y);
    LastDecidesZero(a, p, id);
    LastDecidesZero(b, q, id);
    hide Fold, FirstActivity, InTables;
    if SameSights(Fold(a), Fold(b)) {
      SightsShowChoices(a, b, id, "");
    }
  }

  /** A zero access time read last leaves the first activity to the refresh records. */
  lemma ZeroLast(a: seq<Item>, p: nat, id: string, n: nat)
    requires p < |a| && TokenOf(a[p], id) && a[p].kind == Access && a[p].req.requestedAt == 0
    requires forall j | p < j < |a| :: Table(a[j]) > Table(a[p])
    requires forall r | r in a && RefreshOf(r, id) :: r.req.requestedAt > n
    ensures FirstActivity(a, id) == 0 || FirstActivity(a, id) > n
  {
    var pre, post := a[..p + 1], a[p + 1..];
    assert a == pre + post;
    LastDecidesZero(pre, p, id);
    AfterAreRefresh(a, p, id);
    FirstActivityTail(pre, post, id);
  }

  /** A non-zero access time read last keeps the first activity at or before it. */
  lemma NonZeroLast(a: seq<Item>, p: nat, id: string)
    requires p < |a| && TokenOf(a[p], id) && a[p].kind == Access && a[p].req.requestedAt > 0
    requires forall j | p < j < |a| :: Table(a[j]) > Table(a[p])
    requires forall r | r in a && RefreshOf(r, id) :: r.req.requestedAt > 0
    ensures 0 < FirstActivity(a, id) <= a[p].req.requestedAt
  {
    var pre, post := a[..p + 1], a[p + 1..];
    assert a == pre + post;
    assert pre[..|pre| - 1] == a[..p];
    assert 0 < FirstActivity(pre, id) <= a[p].req.requestedAt;
    AfterAreRefresh(a, p, id);
    FirstActivityTail(pre, post, id);
  }

  lemma AfterAreRefresh(a: seq<Item>, p: nat, id: string)
    requires p < |a| && forall j | p < j < |a| :: Table(a[j]) > Table(a[p])
    ensures forall x | x in a[p + 1..] && TokenOf(x, id) :: x in a && RefreshOf(x, id)
  {
    forall x | x in a[p + 1..] && TokenOf(x, id)
      ensures x in a && RefreshOf(x, id)
    {
      var j :| p < j < |a| && a[j] == x;
    }
  }

  lemma AccessTimesShow(items: seq<Item>, x: Item, y: Item) returns (a: seq<Item>, b: seq<Item>)
    requires x in items && y in items && SameClient(x, y) && x.kind == y.kind == Access
    requires x.req.requestedAt == 0 < y.req.requestedAt
    requires forall r | r in items && RefreshOf(r, ClientOf(x).value) :: r.req.requestedAt > y.req.requestedAt
    ensures multiset(a) == multiset(items) == multiset(b) && InTables(a) && InTables(b)
    ensures !SameSights(Fold(a), Fold(b))
  {
    var id := ClientOf(x).value;
    var p, q;
    a, p := LastInTable(items, x);
    b, q := LastInTable(items, y);
    SameElements(a, items);
    SameElements(b, items);
    ZeroLast(a, p, id, y.req.requestedAt);
    NonZeroLast(b, q, id);
    hide Fold, FirstActivity, InTables;
    if SameSights(Fold(a), Fold(b)) {
      SightsShowChoices(a, b, id, "");
    }
  }

  lemma TableTimesShow(items: seq<Item>) returns (a: seq<Item>, b: seq<Item>)
    requires !TableTimes(ItemSet(items))
    ensures multiset(a) == multiset(items) == multiset(b) && InTables(a) && InTables(b)
    ensures !SameSights(Fold(a), Fold(b))
  {
    if x, y :| x in items && y in items && SameClient(x, y) && x.kind == y.kind == Refresh
               && (x.req.requestedAt == 0) != (y.req.requestedAt == 0) {
      a, b := RefreshTimesShow(items, x, y);
    } else {
      var x, y :| x in items && y in items && SameClient(x, y) && x.kind == y.kind == Access
                  && x.req.requestedAt == 0 < y.req.requestedAt
                  && !exists r :: r in ItemSet(items) && RefreshOf(r, ClientOf(x).value)
                                  && r.req.requestedAt <= y.req.requestedAt;
      forall r | r in items && RefreshOf(r, ClientOf(x).value)
        ensures r.req.requestedAt > y.req.requestedAt
      {
        assert r in ItemSet(items);
      }
      a, b := AccessTimesShow(items, x, y);
    }
  }

  /** Over any number of records in which registrations of one ID agree: every order within the tables
      gives the same list at every time exactly when the tables agree. */
  lemma TableOrderShowsExactly(items: seq<Item>)
    requires InTables(items) && RegistrationsAgreeIn(ItemSet(items))
    ensures (forall items' :: multiset(items') == multiset(items) && InTables(items') ==>
               SameLists(Fold(items), Fold(items'))) <==>
            TablesAgree(ItemSet(items))
  {
    hide Fold, TableNames, TableTimes, TableUris, RegistrationsAgreeIn, SameLists, SameSights, InTables;
    if TablesAgree(ItemSet(items)) {
      forall items' | multiset(items') == multiset(items) && InTables(items')
        ensures SameLists(Fold(items), Fold(items'))
      {
        SightsIgnoreTableOrder(items, items');
        FoldsCompare(items, items');
      }
    } else {
      var a, b;
      if !TableNames(ItemSet(items)) {
        a, b := TableNamesShow(items);
      } else if !TableUris(ItemSet(items)) {
        a, b := TableUrisShow(items);
      } else {
        a, b := TableTimesShow(items);
      }
      FoldsCompare(items, a);
      FoldsCompare(items, b);
      if SameSights(Fold(items), Fold(a)) && SameSights(Fold(items), Fold(b)) {
        SightsCompose(Fold(a), Fold(b), Fold(items));
      }
    }
  }
}
