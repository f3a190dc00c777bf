/** What the operator's list says, read off the fields of the records alone: who is listed, what a row and
    its grants show, and in which order. */
module ListedRows {
  import opened Wrappers
  import opened Records
  import opened Inventory
  import opened InventoryLaws
  import opened InventoryOrder

  /** A token record that carries the client. */
  predicate IssuedTo(x: Item, id: string) {
    x.Token? && x.req.client.Some? && x.req.client.value.id == id && id != ""
  }

  predicate RegisteredAs(x: Item, id: string) {
    x.Stored? && x.client.id == id && id != ""
  }

  lemma IssuedIsTokenOf(x: Item, id: string)
    ensures IssuedTo(x, id) <==> TokenOf(x, id)
    ensures RegisteredAs(x, id) <==> RegistrationOf(x, id)
  {
  }

  /** The registration read last. */
  ghost predicate LastRegistered(items: seq<Item>, i: nat, id: string) {
    i < |items| && RegisteredAs(items[i], id) && forall j | i < j < |items| :: !RegisteredAs(items[j], id)
  }

  lemma TokenKeepsRegistration(acc: Accumulator, kind: TokenKind, req: Request)
    requires req.client.Some?
    ensures var row, row' := acc.row, AfterToken(acc, kind, req).row;
            && row'.registered == row.registered && row'.registeredAt == row.registeredAt
            && row'.expiresAt == row.expiresAt && (row.registered ==> row'.redirectUris == row.redirectUris)
  {
  }

  lemma AddRegisters(clients: map<string, Accumulator>, x: Item, id: string)
    ensures var row, row' := AccumulatorOf(clients, id).row, AccumulatorOf(Add(clients, x), id).row;
            if RegisteredAs(x, id) then
              && row'.registered && row'.registeredAt == x.client.createdAt && row'.expiresAt == x.client.expiresAt
              && row'.redirectUris == x.client.redirectUris
            else
              && row'.registered == row.registered && row'.registeredAt == row.registeredAt
              && row'.expiresAt == row.expiresAt && (row.registered ==> row'.redirectUris == row.redirectUris)
  {
    if IssuedTo(x, id) {
      TokenKeepsRegistration(AccumulatorOf(clients, id), x.kind, x.req);
    }
    hide AfterToken;
  }

  /** What a registration leaves in the row, and what a row without one has. */
  lemma {:induction false} RegistrationIs(items: seq<Item>, id: string) returns (i: nat)
    ensures var row := AccumulatorOf(Fold(items), id).row;
            if exists x :: x in items && RegisteredAs(x, id) then
              && LastRegistered(items, i, id) && row.registered
              && row.registeredAt == items[i].client.createdAt && row.expiresAt == items[i].client.expiresAt
              && row.redirectUris == items[i].client.redirectUris
            else
              !row.registered && row.registeredAt == 0 && row.expiresAt == 0
  {
    i := 0;
    if items != [] {
      var init, last := items[..|items| - 1], items[|items| - 1];
      assert items == init + [last];
      assert forall x :: x in items <==> x in init || x == last;
      i := RegistrationIs(init, id);
      AddRegisters(Fold(init), last, id);
      hide Add, AccumulatorOf;
      if RegisteredAs(last, id) {
        i := |init|;
      }
    }
  }

  lemma HasGrantsExactly(items: seq<Item>, id: string)
    ensures AccumulatorOf(Fold(items), id).grants != map[] <==> exists x :: x in items && IssuedTo(x, id)
  {
    FoldExplains(items, id);
    var acc := AccumulatorOf(Fold(items), id);
    hide Fold, AccumulatorOf, LastActivityExplained, FirstActivityExplained, ScopesExplained, RedirectUrisExplained;
    forall x | x in items
      ensures IssuedTo(x, id) <==> TokenOf(x, id)
    {
      IssuedIsTokenOf(x, id);
    }
    hide TokenOf, IssuedTo;
    if acc.grants == map[] {
      assert forall x | x in items :: !TokenOf(x, id);
    } else {
      var g :| g in acc.grants;
    }
  }

  /** A client is listed exactly when it holds a token, or its registration has not expired. */
  lemma ListedExactly(items: seq<Item>, rows: seq<ClientGrants>, now: nat, id: string)
    requires IsListing(rows, Fold(items), now)
    ensures (exists row :: row in rows && row.clientId == id) <==>
            || (exists x :: x in items && IssuedTo(x, id))
            || (exists i: nat :: LastRegistered(items, i, id) &&
                                 (items[i].client.expiresAt == 0 || now <= items[i].client.expiresAt))
  {
    FoldWellKeyed(items);
    FoldKeys(items, id);
    HasGrantsExactly(items, id);
    var i := RegistrationIs(items, id);
    OneLastRegistration(items, id);
    NamedBy(items, id);
    hide Fold, IssuedTo, RegisteredAs, ClientOf, IsRow;
    assert (exists row :: row in rows && row.clientId == id) <==> id in Fold(items) && Shown(Fold(items)[id], now);
    assert id in Fold(items) <==>
           (exists x :: x in items && IssuedTo(x, id)) || exists x :: x in items && RegisteredAs(x, id);
  }

  lemma NamedBy(items: seq<Item>, id: string)
    ensures forall x | x in items :: ClientOf(x) == Some(id) <==> IssuedTo(x, id) || RegisteredAs(x, id)
  {
  }

  lemma OneLastRegistration(items: seq<Item>, id: string)
    ensures forall i: nat, j: nat :: LastRegistered(items, i, id) && LastRegistered(items, j, id) ==> i == j
    ensures forall i: nat :: LastRegistered(items, i, id) ==> exists x :: x in items && RegisteredAs(x, id)
  {
    forall i: nat | LastRegistered(items, i, id)
      ensures exists x :: x in items && RegisteredAs(x, id)
    {
      assert items[i] in items;
    }
    hide RegisteredAs;
  }

  // -- The grants of a row ------------------------------------------------------------------

  function Tally(items: seq<Item>, p: Item -> bool): nat {
    if items == [] then 0
    else Tally(items[..|items| - 1], p) + if p(items[|items| - 1]) then 1 else 0
  }

  function OfGrant(id: string, g: string): Item -> bool {
    (x: Item) => IssuedTo(x, id) && x.req.id == g
  }

  function OfKind(p: Item -> bool, kind: TokenKind): Item -> bool {
    (x: Item) => p(x) && x.Token? && x.kind == kind
  }

  /** The times of some records: the earliest request, and the latest request or rotation. */
  ghost predicate TimesOf(items: seq<Item>, p: Item -> bool, requestedAt: nat, lastActivity: nat) {
    && (forall x | x in items && p(x) && x.Token? ::
          && requestedAt <= x.req.requestedAt <= lastActivity && x.req.rotatedAt <= lastActivity)
    && (exists x :: x in items && p(x) && x.Token? && x.req.requestedAt == requestedAt)
    && (exists x :: x in items && p(x) && x.Token? && lastActivity in {x.req.requestedAt, x.req.rotatedAt})
  }

  /** A grant counts the client's records that carry its ID, by kind, and spans their times. */
  ghost predicate GrantSays(items: seq<Item>, id: string, g: Grant) {
    var of := OfGrant(id, g.requestId);
    && g.accessTokens == Tally(items, OfKind(of, Access))
    && g.refreshTokens == Tally(items, OfKind(of, Refresh))
    && TimesOf(items, of, g.requestedAt, g.lastActivity)
    && if exists x :: x in items && of(x) && x.req.title != "" then
         exists i :: 0 <= i < |items| && of(items[i]) && items[i].req.title == g.title != ""
                     && forall j | 0 <= j < i && of(items[j]) :: items[j].req.title == ""
       else g.title == ""
  }

  lemma TallyMore(items: seq<Item>, x: Item, p: Item -> bool)
    ensures Tally(items + [x], p) == Tally(items, p) + if p(x) then 1 else 0
  {
    assert (items + [x])[..|items|] == items;
  }

  lemma {:induction false} TallyNone(items: seq<Item>, p: Item -> bool)
    requires forall x | x in items :: !p(x)
    ensures Tally(items, p) == 0
  {
    if items != [] {
      TallyNone(items[..|items| - 1], p);
    }
  }

  /** The grant as the accumulated client has it. */
  function GrantOf(clients: map<string, Accumulator>, id: string, g: string): Option<Grant> {
    var grants := AccumulatorOf(clients, id).grants;
    if g in grants then Some(grants[g]) else None
  }

  function OneMore(grant: Option<Grant>, kind: TokenKind, req: Request): Grant {
    GrantAfter(if grant.Some? then map[req.id := grant.value] else map[], kind, req)
  }

  lemma GrantOfAdd(clients: map<string, Accumulator>, x: Item, id: string, g: string)
    ensures GrantOf(Add(clients, x), id, g) ==
            if OfGrant(id, g)(x) then Some(OneMore(GrantOf(clients, id, g), x.kind, x.req))
            else GrantOf(clients, id, g)
  {
    hide RowAfter, Activity, GrantedScopes;
  }

  lemma {:induction false} GrantCounts(items: seq<Item>, id: string, g: string)
    ensures var grant := GrantOf(Fold(items), id, g);
            if grant.None? then forall x | x in items :: !OfGrant(id, g)(x)
            else
              && grant.value.requestId == g
              && grant.value.accessTokens == Tally(items, OfKind(OfGrant(id, g), Access))
              && grant.value.refreshTokens == Tally(items, OfKind(OfGrant(id, g), Refresh))
  {
    if items != [] {
      var init, last := items[..|items| - 1], items[|items| - 1];
      assert items == init + [last];
      GrantCounts(init, id, g);
      GrantOfAdd(Fold(init), last, id, g);
      if GrantOf(Fold(init), id, g).None? {
        TallyNone(init, OfKind(OfGrant(id, g), Access));
        TallyNone(init, OfKind(OfGrant(id, g), Refresh));
      }
      hide Add, AccumulatorOf, Activity, IssuedTo;
    }
  }

  lemma TimesMore(items: seq<Item>, x: Item, p: Item -> bool, requestedAt: nat, lastActivity: nat)
    requires TimesOf(items, p, requestedAt, lastActivity)
    ensures if p(x) && x.Token? then
              TimesOf(items + [x], p, if x.req.requestedAt < requestedAt then x.req.requestedAt else requestedAt,
                      Later(lastActivity, Activity(x.req)))
            else TimesOf(items + [x], p, requestedAt, lastActivity)
  {
    var more := items + [x];
    assert forall y :: y in more <==> y in items || y == x;
    var a :| a in items && p(a) && a.Token? && a.req.requestedAt == requestedAt;
    var b :| b in items && p(b) && b.Token? && lastActivity in {b.req.requestedAt, b.req.rotatedAt};
    assert a in more && b in more && x in more;
  }

  lemma {:induction false} GrantTimes(items: seq<Item>, id: string, g: string)
    ensures var grant := GrantOf(Fold(items), id, g);
            grant.Some? ==> TimesOf(items, OfGrant(id, g), grant.value.requestedAt, grant.value.lastActivity)
  {
    if items != [] {
      var init, last := items[..|items| - 1], items[|items| - 1];
      assert items == init + [last];
      GrantTimes(init, id, g);
      GrantOfAdd(Fold(init), last, id, g);
      hide Add, AccumulatorOf, IssuedTo;
      var was := GrantOf(Fold(init), id, g);
      if was.Some? {
        TimesMore(init, last, OfGrant(id, g), was.value.requestedAt, was.value.lastActivity);
      } else if OfGrant(id, g)(last) {
        FirstTimes(init, last, id, g);
      }
      hide TimesOf, Activity;
    }
  }

  lemma FirstTimes(init: seq<Item>, last: Item, id: string, g: string)
    requires GrantOf(Fold(init), id, g).None? && OfGrant(id, g)(last)
    ensures TimesOf(init + [last], OfGrant(id, g), last.req.requestedAt, Later(0, Activity(last.req)))
  {
    GrantCounts(init, id, g);
    assert last.Token?;
    hide Fold, GrantOf, IssuedTo;
    var more, p := init + [last], OfGrant(id, g);
    assert last in more && p(last);
    forall y | y in more && p(y)
      ensures y == last
    {
      assert y in init || y == last;
    }
    assert TimesOf(more, p, last.req.requestedAt, Later(0, Activity(last.req)));
  }

  lemma TitleSays(items: seq<Item>, id: string, g: string)
    requires GrantOf(Fold(items), id, g).Some?
    ensures var of, title := OfGrant(id, g), GrantOf(Fold(items), id, g).value.title;
            if exists x :: x in items && of(x) && x.req.title != "" then
              exists i :: 0 <= i < |items| && of(items[i]) && items[i].req.title == title != ""
                          && forall j | 0 <= j < i && of(items[j]) :: items[j].req.title == ""
            else title == ""
  {
    TitleIsFirstName(items, id, g);
    var i := FirstNameAt(items, id, g);
    forall x ensures OfGrant(id, g)(x) <==> GrantToken(x, id, g) {
    }
    hide Fold, GrantToken, FirstName, IssuedTo, AccumulatorOf;
    if GrantOf(Fold(items), id, g).value.title != "" {
      assert items[i] in items;
    }
  }

  /** Every grant that a client has, and every record, is accounted for. */
  lemma GrantsSay(items: seq<Item>, id: string, g: string)
    ensures var grant := GrantOf(Fold(items), id, g);
            && (grant.Some? <==> exists x :: x in items && OfGrant(id, g)(x))
            && (grant.Some? ==> grant.value.requestId == g && GrantSays(items, id, grant.value))
  {
    GrantCounts(items, id, g);
    GrantTimes(items, id, g);
    if GrantOf(Fold(items), id, g).Some? {
      TitleSays(items, id, g);
    }
    hide GrantOf, Fold, OfGrant, Tally;
  }

  // -- The rows ---------------------------------------------------------------------------------

  /** The scopes a record stands for: those granted, or while there are none those asked for. */
  function ScopesIn(req: Request): set<string> {
    if req.grantedScope == [] then set s | s in req.requestedScope else set s | s in req.grantedScope
  }

  lemma {:induction false} RowCounts(items: seq<Item>, id: string)
    ensures var row := AccumulatorOf(Fold(items), id).row;
            && row.accessTokens == Tally(items, OfKind((x: Item) => IssuedTo(x, id), Access))
            && row.refreshTokens == Tally(items, OfKind((x: Item) => IssuedTo(x, id), Refresh))
  {
    if items != [] {
      RowCounts(items[..|items| - 1], id);
      hide GrantAfter, GrantedScopes, Activity;
    }
  }

  lemma {:induction false} RowOrigin(items: seq<Item>, id: string)
    ensures AccumulatorOf(Fold(items), id).row.origin == if "https://" <= id then Cimd else Dcr
  {
    if items != [] {
      RowOrigin(items[..|items| - 1], id);
      hide GrantAfter, GrantedScopes, Activity;
    }
  }

  /** From `k` on every record of the client has a request time, the earliest of which is the first
      activity; the record before, if any, has none. */
  ghost predicate EarliestFrom(items: seq<Item>, id: string, k: nat, firstActivity: nat) {
    && k <= |items|
    && (k > 0 ==> IssuedTo(items[k - 1], id) && items[k - 1].req.requestedAt == 0)
    && (forall j | k <= j < |items| && IssuedTo(items[j], id) :: 0 < firstActivity <= items[j].req.requestedAt)
    && (firstActivity == 0 ||
        exists j :: k <= j < |items| && IssuedTo(items[j], id) && items[j].req.requestedAt == firstActivity)
  }

  lemma EarliestMore(items: seq<Item>, x: Item, id: string, k: nat, t: nat) returns (k': nat)
    requires EarliestFrom(items, id, k, t)
    ensures EarliestFrom(items + [x], id, k', if IssuedTo(x, id) then Earliest(t, x.req.requestedAt) else t)
  {
    k' := if IssuedTo(x, id) && x.req.requestedAt == 0 then |items| + 1 else k;
    var more := items + [x];
    if !(IssuedTo(x, id) && x.req.requestedAt == 0) && t > 0 {
      var j :| k <= j < |items| && IssuedTo(items[j], id) && items[j].req.requestedAt == t;
      assert more[j] == items[j];
    }
    assert IssuedTo(x, id) ==> more[|items|] == x;
    hide IssuedTo;
  }

  lemma {:induction false} FirstActivityFrom(items: seq<Item>, id: string) returns (k: nat)
    ensures EarliestFrom(items, id, k, AccumulatorOf(Fold(items), id).row.firstActivity)
  {
    k := 0;
    if items != [] {
      var init, last := items[..|items| - 1], items[|items| - 1];
      k := FirstActivityFrom(init, id);
      k := EarliestMore(init, last, id, k, AccumulatorOf(Fold(init), id).row.firstActivity);
      assert items == init + [last];
      hide GrantAfter, GrantedScopes, Activity, EarliestFrom, Earliest;
    }
  }

  /** The latest request or rotation of any of the client's records. */
  ghost predicate LatestOf(items: seq<Item>, id: string, lastActivity: nat) {
    && (forall x | x in items && IssuedTo(x, id) ::
          x.req.requestedAt <= lastActivity && x.req.rotatedAt <= lastActivity)
    && (lastActivity == 0 ||
        exists x :: x in items && IssuedTo(x, id) && lastActivity in {x.req.requestedAt, x.req.rotatedAt})
  }

  lemma LastActivityIs(items: seq<Item>, id: string)
    ensures LatestOf(items, id, AccumulatorOf(Fold(items), id).row.lastActivity)
  {
    FoldExplains(items, id);
    hide Fold, AccumulatorOf, FirstActivityExplained, GrantsExplained, ScopesExplained, RedirectUrisExplained;
    forall x
      ensures IssuedTo(x, id) <==> TokenOf(x, id)
    {
      IssuedIsTokenOf(x, id);
    }
    hide IssuedTo, TokenOf;
  }

  lemma ScopesAre(items: seq<Item>, id: string, s: string)
    ensures s in AccumulatorOf(Fold(items), id).scopes <==>
            exists x :: x in items && IssuedTo(x, id) && s in ScopesIn(x.req)
  {
    FoldExplains(items, id);
    hide Fold, AccumulatorOf, FirstActivityExplained, GrantsExplained, LastActivityExplained, RedirectUrisExplained;
    forall x
      ensures IssuedTo(x, id) <==> TokenOf(x, id)
      ensures x.Token? ==> (s in GrantedScopes(x.req) <==> s in ScopesIn(x.req))
    {
      IssuedIsTokenOf(x, id);
    }
    hide IssuedTo, TokenOf, GrantedScopes, ScopesIn;
  }

  /** What the fields of a row say about the client's records. */
  ghost predicate RowSays(items: seq<Item>, row: ClientGrants) {
    var id := row.clientId;
    && row.origin == (if "https://" <= id then Cimd else Dcr)
    && row.accessTokens == Tally(items, OfKind((x: Item) => IssuedTo(x, id), Access))
    && row.refreshTokens == Tally(items, OfKind((x: Item) => IssuedTo(x, id), Refresh))
    && (forall s :: s in row.scopes <==> exists x :: x in items && IssuedTo(x, id) && s in ScopesIn(x.req))
    && LatestOf(items, id, row.lastActivity)
    && (exists k: nat :: EarliestFrom(items, id, k, row.firstActivity))
  }

  /** One grant for each grant ID among the client's records, and the row named after the newest of them
      that has a name. */
  ghost predicate RowGrantsSay(items: seq<Item>, row: ClientGrants) {
    var id := row.clientId;
    && (forall g | g in row.grants :: GrantSays(items, id, g))
    && (forall h :: (exists g :: g in row.grants && g.requestId == h) <==> exists x :: x in items && OfGrant(id, h)(x))
    && if exists g :: g in row.grants && g.title != "" then
         exists i :: 0 <= i < |row.grants| && row.grants[i].title == row.title != ""
                     && forall j | 0 <= j < i :: row.grants[j].title == ""
       else row.title == ""
  }

  /** The last of the client's newest records. */
  ghost predicate LastIssued(items: seq<Item>, i: nat, id: string) {
    && i < |items| && IssuedTo(items[i], id)
    && (forall j | 0 <= j < |items| && IssuedTo(items[j], id) :: items[j].req.requestedAt <= items[i].req.requestedAt)
    && (forall j | i < j < |items| && IssuedTo(items[j], id) :: items[j].req.requestedAt < items[i].req.requestedAt)
  }

  /** The registration's fields where there is one, else the redirect URIs of the newest records. */
  ghost predicate RowRegistered(items: seq<Item>, row: ClientGrants) {
    if exists x :: x in items && RegisteredAs(x, row.clientId) then
      exists i: nat ::
        && LastRegistered(items, i, row.clientId)
        && row.registered && row.registeredAt == items[i].client.createdAt
        && row.expiresAt == items[i].client.expiresAt && row.redirectUris == items[i].client.redirectUris
    else
      && !row.registered && row.registeredAt == 0 && row.expiresAt == 0
      && exists i: nat :: LastIssued(items, i, row.clientId)
                          && row.redirectUris == items[i].req.client.value.redirectUris
  }

  lemma NewestIssued(items: seq<Item>, id: string) returns (i: nat)
    requires id in Fold(items) && !Fold(items)[id].row.registered
    ensures LastIssued(items, i, id) && Fold(items)[id].row.redirectUris == items[i].req.client.value.redirectUris
  {
    i := NewestAt(items, id);
    hide Fold;
    forall x
      ensures IssuedTo(x, id) <==> TokenOf(x, id)
    {
      IssuedIsTokenOf(x, id);
    }
    hide TokenOf, IssuedTo;
  }

  lemma {:induction false} FirstTitleIs(grants: seq<Grant>)
    ensures var title := FirstTitle(grants);
            if exists g :: g in grants && g.title != "" then
              exists i :: 0 <= i < |grants| && grants[i].title == title != ""
                          && forall j | 0 <= j < i :: grants[j].title == ""
            else title == ""
  {
    if grants != [] && grants[0].title == "" {
      FirstTitleIs(grants[1..]);
      assert forall g :: g in grants <==> g == grants[0] || g in grants[1..];
      if i :| 0 <= i < |grants[1..]| && grants[1..][i].title == FirstTitle(grants) != ""
              && forall j | 0 <= j < i :: grants[1..][j].title == "" {
        assert grants[i + 1] == grants[1..][i];
        assert forall j | 0 < j < i + 1 :: grants[j] == grants[1..][j - 1];
      }
    }
  }

  lemma ListedRow(items: seq<Item>, rows: seq<ClientGrants>, now: nat, row: ClientGrants)
    requires IsListing(rows, Fold(items), now) && row in rows
    ensures row.clientId in Fold(items) && IsRow(row, Fold(items)[row.clientId])
    ensures AccumulatorOf(Fold(items), row.clientId) == Fold(items)[row.clientId]
  {
  }

  /** Every field of a listed row, in terms of the records. */
  lemma RowsSay(items: seq<Item>, rows: seq<ClientGrants>, now: nat, row: ClientGrants)
    requires IsListing(rows, Fold(items), now) && row in rows
    ensures RowSays(items, row) && RowRegistered(items, row)
  {
    var id := row.clientId;
    ListedRow(items, rows, now, row);
    RowCounts(items, id);
    RowOrigin(items, id);
    LastActivityIs(items, id);
    var k := FirstActivityFrom(items, id);
    var i := RegistrationIs(items, id);
    if !row.registered {
      var newest := NewestIssued(items, id);
    }
    forall s
      ensures s in row.scopes <==> exists x :: x in items && IssuedTo(x, id) && s in ScopesIn(x.req)
    {
      ScopesAre(items, id, s);
    }
    hide Fold, AccumulatorOf, Tally, IsListing, IssuedTo, ScopesIn, LatestOf, EarliestFrom, LastRegistered, LastIssued;
  }

  lemma ClientGrantsSay(items: seq<Item>, id: string, g: string)
    requires id in Fold(items)
    ensures var grants := Fold(items)[id].grants;
            && (g in grants <==> exists x :: x in items && OfGrant(id, g)(x))
            && (g in grants ==> grants[g].requestId == g && GrantSays(items, id, grants[g]))
  {
    GrantsSay(items, id, g);
    hide Fold, GrantSays, OfGrant;
  }

  lemma RowOfGrants(items: seq<Item>, row: ClientGrants, grants: map<string, Grant>)
    requires forall g :: g in row.grants <==> g in grants.Values
    requires row.title == FirstTitle(row.grants)
    requires forall g | g in grants :: grants[g].requestId == g && GrantSays(items, row.clientId, grants[g])
    requires forall g :: g in grants <==> exists x :: x in items && OfGrant(row.clientId, g)(x)
    ensures RowGrantsSay(items, row)
  {
    FirstTitleIs(row.grants);
    hide GrantSays, OfGrant, FirstTitle;
    forall h
      ensures (exists g :: g in row.grants && g.requestId == h) <==> h in grants
    {
      if h in grants {
        assert grants[h] in grants.Values;
      }
    }
  }

  /** And all of its grants. */
  lemma RowsShowGrants(items: seq<Item>, rows: seq<ClientGrants>, now: nat, row: ClientGrants)
    requires IsListing(rows, Fold(items), now) && row in rows
    ensures RowGrantsSay(items, row)
  {
    ListedRow(items, rows, now, row);
    hide Fold, IsListing, OfGrant, GrantSays, RowGrantsSay, FirstTitle;
    forall g
      ensures var grants := Fold(items)[row.clientId].grants;
              && (g in grants <==> exists x :: x in items && OfGrant(row.clientId, g)(x))
              && (g in grants ==> grants[g].requestId == g && GrantSays(items, row.clientId, grants[g]))
    {
      ClientGrantsSay(items, row.clientId, g);
    }
    RowOfGrants(items, row, Fold(items)[row.clientId].grants);
  }

  /** The newest comes first, rows and grants alike, and ties go by ID. */
  lemma NewestFirst(items: seq<Item>, rows: seq<ClientGrants>, now: nat, i: nat, j: nat)
    requires IsListing(rows, Fold(items), now) && i < j
    ensures j < |rows| ==>
              || rows[i].lastActivity > rows[j].lastActivity
              || (rows[i].lastActivity == rows[j].lastActivity && Below(rows[i].clientId, rows[j].clientId))
    ensures forall row | row in rows && j < |row.grants| ::
              || row.grants[i].lastActivity > row.grants[j].lastActivity
              || (row.grants[i].lastActivity == row.grants[j].lastActivity &&
                  Below(row.grants[i].requestId, row.grants[j].requestId))
    ensures forall row | row in rows && j < |row.scopes| :: Below(row.scopes[i], row.scopes[j])
  {
    hide Fold;
  }

  // -- Leaving out a grant -----------------------------------------------------------------------

  function WithoutGrant(items: seq<Item>, g: string): seq<Item> {
    if items == [] then []
    else
      var last := items[|items| - 1];
      WithoutGrant(items[..|items| - 1], g) + if last.Token? && last.req.id == g then [] else [last]
  }

  lemma WithoutGrantMore(items: seq<Item>, x: Item, g: string)
    ensures WithoutGrant(items + [x], g) ==
            if x.Token? && x.req.id == g then WithoutGrant(items, g) else WithoutGrant(items, g) + [x]
  {
    assert (items + [x])[..|items|] == items;
  }

  /** The other grants of every client come out as before. */
  lemma {:induction false} FoldWithoutGrant(items: seq<Item>, g: string, id: string, h: string)
    ensures GrantOf(Fold(WithoutGrant(items, g)), id, h) == if h == g then None else GrantOf(Fold(items), id, h)
  {
    if items != [] {
      var init, last := items[..|items| - 1], items[|items| - 1];
      var kept := WithoutGrant(init, g);
      FoldWithoutGrant(init, g, id, h);
      GrantOfAdd(Fold(init), last, id, h);
      GrantOfAdd(Fold(kept), last, id, h);
      assert (kept + [last])[..|kept|] == kept && kept + [] == kept;
      hide Add, GrantOf, OneMore;
    }
  }

  /** A listing shows exactly the grants its records fold to. */
  lemma ShowsGrantExactly(items: seq<Item>, rows: seq<ClientGrants>, now: nat, id: string, g: Grant)
    requires IsListing(rows, Fold(items), now)
    ensures (exists row :: row in rows && row.clientId == id && g in row.grants) <==>
            GrantOf(Fold(items), id, g.requestId) == Some(g)
  {
    FoldWellKeyed(items);
    var clients := Fold(items);
    hide Fold;
    if id in clients && g.requestId in clients[id].grants && clients[id].grants[g.requestId] == g {
      assert Shown(clients[id], now);
      assert g in clients[id].grants.Values;
      var row :| row in rows && row.clientId == id;
    }
  }

  /** So the list without a grant has every other grant in its place, under the same client, and not
      this one. */
  lemma ListingWithoutGrant(items: seq<Item>, g: string, rows: seq<ClientGrants>, rows': seq<ClientGrants>, now: nat,
                            id: string, grant: Grant)
    requires IsListing(rows, Fold(items), now) && IsListing(rows', Fold(WithoutGrant(items, g)), now)
    ensures (exists row :: row in rows' && row.clientId == id && grant in row.grants) <==>
            grant.requestId != g && exists row :: row in rows && row.clientId == id && grant in row.grants
  {
    FoldWithoutGrant(items, g, id, grant.requestId);
    ShowsGrantExactly(items, rows, now, id, grant);
    ShowsGrantExactly(WithoutGrant(items, g), rows', now, id, grant);
    hide Fold, GrantOf, IsListing;
  }
}
