/** The operator's client list: one row per client, folded from token records and registrations. */
module Inventory {
  import opened Wrappers
  import opened Records
  import opened Ordering

  datatype Origin = Cimd | Dcr
  datatype TokenKind = Access | Refresh

  datatype Grant = Grant(
    requestId: string, title: string, requestedAt: nat, lastActivity: nat, accessTokens: nat, refreshTokens: nat)

  datatype ClientGrants = ClientGrants(
    clientId: string, title: string, origin: Origin, registered: bool, registeredAt: nat, expiresAt: nat,
    redirectUris: seq<string>, scopes: seq<string>, grants: seq<Grant>, accessTokens: nat, refreshTokens: nat,
    firstActivity: nat, lastActivity: nat)

  datatype Accumulator = Accumulator(
    row: ClientGrants, grants: map<string, Grant>, scopes: set<string>, snapshotAt: nat)

  function OriginOf(clientId: string): Origin {
    if "https://" <= clientId then Cimd else Dcr
  }

  /** What was granted, or what was asked for while nothing is granted yet. */
  function GrantedScopes(req: Request): seq<string> {
    if |req.grantedScope| > 0 then req.grantedScope else req.requestedScope
  }

  function Activity(req: Request): nat {
    if req.rotatedAt > req.requestedAt then req.rotatedAt else req.requestedAt
  }

  // -- One record at a time ------------------------------------------------------------

  datatype Item = Token(kind: TokenKind, req: Request) | Stored(client: Client)

  /** The client a record is attributed to; a record without one is ignored. */
  function ClientOf(item: Item): Option<string> {
    match item
    case Token(_, req) => if req.client.Some? && req.client.value.id != "" then Some(req.client.value.id) else None
    case Stored(client) => if client.id != "" then Some(client.id) else None
  }

  function NewAccumulator(clientId: string): Accumulator {
    Accumulator(ClientGrants(clientId, "", OriginOf(clientId), false, 0, 0, [], [], [], 0, 0, 0, 0), map[], {}, 0)
  }

  function AccumulatorOf(clients: map<string, Accumulator>, clientId: string): Accumulator {
    if clientId in clients then clients[clientId] else NewAccumulator(clientId)
  }

  function Later(a: nat, b: nat): nat {
    if b > a then b else a
  }

  /** A zero time counts as not set yet. */
  function Earliest(current: nat, t: nat): nat {
    if current == 0 || t < current then t else current
  }

  function Bump(count: nat, kind: TokenKind, counted: TokenKind): nat {
    if kind == counted then count + 1 else count
  }

  function GrantAfter(grants: map<string, Grant>, kind: TokenKind, req: Request): Grant {
    var g := if req.id in grants then grants[req.id] else Grant(req.id, "", req.requestedAt, 0, 0, 0);
    Grant(g.requestId,
          if g.title == "" then req.title else g.title,
          if req.requestedAt < g.requestedAt then req.requestedAt else g.requestedAt,
          Later(g.lastActivity, Activity(req)),
          Bump(g.accessTokens, kind, Access),
          Bump(g.refreshTokens, kind, Refresh))
  }

  predicate TakesSnapshot(acc: Accumulator, req: Request) {
    !acc.row.registered && req.requestedAt >= acc.snapshotAt
  }

  function RowAfter(acc: Accumulator, kind: TokenKind, req: Request): ClientGrants
    requires req.client.Some?
  {
    var row := acc.row;
    row.(redirectUris := if TakesSnapshot(acc, req) then req.client.value.redirectUris else row.redirectUris,
         accessTokens := Bump(row.accessTokens, kind, Access),
         refreshTokens := Bump(row.refreshTokens, kind, Refresh),
         lastActivity := Later(row.lastActivity, Activity(req)),
         firstActivity := Earliest(row.firstActivity, req.requestedAt))
  }

  function AfterToken(acc: Accumulator, kind: TokenKind, req: Request): Accumulator
    requires req.client.Some?
  {
    Accumulator(
      RowAfter(acc, kind, req),
      acc.grants[req.id := GrantAfter(acc.grants, kind, req)],
      acc.scopes + (set s | s in GrantedScopes(req)),
      if TakesSnapshot(acc, req) then req.requestedAt else acc.snapshotAt)
  }

  /** A registration outranks every snapshot, so the snapshot time no longer matters. */
  function AfterRegistration(acc: Accumulator, client: Client): Accumulator {
    acc.(row := acc.row.(registered := true, registeredAt := client.createdAt, expiresAt := client.expiresAt,
                         redirectUris := client.redirectUris),
         snapshotAt := 0)
  }

  function After(acc: Accumulator, item: Item): Accumulator
    requires ClientOf(item).Some?
  {
    match item
    case Token(kind, req) => AfterToken(acc, kind, req)
    case Stored(client) => AfterRegistration(acc, client)
  }

  function Add(clients: map<string, Accumulator>, item: Item): map<string, Accumulator> {
    match ClientOf(item)
    case None => clients
    case Some(id) => clients[id := After(AccumulatorOf(clients, id), item)]
  }

  function Fold(items: seq<Item>): map<string, Accumulator> {
    if items == [] then map[] else Add(Fold(items[..|items| - 1]), items[|items| - 1])
  }

  // -- The finished list --------------------------------------------------------------

  function FirstTitle(grants: seq<Grant>): string {
    if grants == [] then "" else if grants[0].title != "" then grants[0].title else FirstTitle(grants[1..])
  }

  predicate NewerGrant(a: Grant, b: Grant) {
    a.lastActivity > b.lastActivity || (a.lastActivity == b.lastActivity && Below(a.requestId, b.requestId))
  }

  predicate NewerRow(a: ClientGrants, b: ClientGrants) {
    a.lastActivity > b.lastActivity || (a.lastActivity == b.lastActivity && Below(a.clientId, b.clientId))
  }

  predicate ExpiredRegistration(acc: Accumulator, now: nat) {
    acc.row.registered && acc.row.expiresAt != 0 && acc.row.expiresAt < now
  }

  /** An expired registration that holds no tokens is not listed. */
  predicate Shown(acc: Accumulator, now: nat) {
    acc.grants != map[] || !ExpiredRegistration(acc, now)
  }

  /** The row of one client, with its grants and scopes in order. */
  ghost predicate IsRow(row: ClientGrants, acc: Accumulator) {
    && row == acc.row.(grants := row.grants, scopes := row.scopes, title := FirstTitle(row.grants))
    && StrictlySorted(row.grants, NewerGrant)
    && (forall g :: g in row.grants <==> g in acc.grants.Values)
    && StrictlySorted(row.scopes, Below)
    && (forall s :: s in row.scopes <==> s in acc.scopes)
  }

  ghost predicate IsListing(rows: seq<ClientGrants>, clients: map<string, Accumulator>, now: nat) {
    && StrictlySorted(rows, NewerRow)
    && (forall row | row in rows ::
          row.clientId in clients && Shown(clients[row.clientId], now) && IsRow(row, clients[row.clientId]))
    && (forall id | id in clients && Shown(clients[id], now) :: exists row :: row in rows && row.clientId == id)
  }

  ghost predicate WellKeyed(clients: map<string, Accumulator>) {
    forall id | id in clients ::
      clients[id].row.clientId == id && forall g | g in clients[id].grants :: clients[id].grants[g].requestId == g
  }

  lemma {:induction false} FoldWellKeyed(items: seq<Item>)
    ensures WellKeyed(Fold(items))
  {
    if items != [] {
      FoldWellKeyed(items[..|items| - 1]);
    }
  }

  lemma BelowIsStrictOrder()
    ensures StrictOrder(Below)
  {
    forall a: string ensures !Below(a, a) {
      BelowIrreflexive(a);
    }
    forall a: string, b: string, c: string | Below(a, b) && Below(b, c) ensures Below(a, c) {
      BelowTransitive(a, b, c);
    }
  }

  lemma NewerIsStrictOrder()
    ensures StrictOrder(NewerGrant) && StrictOrder(NewerRow)
  {
    BelowIsStrictOrder();
    forall a: Grant ensures !NewerGrant(a, a) {
      BelowIrreflexive(a.requestId);
    }
    forall a: Grant, b: Grant, c: Grant | NewerGrant(a, b) && NewerGrant(b, c) ensures NewerGrant(a, c) {
      if Below(a.requestId, b.requestId) && Below(b.requestId, c.requestId) {
        BelowTransitive(a.requestId, b.requestId, c.requestId);
      }
    }
    forall a: ClientGrants ensures !NewerRow(a, a) {
      BelowIrreflexive(a.clientId);
    }
    forall a: ClientGrants, b: ClientGrants, c: ClientGrants | NewerRow(a, b) && NewerRow(b, c) ensures NewerRow(a, c) {
      if Below(a.clientId, b.clientId) && Below(b.clientId, c.clientId) {
        BelowTransitive(a.clientId, b.clientId, c.clientId);
      }
    }
  }

  lemma RowUnique(row: ClientGrants, row': ClientGrants, acc: Accumulator)
    requires IsRow(row, acc) && IsRow(row', acc)
    ensures row == row'
  {
    NewerIsStrictOrder();
    BelowIsStrictOrder();
    SortedUnique(row.grants, row'.grants, NewerGrant);
    SortedUnique(row.scopes, row'.scopes, Below);
  }

  /** The list is decided by the accumulated clients: map iteration order and the sorting
      algorithm leave no trace in it. */
  lemma ListingUnique(rows: seq<ClientGrants>, rows': seq<ClientGrants>, clients: map<string, Accumulator>, now: nat)
    requires IsListing(rows, clients, now) && IsListing(rows', clients, now)
    ensures rows == rows'
  {
    ListingIncluded(rows, rows', clients, now);
    ListingIncluded(rows', rows, clients, now);
    NewerIsStrictOrder();
    SortedUnique(rows, rows', NewerRow);
  }

  lemma ListingIncluded(rows: seq<ClientGrants>, rows': seq<ClientGrants>, clients: map<string, Accumulator>, now: nat)
    requires IsListing(rows, clients, now) && IsListing(rows', clients, now)
    ensures forall row | row in rows :: row in rows'
  {
    forall row | row in rows ensures row in rows' {
      var row' :| row' in rows' && row'.clientId == row.clientId;
      RowUnique(row, row', clients[row.clientId]);
    }
  }

  // -- The aggregator --------------------------------------------------------------------

  function Settled(acc: Accumulator): Accumulator {
    if acc.row.registered then acc.(snapshotAt := 0) else acc
  }

  lemma SettledFirst(acc: Accumulator, kind: TokenKind, req: Request)
    requires req.client.Some?
    ensures Settled(AfterToken(acc, kind, req)) == AfterToken(Settled(acc), kind, req)
  {
  }

  /** The rows are those of the clients visited so far that are shown. */
  ghost predicate Covers(rows: seq<ClientGrants>, clients: map<string, Accumulator>, seen: set<string>, now: nat) {
    && (forall row | row in rows ::
          && row.clientId in seen && row.clientId in clients
          && Shown(clients[row.clientId], now) && IsRow(row, clients[row.clientId]))
    && (forall id | id in seen && id in clients && Shown(clients[id], now) ::
          exists row :: row in rows && row.clientId == id)
  }

  lemma CoversMore(rows: seq<ClientGrants>, rows': seq<ClientGrants>, row: ClientGrants,
                   clients: map<string, Accumulator>, seen: set<string>, id: string, now: nat)
    requires Covers(rows, clients, seen, now) && forall y :: y in rows' <==> y in rows || y == row
    requires id in clients && row.clientId == id && Shown(clients[id], now) && IsRow(row, clients[id])
    ensures Covers(rows', clients, seen + {id}, now)
  {
    hide IsRow, Shown;
    forall shown | shown in seen + {id} && shown in clients && Shown(clients[shown], now)
      ensures exists y :: y in rows' && y.clientId == shown
    {
      if shown == id {
        assert row in rows';
      } else {
        var y :| y in rows && y.clientId == shown;
        assert y in rows';
      }
    }
  }

  lemma DistinctRowsCompare(rows: seq<ClientGrants>, row: ClientGrants, clients: map<string, Accumulator>,
                            seen: set<string>, now: nat)
    requires Covers(rows, clients, seen, now) && row.clientId !in seen
    ensures Comparable(rows, row, NewerRow)
  {
    hide IsRow, Shown;
    forall other | other in rows ensures NewerRow(row, other) || NewerRow(other, row) {
      BelowTotal(row.clientId, other.clientId);
    }
  }

  lemma SettledRow(row: ClientGrants, acc: Accumulator)
    requires IsRow(row, acc)
    ensures IsRow(row, Settled(acc)) && row.clientId == acc.row.clientId
  {
  }

  class Aggregator {
    var clients: map<string, Accumulator>

    /** The accumulated clients, with the snapshot time dropped where a registration made it
        irrelevant. */
    function View(): map<string, Accumulator>
      reads this
    {
      map id | id in clients :: Settled(clients[id])
    }

    constructor ()
      ensures View() == map[]
    {
      clients := map[];
    }

    method AddToken(kind: TokenKind, req: Request)
      modifies this
      ensures View() == Add(old(View()), Token(kind, req))
    {
      if req.client.None? || req.client.value.id == "" {
        return;
      }
      var id := req.client.value.id;
      var acc := FoldToken(AccumulatorOf(clients, id), kind, req);
      SettledFirst(AccumulatorOf(clients, id), kind, req);
      hide AfterToken;
      clients := clients[id := acc];
      assert View() == old(View())[id := Settled(acc)];
    }

    static method FoldToken(acc: Accumulator, kind: TokenKind, req: Request) returns (acc': Accumulator)
      requires req.client.Some?
      ensures acc' == AfterToken(acc, kind, req)
    {
      acc' := TakeSnapshot(acc, req);
      var grant := GrantFor(acc', req);
      if grant.title == "" && req.title != "" {
        grant := grant.(title := req.title);
      }
      var row := acc'.row;
      grant, row := Count(kind, grant, row);
      grant, row := RecordActivity(grant, row, req);
      var scopes := acc'.scopes + (set s | s in GrantedScopes(req));
      acc' := Accumulator(row, acc'.grants[req.id := grant], scopes, acc'.snapshotAt);
    }

    static method Count(kind: TokenKind, grant: Grant, row: ClientGrants) returns (grant': Grant, row': ClientGrants)
      ensures grant' == grant.(accessTokens := Bump(grant.accessTokens, kind, Access),
                               refreshTokens := Bump(grant.refreshTokens, kind, Refresh))
      ensures row' == row.(accessTokens := Bump(row.accessTokens, kind, Access),
                           refreshTokens := Bump(row.refreshTokens, kind, Refresh))
    {
      match kind {
        case Access =>
          grant', row' := grant.(accessTokens := grant.accessTokens + 1), row.(accessTokens := row.accessTokens + 1);
        case Refresh =>
          grant' := grant.(refreshTokens := grant.refreshTokens + 1);
          row' := row.(refreshTokens := row.refreshTokens + 1);
      }
    }

    static method RecordActivity(grant: Grant, row: ClientGrants, req: Request)
      returns (grant': Grant, row': ClientGrants)
      ensures grant' == grant.(lastActivity := Later(grant.lastActivity, Activity(req)))
      ensures row' == row.(lastActivity := Later(row.lastActivity, Activity(req)),
                           firstActivity := Earliest(row.firstActivity, req.requestedAt))
    {
      grant', row' := grant, row;
      var activity := req.requestedAt;
      if req.rotatedAt > activity {
        activity := req.rotatedAt;
      }
      if activity > grant'.lastActivity {
        grant' := grant'.(lastActivity := activity);
      }
      if activity > row'.lastActivity {
        row' := row'.(lastActivity := activity);
      }
      if row'.firstActivity == 0 || req.requestedAt < row'.firstActivity {
        row' := row'.(firstActivity := req.requestedAt);
      }
    }

    static method TakeSnapshot(acc: Accumulator, req: Request) returns (acc': Accumulator)
      requires req.client.Some?
      ensures acc' == if TakesSnapshot(acc, req)
                      then acc.(row := acc.row.(redirectUris := req.client.value.redirectUris),
                                snapshotAt := req.requestedAt)
                      else acc
    {
      if acc.row.registered || req.requestedAt < acc.snapshotAt {
        return acc;
      }
      return acc.(row := acc.row.(redirectUris := req.client.value.redirectUris), snapshotAt := req.requestedAt);
    }

    static method GrantFor(acc: Accumulator, req: Request) returns (grant: Grant)
      ensures req.id in acc.grants ==>
                grant == acc.grants[req.id].(requestedAt := grant.requestedAt) &&
                grant.requestedAt <= req.requestedAt && grant.requestedAt <= acc.grants[req.id].requestedAt &&
                grant.requestedAt in {req.requestedAt, acc.grants[req.id].requestedAt}
      ensures req.id !in acc.grants ==> grant == Grant(req.id, "", req.requestedAt, 0, 0, 0)
    {
      if req.id !in acc.grants {
        return Grant(req.id, "", req.requestedAt, 0, 0, 0);
      }
      grant := acc.grants[req.id];
      if req.requestedAt < grant.requestedAt {
        grant := grant.(requestedAt := req.requestedAt);
      }
    }

    method AddRegistration(client: Client)
      modifies this
      ensures View() == Add(old(View()), Stored(client))
    {
      if client.id == "" {
        return;
      }
      var acc := AccumulatorOf(clients, client.id);
      var row := acc.row.(registered := true, registeredAt := client.createdAt, expiresAt := client.expiresAt,
                          redirectUris := client.redirectUris);
      clients := clients[client.id := acc.(row := row)];
    }

    /** The accumulators are visited in any order. */
    method Rows(now: nat) returns (rows: seq<ClientGrants>)
      requires WellKeyed(View())
      ensures IsListing(rows, View(), now)
    {
      hide IsRow, NewerRow;
      NewerIsStrictOrder();
      rows := [];
      var left := clients.Keys;
      while left != {}
        invariant left <= clients.Keys
        invariant StrictlySorted(rows, NewerRow) && Covers(rows, View(), clients.Keys - left, now)
        decreases left
      {
        var id :| id in left;
        left := left - {id};
        assert clients.Keys - left == clients.Keys - left - {id} + {id};
        var acc := clients[id];
        assert View()[id].row == acc.row && View()[id].grants == acc.grants && View()[id].scopes == acc.scopes;
        if |acc.grants| == 0 && ExpiredRegistration(acc, now) {
          continue;
        }
        var row := FinishRow(acc);
        SettledRow(row, acc);
        DistinctRowsCompare(rows, row, View(), clients.Keys - left - {id}, now);
        ghost var before := rows;
        rows := Insert(rows, row, NewerRow);
        CoversMore(before, rows, row, View(), clients.Keys - left - {id}, id, now);
      }
    }

    static method FinishRow(acc: Accumulator) returns (row: ClientGrants)
      requires forall g | g in acc.grants :: acc.grants[g].requestId == g
      ensures IsRow(row, acc)
    {
      var grants := SortedGrants(acc.grants);
      var scopes := SortedScopes(acc.scopes);
      var title := "";
      var i := 0;
      while i < |grants| && title == ""
        invariant i <= |grants|
        invariant FirstTitle(grants) == if title != "" then title else FirstTitle(grants[i..])
      {
        assert grants[i..][1..] == grants[i + 1..];
        title := grants[i].title;
        i := i + 1;
      }
      row := acc.row.(grants := grants, scopes := scopes, title := title);
    }

    static method SortedGrants(grants: map<string, Grant>) returns (out: seq<Grant>)
      requires forall g | g in grants :: grants[g].requestId == g
      ensures StrictlySorted(out, NewerGrant)
      ensures forall g :: g in out <==> g in grants.Values
    {
      NewerIsStrictOrder();
      out := [];
      var left := grants.Keys;
      while left != {}
        invariant left <= grants.Keys
        invariant StrictlySorted(out, NewerGrant)
        invariant forall g :: g in out <==> g.requestId in grants.Keys - left && grants[g.requestId] == g
        decreases left
      {
        var id :| id in left;
        left := left - {id};
        forall other | other in out ensures NewerGrant(grants[id], other) || NewerGrant(other, grants[id]) {
          BelowTotal(id, other.requestId);
        }
        out := Insert(out, grants[id], NewerGrant);
      }
    }

    static method SortedScopes(scopes: set<string>) returns (out: seq<string>)
      ensures StrictlySorted(out, Below)
      ensures forall s :: s in out <==> s in scopes
    {
      BelowIsStrictOrder();
      out := [];
      var left := scopes;
      while left != {}
        invariant left <= scopes
        invariant StrictlySorted(out, Below)
        invariant forall s :: s in out <==> s in scopes - left
        decreases left
      {
        var s :| s in left;
        left := left - {s};
        forall other | other in out ensures Below(s, other) || Below(other, s) {
          BelowTotal(s, other);
        }
        out := Insert(out, s, Below);
      }
    }
  }
}
