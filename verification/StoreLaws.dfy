/** What the repository operations do, read off the fields of the stored records. */
module StoreLaws {
  import opened Wrappers
  import opened Records
  import opened StoreSpec

  // -- Reading and writing one record -------------------------------------------------------

  /** What was created is read back where the key calls for such a record, and only there. */
  lemma CreatedIsFetched(store: Store, k: Key, v: Value)
    ensures Fetch(store[k := v], k) == Ok(v) <==>
            match v
            case Session(_) => k.kind in {AccessToken, RefreshToken, AuthorizeCode, PkceRequest}
            case Pending(_) => k.kind == AuthorizeRequestKind
            case Registration(_) => k.kind == ClientKind
            case Account(_) => k.kind in {UserKind, CredentialKind, MetaKind}
            case Garbled => false
    ensures Fetch(store[k := v], k) in {Ok(v), Err(Undecodable)}
    ensures Fetch(store - {k}, k) == Err(NotFound)
    ensures forall other | other != k ::
              Fetch(store[k := v], other) == Fetch(store, other) == Fetch(store - {k}, other)
  {
  }

  /** A rotation is noted on the token's own record and nowhere else. */
  lemma RotationIsNoted(store: Store, signature: string, now: nat)
    ensures var k := Key(RefreshToken, signature);
            var (after, r) := Rotate(store, signature, now);
            if k !in store then after == store && r == Err(NotFound)
            else if !store[k].Session? then after == store && r == Err(Undecodable)
            else
              && r == Ok(()) && after.Keys == store.Keys && after[k].Session?
              && after[k].request.rotatedAt == now
              && after[k].request.(rotatedAt := store[k].request.rotatedAt) == store[k].request
              && forall other | other in store && other != k :: after[other] == store[other]
  {
  }

  /** A touch moves the expiry of a registration that has one; a permanent one stays permanent. */
  lemma TouchMovesExpiry(store: Store, id: string, expiresAt: nat)
    ensures var k := Key(ClientKind, id);
            var (after, r) := Touch(store, id, expiresAt);
            if k !in store then after == store && r == Err(NotFound)
            else if !store[k].Registration? then after == store && r == Err(Undecodable)
            else
              && r == Ok(()) && after.Keys == store.Keys && after[k].Registration?
              && after[k].client.expiresAt == (if store[k].client.expiresAt == 0 then 0 else expiresAt)
              && after[k].client.(expiresAt := store[k].client.expiresAt) == store[k].client
              && forall other | other in store && other != k :: after[other] == store[other]
  {
  }

  /** The tokens of one kind with the request ID go; everything else is as it was. */
  lemma TokensOfGrantGo(store: Store, kind: Kind, requestId: string, k: Key)
    requires k in store
    ensures var after := DeleteWhere(store, kind, (req: Request) => req.id == requestId);
            && (k in after <==> k.kind != kind || !store[k].Session? || store[k].request.id != requestId)
            && (k in after ==> after[k] == store[k])
            && after.Keys <= store.Keys
  {
  }

  // -- Registrations over time -----------------------------------------------------------------

  /** A registration is found up to and including its expiry, counts towards the cap up to but not
      including it, and the sweep takes it exactly when it is no longer found. */
  lemma RegistrationLives(store: Store, id: string, now: nat)
    requires var k := Key(ClientKind, id); k in store && store[k].Registration?
    ensures var k := Key(ClientKind, id);
            var client := store[k].client;
            && (Lookup(store, id, now) == if client.expiresAt == 0 || now <= client.expiresAt then Ok(client)
                                           else Err(NotFound))
            && (k in LiveClients(store, now) <==> client.expiresAt == 0 || now < client.expiresAt)
            && (k in ExpireClients(store, now) <==> Lookup(store, id, now).Ok?)
  {
  }

  /** No other record is found, counted or swept as a registration. */
  lemma OnlyRegistrationsLive(store: Store, k: Key, now: nat)
    requires k in store && (k.kind != ClientKind || !store[k].Registration?)
    ensures k !in LiveClients(store, now) && k in ExpireClients(store, now)
    ensures k.kind == ClientKind ==> Lookup(store, k.id, now) == Err(Undecodable)
  {
  }

  lemma SweepKeepsTheRest(store: Store, now: nat)
    ensures var after := ExpireClients(store, now);
            after.Keys <= store.Keys && forall k | k in after :: after[k] == store[k]
  {
  }

  /** A registration that is accepted is found until it expires; one that is refused leaves no trace. */
  lemma RegisteredIsFound(store: Store, client: Client, max: int, now: nat, later: nat)
    ensures var (after, r) := Register(store, client, max, now);
            && (r == Err(CapReached) <==>
                  max > 0 && Key(ClientKind, client.id) !in store && |LiveClients(store, now)| >= max)
            && (if r.Ok? then
                  && after.Keys == store.Keys + {Key(ClientKind, client.id)}
                  && (Lookup(after, client.id, later) == Ok(client) <==>
                        client.expiresAt == 0 || later <= client.expiresAt)
                  && forall k | k in store && k != Key(ClientKind, client.id) :: after[k] == store[k]
                else after == store && r == Err(CapReached))
  {
    hide LiveClients;
  }

  // -- Revocation by scope ------------------------------------------------------------------------

  /** One record that cannot be read stops every revocation; only that of everything reads
      registrations. */
  lemma RevokeFailsExactly(store: Store, scope: Scope)
    ensures Revoke(store, scope).1.Err? <==>
            exists k :: k in store &&
              match k.kind
              case AccessToken => !store[k].Session?
              case RefreshToken => !store[k].Session?
              case AuthorizeCode => !store[k].Session?
              case PkceRequest => !store[k].Session?
              case AuthorizeRequestKind => !store[k].Pending?
              case ClientKind => scope == Everything && !store[k].Registration?
              case _ => false
    ensures Revoke(store, scope).1.Err? ==> Revoke(store, scope) == (store, Err(Undecodable))
  {
  }

  /** Revoking a grant takes the session and pending records with its ID, whosoever they are, and
      leaves registrations, accounts and every other grant. */
  lemma GrantRevokeTakes(store: Store, id: string, k: Key)
    requires Revoke(store, OfGrant(id)).1.Ok? && k in store
    ensures k in Revoke(store, OfGrant(id)).0 <==>
            match store[k]
            case Session(request) =>
              k.kind in {AccessToken, RefreshToken, AuthorizeCode, PkceRequest} ==> request.id != id
            case Pending(ar) =>
              k.kind == AuthorizeRequestKind && ar.request.Some? ==> ar.request.value.id != id
            case _ => true
  {
  }

  /** Revoking a client takes the session and pending records that carry it, and its registration. */
  lemma ClientRevokeTakes(store: Store, id: string, k: Key)
    requires Revoke(store, OfClient(id)).1.Ok? && k in store
    ensures k in Revoke(store, OfClient(id)).0 <==>
            if k.kind == ClientKind then k.id != id
            else
              match store[k]
              case Session(request) =>
                k.kind in {AccessToken, RefreshToken, AuthorizeCode, PkceRequest} && request.client.Some? ==>
                  request.client.value.id != id
              case Pending(ar) =>
                k.kind == AuthorizeRequestKind && ar.request.Some? && ar.request.value.client.Some? ==>
                  ar.request.value.client.value.id != id
              case _ => true
  {
  }

  /** Revoking everything leaves accounts, passkeys, the schema marker, and pending requests that
      carry no request yet. */
  lemma FullRevokeTakes(store: Store, k: Key)
    requires Revoke(store, Everything).1.Ok? && k in store
    ensures k in Revoke(store, Everything).0 <==>
            || k.kind in {UserKind, CredentialKind, MetaKind}
            || (k.kind == AuthorizeRequestKind && store[k].Pending? && store[k].ar.request.None?)
  {
  }
}
