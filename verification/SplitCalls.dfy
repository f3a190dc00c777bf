/** A rotation or a touch reads in one transaction and writes in another: each half, in both
    backends, is a step of the runs. */
module SplitCalls {
  import opened Wrappers
  import opened Records
  import opened StoreSpec
  import opened KvsStore
  import opened SqlStore
  import opened StoreRuns

  /** A registration lies under its own ID, and a touch under way writes it back there. */
  ghost predicate OwnIds(s: Sys) {
    IdsMatch(s.store) && forall touch | touch in s.touches :: touch.client.id == touch.id
  }

  /** The registrations that are left are as they were. */
  predicate Fewer(store: Store, store': Store) {
    forall k | k in store' && k.kind == ClientKind :: k in store && store'[k] == store[k]
  }

  lemma StepKeepsClients(s: Sys, step: Step, s': Sys)
    requires Next(s, step, s') && !step.RegisterClient? && !step.TouchWrite?
    ensures Fewer(s.store, s'.store)
    ensures s'.touches == s.touches || (step.TouchRead? && Fetch(s.store, Key(ClientKind, step.id)).Ok? &&
              s'.touches == s.touches + {TouchJob(step.id, s.store[Key(ClientKind, step.id)].client)})
  {
    hide Revoked, SessionExpired, Matches, RequestOf, Overdue, Decodes;
  }

  lemma StepKeepsOwnIds(s: Sys, step: Step, s': Sys)
    requires OwnIds(s) && Next(s, step, s')
    ensures OwnIds(s')
  {
    if !step.RegisterClient? && !step.TouchWrite? {
      StepKeepsClients(s, step, s');
      hide Next;
    }
  }

  lemma {:induction false} RunKeepsOwnIds(states: seq<Sys>, steps: seq<Step>, i: nat)
    requires Run(states, steps) && states[0] == EMPTY && i < |states|
    ensures OwnIds(states[i])
  {
    if i > 0 {
      RunKeepsOwnIds(states, steps, i - 1);
      hide OwnIds, Next;
      StepKeepsOwnIds(states[i - 1], steps[i - 1], states[i]);
    }
  }

  /** Both backends hold the records of the state. */
  ghost predicate Hold(kvs: KvsRepository, sql: SqlRepository, s: Sys)
    reads kvs, sql
  {
    kvs.Valid() && sql.Valid() && kvs.store == sql.Content() == s.store
  }

  method ReadForRotation(kvs: KvsRepository, sql: SqlRepository, ghost s: Sys, signature: string)
    returns (a: Result<Rotation, StoreError>, b: Result<Rotation, StoreError>)
    requires Hold(kvs, sql, s)
    ensures a == b
    ensures a.Ok? ==> Next(s, RotateRead(signature), s.(rotations := s.rotations + {a.value}))
    ensures a.Err? ==> forall s' :: !Next(s, RotateRead(signature), s')
  {
    var v := kvs.Get(Key(RefreshToken, signature));
    var w := sql.First(Key(RefreshToken, signature));
    a := match v case Ok(value) => Ok(Rotation(signature, value.request)) case Err(e) => Err(e);
    b := match w case Ok(value) => Ok(Rotation(signature, value.request)) case Err(e) => Err(e);
  }

  /** The records stay equal whatever happened since the read; only the bucket reports a record that
      has gone in between. */
  method WriteRotation(kvs: KvsRepository, sql: SqlRepository, ghost s: Sys, rotation: Rotation, now: nat)
    returns (a: Result<(), StoreError>, ghost s': Sys)
    requires Hold(kvs, sql, s) && Inv(s) && rotation in s.rotations
    modifies kvs, sql
    ensures Hold(kvs, sql, s') && Next(s, RotateWrite(rotation, now), s')
    ensures a == if Key(RefreshToken, rotation.signature) in s.store then Ok(()) else Err(NotFound)
  {
    var k, v := Key(RefreshToken, rotation.signature), Session(rotation.request.(rotatedAt := now));
    assert k in sql.rows ==> k in s.store;
    a := kvs.Update(k, v);
    sql.UpdateBlob(k, v);
    s' := s.(store := UpdateIfPresent(s.store, k, v), rotations := s.rotations - {rotation});
  }

  method ReadForTouch(kvs: KvsRepository, sql: SqlRepository, ghost s: Sys, id: string)
    returns (a: Result<TouchJob, StoreError>, b: Result<TouchJob, StoreError>)
    requires Hold(kvs, sql, s)
    ensures a == b
    ensures a.Ok? ==> Next(s, TouchRead(id), s.(touches := s.touches + {a.value}))
    ensures a.Err? ==> forall s' :: !Next(s, TouchRead(id), s')
  {
    var v := kvs.Get(Key(ClientKind, id));
    var w := sql.First(Key(ClientKind, id));
    a := match v case Ok(value) => Ok(TouchJob(id, value.client)) case Err(e) => Err(e);
    b := match w case Ok(value) => Ok(TouchJob(id, value.client)) case Err(e) => Err(e);
  }

  method WriteTouch(kvs: KvsRepository, sql: SqlRepository, ghost s: Sys, touch: TouchJob, expiresAt: nat)
    returns (a: Result<(), StoreError>, ghost s': Sys)
    requires Hold(kvs, sql, s) && OwnIds(s) && touch in s.touches
    modifies kvs, sql
    ensures Hold(kvs, sql, s') && Next(s, TouchWrite(touch, expiresAt), s')
    ensures a == if touch.client.expiresAt == 0 || Key(ClientKind, touch.id) in s.store then Ok(()) else Err(NotFound)
  {
    s' := s.(store := Touched(s.store, touch, expiresAt), touches := s.touches - {touch});
    if touch.client.expiresAt == 0 {
      return Ok(()), s';
    }
    var k, v := Key(ClientKind, touch.id), Registration(touch.client.(expiresAt := expiresAt));
    a := kvs.Update(k, v);
    sql.UpdateBlob(k, v);
  }
}
