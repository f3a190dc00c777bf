/** The signing-key manager: one active key, retiring keys that still verify, and the write
    order that keeps the directory loadable whatever fails or dies in between. */
module KeyManager {
  import opened Wrappers
  import opened KeyDirectory

  // -- What the operations do to the key set --------------------------------

  /** A new active key; the previous one retires until the window has passed. */
  function Rotated(ks: KeySet, newKey: PrivateKey, alg: Alg, window: nat, now: nat): KeySet {
    KeySet(SigningKey(newKey.fingerprint, alg, newKey), now, ks.retiring + [RetiredKey(ks.active, now + window)])
  }

  function Unexpired(retiring: seq<RetiredKey>, now: nat): (kept: seq<RetiredKey>)
    ensures forall r :: r in kept <==> r in retiring && now < r.notAfter
  {
    if retiring == [] then []
    else
      var init, last := retiring[..|retiring| - 1], retiring[|retiring| - 1];
      assert retiring == init + [last];
      Unexpired(init, now) + if now < last.notAfter then [last] else []
  }

  function Swept(ks: KeySet, now: nat): KeySet {
    ks.(retiring := Unexpired(ks.retiring, now))
  }

  /** The key a directory without a manifest starts with: an adopted legacy key keeps its kid. */
  function FirstKey(legacy: Option<Pem>, generated: Option<PrivateKey>): (key: Option<PrivateKey>)
    requires generated.Some? ==> AlgForKey(generated.value).Some?
    ensures key.Some? ==> AlgForKey(key.value).Some?
  {
    if legacy.Some? then ParsePem(legacy.value) else generated
  }

  function FirstSet(key: PrivateKey, now: nat): KeySet
    requires AlgForKey(key).Some?
  {
    KeySet(SigningKey(key.fingerprint, AlgForKey(key).value, key), now, [])
  }

  predicate RotationDue(ks: KeySet, alg: Alg, interval: nat, now: nat) {
    (interval > 0 && now >= ks.since + interval) || ks.active.alg != alg
  }

  /** The key set after a maintenance pass that succeeds. */
  function Maintained(ks: KeySet, alg: Alg, interval: nat, window: nat, now: nat, newKey: Option<PrivateKey>): KeySet {
    if RotationDue(ks, alg, interval, now) && newKey.Some?
    then Swept(Rotated(ks, newKey.value, alg, window, now), now)
    else Swept(ks, now)
  }

  /** The pass in terms of ages alone: a key of the configured algorithm that is younger than the
      interval stays, with its age; any other is replaced by the new key and retires for the window. */
  ghost predicate KeptOrReplaced(ks: KeySet, alg: Alg, interval: nat, window: nat, now: nat,
                                 newKey: Option<PrivateKey>, ks': KeySet) {
    && ks'.active.alg == alg
    && (interval > 0 ==> now < ks'.since + interval)
    && if ks.active.alg == alg && (interval == 0 || now < ks.since + interval) then
         && ks'.active == ks.active && ks'.since == ks.since
         && forall r :: r in ks'.retiring <==> r in ks.retiring && now < r.notAfter
       else
         && newKey.Some? && ks'.active == SigningKey(newKey.value.fingerprint, alg, newKey.value) && ks'.since == now
         && forall r :: r in ks'.retiring <==>
                        (r in ks.retiring || r == RetiredKey(ks.active, now + window)) && now < r.notAfter
  }

  lemma MaintainedByAge(ks: KeySet, alg: Alg, interval: nat, window: nat, now: nat, newKey: Option<PrivateKey>)
    requires RotationDue(ks, alg, interval, now) ==> newKey.Some?
    ensures KeptOrReplaced(ks, alg, interval, window, now, newKey,
                           Maintained(ks, alg, interval, window, now, newKey))
  {
  }

  /** The key set a start-up begins with, when it finds one or can make one. */
  function StartSet(disk: Disk, legacy: Option<Pem>, generated: Option<PrivateKey>, now: nat): Option<KeySet>
    requires generated.Some? ==> AlgForKey(generated.value).Some?
  {
    if disk.manifest.Some? then Load(disk, now).ToOption()
    else
      match FirstKey(legacy, generated)
      case None => None
      case Some(key) => Some(FirstSet(key, now))
  }

  /** The set a start-up begins with, read off the directory: the manifest's keys from their files
      with the manifest's age, or else the legacy key or a fresh one, aged from now. */
  ghost predicate BegunFrom(disk: Disk, legacy: Option<Pem>, first: Option<PrivateKey>, now: nat, begun: KeySet) {
    && AlgForKey(begun.active.key) == Some(begun.active.alg)
    && begun.active.kid == begun.active.key.fingerprint
    && match disk.manifest
       case Some(Readable(mf)) =>
         && mf.active == begun.active.kid && begun.active.kid in disk.files
         && disk.files[begun.active.kid] == KeyPem(begun.active.key)
         && begun.since == (if mf.activeSince == 0 then now else mf.activeSince)
         && |begun.retiring| == |mf.retiring|
         && forall i | 0 <= i < |mf.retiring| ::
              && begun.retiring[i].notAfter == mf.retiring[i].notAfter
              && begun.retiring[i].signing.kid == mf.retiring[i].kid
              && mf.retiring[i].kid in disk.files
              && disk.files[mf.retiring[i].kid] == KeyPem(begun.retiring[i].signing.key)
       case Some(Unreadable) => false
       case None =>
         && begun.since == now && begun.retiring == []
         && if legacy.Some? then legacy == Some(KeyPem(begun.active.key)) else first == Some(begun.active.key)
  }

  lemma StartSetIsBegun(disk: Disk, legacy: Option<Pem>, first: Option<PrivateKey>, now: nat)
    requires first.Some? ==> AlgForKey(first.value).Some?
    ensures var begun := StartSet(disk, legacy, first, now);
            begun.Some? ==> BegunFrom(disk, legacy, first, now, begun.value)
  {
    hide LoadKey, LoadRetiring;
    if disk.manifest.Some? && Load(disk, now).Ok? {
      var ks := Load(disk, now).value;
      LoadedFromFiles(disk, now);
      forall i | 0 <= i < |ks.retiring|
        ensures EntriesOf(ks.retiring)[i] == RetiringEntry(ks.retiring[i].signing.kid, ks.retiring[i].notAfter)
      {
      }
    }
  }

  lemma LoadedFromFiles(disk: Disk, now: nat)
    requires disk.manifest.Some? && Load(disk, now).Ok?
    ensures Backed(Load(disk, now).value.active, disk.files)
    ensures forall r | r in Load(disk, now).value.retiring :: Backed(r.signing, disk.files)
  {
  }

  /** What the key set answers for the kid of a token. */
  function Resolve(ks: KeySet, kid: string): (key: Option<SigningKey>)
    ensures key.Some? ==> key.value.kid == kid && kid != ""
    ensures key.Some? ==> key.value == ks.active || exists r :: r in ks.retiring && r.signing == key.value
  {
    if kid == "" then None
    else if kid == ks.active.kid then Some(ks.active)
    else ResolveRetiring(ks.retiring, kid)
  }

  function ResolveRetiring(retiring: seq<RetiredKey>, kid: string): (key: Option<SigningKey>)
    ensures key.None? <==> forall r | r in retiring :: r.signing.kid != kid
    ensures key.Some? ==> key.value.kid == kid && exists r :: r in retiring && r.signing == key.value
  {
    if retiring == [] then None
    else if retiring[0].signing.kid == kid then Some(retiring[0].signing)
    else
      assert forall r :: r in retiring <==> r == retiring[0] || r in retiring[1..];
      ResolveRetiring(retiring[1..], kid)
  }

  /** Every key of a sound set resolves to itself. */
  lemma ResolvesOwnKeys(ks: KeySet, files: map<string, Pem>, k: SigningKey)
    requires Sound(ks, files)
    requires k == ks.active || exists r :: r in ks.retiring && r.signing == k
    ensures Resolve(ks, k.kid) == Some(k)
  {
    if k != ks.active {
      var r :| r in ks.retiring && r.signing == k;
      var i :| 0 <= i < |ks.retiring| && ks.retiring[i] == r;
      assert ks.retiring[i].signing.kid != ks.active.kid;
      var found := ResolveRetiring(ks.retiring, k.kid);
      var r' :| r' in ks.retiring && r'.signing == found.value;
      var j :| 0 <= j < |ks.retiring| && ks.retiring[j] == r';
      assert i == j;
    }
  }

  /** The directory durably holds this key set: a start-up loads it back. */
  ghost predicate Home(disk: Disk, ks: KeySet) {
    Sound(ks, disk.files) && Reflects(disk, ks)
  }

  /** The durable manifest carries the age of the active key, so that a restart goes on counting it. */
  ghost predicate Aged(disk: Disk, since: nat) {
    disk.manifest.Some? && disk.manifest.value.Readable? && disk.manifest.value.manifest.activeSince == since
  }

  lemma RestartKeepsAge(disk: Disk, since: nat, now: nat)
    requires Aged(disk, since) && since > 0 && Load(disk, now).Ok?
    ensures Load(disk, now).value.since == since
  {
  }

  function KidOf(key: Option<PrivateKey>): set<string> {
    if key.Some? then {key.value.fingerprint} else {}
  }

  /** The states a maintenance pass may leave a key set in: as it was, rotated, swept, or both. */
  ghost predicate OfPass(ks': KeySet, ks: KeySet, alg: Alg, window: nat, now: nat, newKey: Option<PrivateKey>) {
    || ks' == ks
    || ks' == Swept(ks, now)
    || (newKey.Some? && ks' == Rotated(ks, newKey.value, alg, window, now))
    || (newKey.Some? && ks' == Swept(Rotated(ks, newKey.value, alg, window, now), now))
  }

  ghost predicate HomeOfPass(d: Disk, ks: KeySet, alg: Alg, window: nat, now: nat, newKey: Option<PrivateKey>) {
    exists ks' :: OfPass(ks', ks, alg, window, now, newKey) && Home(d, ks')
  }

  lemma HomeIsRecoverable(disk: Disk, ks: KeySet, now: nat)
    requires Home(disk, ks)
    ensures Recoverable(disk)
    ensures Load(disk, now).Ok?
    ensures Load(disk, now).value.active == ks.active && Load(disk, now).value.retiring == ks.retiring
    ensures Home(disk, Load(disk, now).value)
  {
    LoadReturnsPublished(disk, ks, now);
    LoadReturnsPublished(disk, ks, 0);
  }

  ghost predicate DistinctKids(retiring: seq<RetiredKey>) {
    forall i, j | 0 <= i < j < |retiring| :: retiring[i].signing.kid != retiring[j].signing.kid
  }

  lemma {:induction false} UnexpiredDistinct(retiring: seq<RetiredKey>, now: nat)
    requires DistinctKids(retiring)
    ensures DistinctKids(Unexpired(retiring, now))
  {
    if retiring != [] {
      var init, last := retiring[..|retiring| - 1], retiring[|retiring| - 1];
      UnexpiredDistinct(init, now);
      var kept := Unexpired(init, now);
      forall i | 0 <= i < |kept|
        ensures kept[i].signing.kid != last.signing.kid
      {
        assert kept[i] in init;
      }
    }
  }

  lemma RotatedIsSound(ks: KeySet, files: map<string, Pem>, newKey: PrivateKey, alg: Alg, window: nat, now: nat)
    requires Sound(ks, files) && AlgForKey(newKey) == Some(alg) && newKey.fingerprint !in files
    ensures Sound(Rotated(ks, newKey, alg, window, now), files[newKey.fingerprint := KeyPem(newKey)])
  {
  }

  lemma SweptIsSound(ks: KeySet, files: map<string, Pem>, now: nat)
    requires Sound(ks, files)
    ensures Sound(Swept(ks, now), files)
  {
    var kept := Unexpired(ks.retiring, now);
    forall i | 0 <= i < |kept|
      ensures Backed(kept[i].signing, files) && kept[i].signing.kid != ks.active.kid
    {
      assert kept[i] in ks.retiring;
    }
    assert DistinctKids(ks.retiring);
    UnexpiredDistinct(ks.retiring, now);
  }

  // -- The manager -----------------------------------------------------------

  datatype StartError = LoadFailed | LegacyUnparsable | KeyGenerationFailed | WriteFailed | AlgMismatch

  class Manager {
    const alg: Alg
    const rotationInterval: nat
    const retireWindow: nat
    const dir: KeyDir
    var active: SigningKey
    var since: nat
    var retiring: seq<RetiredKey>
    /** One externally provided key: no directory, no rotation. */
    const fixed: bool

    function Keys(): KeySet
      reads this
    {
      KeySet(active, since, retiring)
    }

    /** The key set in memory is the one a restart would load. */
    ghost predicate Valid()
      reads this, dir
    {
      fixed || Home(dir.disk, Keys())
    }

    /** A manager before its start-up pass; `placeholder` stands for the zero key. */
    constructor Blank(alg: Alg, rotationInterval: nat, retireWindow: nat, dir: KeyDir, placeholder: SigningKey)
      ensures this.alg == alg && this.rotationInterval == rotationInterval && this.retireWindow == retireWindow
      ensures this.dir == dir && !fixed
    {
      this.alg, this.rotationInterval, this.retireWindow, this.dir := alg, rotationInterval, retireWindow, dir;
      this.active, this.since, this.retiring, this.fixed := placeholder, 0, [], false;
    }

    /** The JWT_PRIVATE_KEY mode; the key must match the configured algorithm. */
    static method NewFixed(key: PrivateKey, alg: Alg, dir: KeyDir) returns (r: Result<Manager, StartError>)
      ensures r.Ok? <==> AlgForKey(key) == Some(alg)
      ensures r.Ok? ==> fresh(r.value) && r.value.fixed && r.value.Valid() && r.value.dir == dir
      ensures r.Ok? ==> Resolve(r.value.Keys(), key.fingerprint) == Some(SigningKey(key.fingerprint, alg, key))
    {
      if AlgForKey(key) != Some(alg) {
        return Err(AlgMismatch);
      }
      var m := new Manager.Fixed(key, alg, dir);
      return Ok(m);
    }

    constructor Fixed(key: PrivateKey, alg: Alg, dir: KeyDir)
      ensures this.alg == alg && this.dir == dir && fixed
      ensures Keys() == KeySet(SigningKey(key.fingerprint, alg, key), 0, [])
    {
      this.alg, this.rotationInterval, this.retireWindow, this.dir := alg, 0, 0, dir;
      this.active, this.since, this.retiring, this.fixed := SigningKey(key.fingerprint, alg, key), 0, [], true;
    }

    method ActiveKey() returns (k: SigningKey)
      ensures k == active
    {
      k := active;
    }

    method VerificationKey(kid: string) returns (key: Option<SigningKey>)
      ensures key == Resolve(Keys(), kid)
    {
      if kid == "" {
        return None;
      }
      if kid == active.kid {
        return Some(active);
      }
      var i := 0;
      while i < |retiring|
        invariant 0 <= i <= |retiring|
        invariant ResolveRetiring(retiring, kid) == ResolveRetiring(retiring[i..], kid)
      {
        if kid == retiring[i].signing.kid {
          return Some(retiring[i].signing);
        }
        assert retiring[i..][1..] == retiring[i + 1..];
        i := i + 1;
      }
      return None;
    }

    /** Publishes the key set in memory. The manifest on disk is at every moment either the
        previous one or the whole new one. */
    method WriteManifest() returns (ok: bool)
      requires Sound(Keys(), dir.disk.files)
      modifies dir
      ensures dir.disk.files == old(dir.disk.files)
      ensures dir.disk.manifest == if ok then Some(Readable(ManifestOf(Keys()))) else old(dir.disk.manifest)
      ensures ok ==> Home(dir.disk, Keys()) && Aged(dir.disk, since)
      ensures old(dir.seen) <= dir.seen && (dir.disk in dir.seen || dir.disk == old(dir.disk))
      ensures forall d | d in dir.seen && d !in old(dir.seen) ::
                && d.files == old(dir.disk.files)
                && (d.manifest == old(dir.disk.manifest) || (Home(d, Keys()) && Aged(d, since)))
    {
      var entries: seq<RetiringEntry> := [];
      for i := 0 to |retiring|
        invariant entries == EntriesOf(retiring)[..i]
      {
        entries := entries + [RetiringEntry(retiring[i].signing.kid, retiring[i].notAfter)];
      }
      assert entries == EntriesOf(retiring);
      ok := dir.WriteTmp(Readable(Manifest(active.kid, since, entries)));
      if ok {
        ok := dir.RenameTmp();
      }
      if !ok {
        dir.RemoveTmp();
      }
    }

    /** New key file first, manifest last, memory only once the manifest is durable. Whatever
        happens, every state the disk passes through holds the old set or the new one. */
    method RotateLocked(now: nat, newKey: Option<PrivateKey>) returns (ok: bool)
      requires Valid()
      requires newKey.Some? ==> AlgForKey(newKey.value) == Some(alg) && newKey.value.fingerprint !in dir.disk.files
      modifies this, dir
      ensures Valid()
      ensures if ok then Aged(dir.disk, since) else dir.disk.manifest == old(dir.disk.manifest)
      ensures forall d | d in dir.seen && d !in old(dir.seen) :: d.manifest == old(dir.disk.manifest) || Aged(d, now)
      ensures fixed || newKey.None? ==> !ok
      ensures Keys() == if ok then Rotated(old(Keys()), newKey.value, alg, retireWindow, now) else old(Keys())
      ensures fixed ==> dir.disk == old(dir.disk) && dir.seen == old(dir.seen)
      ensures !fixed ==>
                forall d | d in dir.seen ::
                  || d in old(dir.seen)
                  || Home(d, old(Keys()))
                  || (newKey.Some? && Home(d, Rotated(old(Keys()), newKey.value, alg, retireWindow, now)))
      ensures old(dir.seen) <= dir.seen && (dir.disk in dir.seen || dir.disk == old(dir.disk))
      ensures dir.disk.files.Keys <= old(dir.disk.files.Keys) + if newKey.Some? then {newKey.value.fingerprint} else {}
      ensures forall d | d in dir.seen && d !in old(dir.seen) ::
                d.files.Keys <= old(dir.disk.files.Keys) + if newKey.Some? then {newKey.value.fingerprint} else {}
    {
      if fixed || newKey.None? {
        return false;
      }
      var key := newKey.value;
      var kid: string := key.fingerprint;
      ok := dir.WriteKeyFile(kid, KeyPem(key));
      label Saved:
      ghost var before := Keys();
      ghost var next := Rotated(before, key, alg, retireWindow, now);
      forall d | OnlyFileDiffers(old(dir.disk), kid, d)
        ensures Home(d, before) && d.files.Keys <= old(dir.disk.files.Keys) + {kid}
      {
        OtherFilesStayBacked(before, old(dir.disk).files, d.files, kid);
        forall k | k in d.files && k != kid ensures k in old(dir.disk.files) {
          assert k in d.files - {kid};
        }
      }
      assert OnlyFileDiffers(old(dir.disk), kid, dir.disk);
      if !ok {
        return;
      }
      RotatedIsSound(before, old(dir.disk.files), key, alg, retireWindow, now);
      var previousActive, previousSince, previousRetiring := active, since, retiring;
      active := SigningKey(kid, alg, key);
      since := now;
      retiring := previousRetiring + [RetiredKey(previousActive, now + retireWindow)];
      ok := WriteManifest();
      if !ok {
        active, since, retiring := previousActive, previousSince, previousRetiring;
      }
    }

    method Partition(now: nat) returns (kept: seq<RetiredKey>, expired: seq<RetiredKey>)
      ensures kept == Unexpired(retiring, now)
      ensures forall r :: r in expired <==> r in retiring && r.notAfter <= now
      ensures expired == [] ==> kept == retiring
    {
      kept, expired := [], [];
      for i := 0 to |retiring|
        invariant kept == Unexpired(retiring[..i], now)
        invariant forall r :: r in expired <==> r in retiring[..i] && r.notAfter <= now
        invariant expired == [] ==> kept == retiring[..i]
      {
        assert retiring[..i + 1][..i] == retiring[..i];
        assert retiring[..i + 1] == retiring[..i] + [retiring[i]];
        if now < retiring[i].notAfter {
          kept := kept + [retiring[i]];
        } else {
          expired := expired + [retiring[i]];
        }
      }
      assert retiring[..|retiring|] == retiring;
    }

    /** Drops retiring keys whose time has passed: the manifest first, then their files. */
    method SweepLocked(now: nat) returns (ok: bool)
      requires Valid() && !fixed
      modifies this, dir
      ensures Valid()
      ensures active == old(active) && since == old(since)
      ensures dir.disk.manifest == old(dir.disk.manifest) || Aged(dir.disk, since)
      ensures forall d | d in dir.seen && d !in old(dir.seen) :: d.manifest == old(dir.disk.manifest) || Aged(d, since)
      ensures Keys() == if ok then Swept(old(Keys()), now) else old(Keys())
      ensures forall d | d in dir.seen :: d in old(dir.seen) || Home(d, old(Keys())) || Home(d, Swept(old(Keys()), now))
      ensures old(dir.seen) <= dir.seen && (dir.disk in dir.seen || dir.disk == old(dir.disk))
      ensures dir.disk.files.Keys <= old(dir.disk.files.Keys)
      ensures forall d | d in dir.seen && d !in old(dir.seen) :: d.files.Keys <= old(dir.disk.files.Keys)
    {
      var kept, expired := Partition(now);
      if |expired| == 0 {
        return true;
      }
      SweptIsSound(Keys(), dir.disk.files, now);
      var previousRetiring := retiring;
      retiring := kept;
      ok := WriteManifest();
      if !ok {
        retiring := previousRetiring;
        return;
      }
      forall i | 0 <= i < |expired| ensures !Holds(Keys(), expired[i].signing.kid) {
        assert expired[i] in previousRetiring;
        ExpiredKidIsFree(old(Keys()), old(dir.disk.files), now, expired[i]);
      }
      DeleteKeyFiles(expired);
    }

    /** Best-effort removal of files no key of the set needs. */
    method DeleteKeyFiles(expired: seq<RetiredKey>)
      requires Home(dir.disk, Keys())
      requires forall i | 0 <= i < |expired| :: !Holds(Keys(), expired[i].signing.kid)
      modifies dir
      ensures dir.disk.manifest == old(dir.disk.manifest)
      ensures forall d | d in dir.seen && d !in old(dir.seen) :: d.manifest == old(dir.disk.manifest)
      ensures Home(dir.disk, Keys())
      ensures old(dir.seen) <= dir.seen && (dir.disk in dir.seen || dir.disk == old(dir.disk))
      ensures forall d | d in dir.seen && d !in old(dir.seen) ::
                Home(d, Keys()) && d.files.Keys <= old(dir.disk.files.Keys)
      ensures dir.disk.files.Keys <= old(dir.disk.files.Keys)
    {
      for i := 0 to |expired|
        invariant dir.disk.manifest == old(dir.disk.manifest)
        invariant forall d | d in dir.seen && d !in old(dir.seen) :: d.manifest == old(dir.disk.manifest)
        invariant Home(dir.disk, Keys())
        invariant old(dir.seen) <= dir.seen && (dir.disk in dir.seen || dir.disk == old(dir.disk))
        invariant forall d | d in dir.seen && d !in old(dir.seen) ::
                    Home(d, Keys()) && d.files.Keys <= old(dir.disk.files.Keys)
        invariant dir.disk.files.Keys <= old(dir.disk.files.Keys)
      {
        OtherFilesStayBacked(Keys(), dir.disk.files, dir.disk.files - {expired[i].signing.kid}, expired[i].signing.kid);
        dir.RemoveKeyFile(expired[i].signing.kid);
      }
    }

    /** One maintenance pass: rotate when due, then sweep. */
    method Maintain(now: nat, newKey: Option<PrivateKey>) returns (ok: bool)
      requires Valid()
      requires newKey.Some? ==> AlgForKey(newKey.value) == Some(alg) && newKey.value.fingerprint !in dir.disk.files
      modifies this, dir
      ensures Valid()
      ensures Aged(old(dir.disk), old(since)) ==> Aged(dir.disk, since)
      ensures fixed ==> ok && Keys() == old(Keys()) && dir.disk == old(dir.disk) && dir.seen == old(dir.seen)
      ensures !fixed && ok ==>
                && (RotationDue(old(Keys()), alg, rotationInterval, now) ==> newKey.Some?)
                && Keys() == Maintained(old(Keys()), alg, rotationInterval, retireWindow, now, newKey)
                && KeptOrReplaced(old(Keys()), alg, rotationInterval, retireWindow, now, newKey, Keys())
      ensures !ok ==>
                || Keys() == old(Keys())
                || (RotationDue(old(Keys()), alg, rotationInterval, now) && newKey.Some? &&
                    Keys() == Rotated(old(Keys()), newKey.value, alg, retireWindow, now))
      ensures OfPass(Keys(), old(Keys()), alg, retireWindow, now, newKey)
      ensures old(dir.seen) <= dir.seen && (dir.disk in dir.seen || dir.disk == old(dir.disk))
      ensures forall d | d in dir.seen && d !in old(dir.seen) ::
                && HomeOfPass(d, old(Keys()), alg, retireWindow, now, newKey)
                && d.files.Keys <= old(dir.disk.files.Keys) + KidOf(newKey)
      ensures dir.disk.files.Keys <= old(dir.disk.files.Keys) +
                if RotationDue(old(Keys()), alg, rotationInterval, now) then KidOf(newKey) else {}
    {
      hide Home, Swept, Rotated, KeptOrReplaced;
      if fixed {
        return true;
      }
      var rotationDue := rotationInterval > 0 && now >= since + rotationInterval;
      var algSwitched := active.alg != alg;
      if rotationDue || algSwitched {
        ok := RotateLocked(now, newKey);
        if !ok {
          return;
        }
      }
      ok := SweepLocked(now);
      if ok {
        MaintainedByAge(old(Keys()), alg, rotationInterval, retireWindow, now, newKey);
      }
    }

    method Rotate(now: nat, newKey: Option<PrivateKey>) returns (ok: bool)
      requires Valid()
      requires newKey.Some? ==> AlgForKey(newKey.value) == Some(alg) && newKey.value.fingerprint !in dir.disk.files
      modifies this, dir
      ensures Valid()
      ensures if ok then Aged(dir.disk, since) else dir.disk.manifest == old(dir.disk.manifest)
      ensures fixed || newKey.None? ==> !ok
      ensures Keys() == if ok then Rotated(old(Keys()), newKey.value, alg, retireWindow, now) else old(Keys())
      ensures !fixed ==>
                forall d | d in dir.seen ::
                  || d in old(dir.seen)
                  || Home(d, old(Keys()))
                  || (newKey.Some? && Home(d, Rotated(old(Keys()), newKey.value, alg, retireWindow, now)))
    {
      ok := RotateLocked(now, newKey);
    }

    // -- Start-up -------------------------------------------------------------

    /** Reads an existing manifest and every key it names; fails without changing anything. */
    method LoadAll(now: nat) returns (ok: bool)
      requires dir.disk.manifest.Some? && !fixed
      modifies this
      ensures ok <==> Load(dir.disk, now).Ok?
      ensures Keys() == if ok then Load(dir.disk, now).value else old(Keys())
      ensures ok && !Aged(dir.disk, 0) ==> Aged(dir.disk, since)
    {
      hide LoadKey, ParsePem, EntriesOf;
      match dir.disk.manifest.value {
        case Unreadable => return false;
        case Readable(mf) =>
          var activeKey := LoadKey(dir.disk.files, mf.active);
          if activeKey.Err? {
            return false;
          }
          var entries := mf.retiring;
          var loaded: seq<RetiredKey> := [];
          for i := 0 to |entries|
            invariant LoadRetiring(dir.disk.files, entries[..i]) == Ok(loaded)
          {
            assert entries[..i + 1][..i] == entries[..i];
            var key := LoadKey(dir.disk.files, entries[i].kid);
            if key.Err? {
              LoadRetiringFails(dir.disk.files, entries, i + 1);
              return false;
            }
            loaded := loaded + [RetiredKey(key.value, entries[i].notAfter)];
          }
          assert entries[..|entries|] == entries;
          active := activeKey.value;
          since := if mf.activeSince == 0 then now else mf.activeSince;
          retiring := loaded;
          return true;
      }
    }

    /** Creates the first manifest, from the legacy key file when there is one. */
    method Initialize(now: nat, newKey: Option<PrivateKey>) returns (r: Result<(), StartError>)
      requires !fixed && dir.disk.manifest.None? && retiring == []
      requires newKey.Some? ==> AlgForKey(newKey.value) == Some(alg)
      modifies this, dir
      ensures r.Ok? ==> Valid() && Aged(dir.disk, since) && FirstKey(dir.legacy, newKey).Some?
      ensures r.Ok? ==> Keys() == FirstSet(FirstKey(dir.legacy, newKey).value, now)
      ensures dir.disk.files.Keys <= old(dir.disk.files.Keys) + KidOf(FirstKey(dir.legacy, newKey))
      ensures dir.legacy.Some? && ParsePem(dir.legacy.value).None? ==> r == Err(LegacyUnparsable)
      ensures dir.legacy.None? && newKey.None? ==> r == Err(KeyGenerationFailed)
      ensures r.Err? ==> dir.disk.manifest.None?
      ensures old(dir.seen) <= dir.seen && (dir.disk in dir.seen || dir.disk == old(dir.disk))
      ensures forall d | d in dir.seen && d !in old(dir.seen) ::
                && FirstKey(dir.legacy, newKey).Some?
                && (d.manifest.None? || Home(d, FirstSet(FirstKey(dir.legacy, newKey).value, now)))
                && d.files.Keys <= old(dir.disk.files.Keys) + KidOf(FirstKey(dir.legacy, newKey))
    {
      var key: PrivateKey;
      var pem: Pem;
      if dir.legacy.Some? {
        var parsed := ParsePem(dir.legacy.value);
        if parsed.None? {
          return Err(LegacyUnparsable);
        }
        key, pem := parsed.value, dir.legacy.value;
      } else {
        if newKey.None? {
          return Err(KeyGenerationFailed);
        }
        key, pem := newKey.value, KeyPem(newKey.value);
      }
      var saved := dir.WriteKeyFile(key.fingerprint, pem);
      forall d | OnlyFileDiffers(old(dir.disk), key.fingerprint, d)
        ensures d.files.Keys <= old(dir.disk.files.Keys) + {key.fingerprint}
      {
        OneFileMore(old(dir.disk), key.fingerprint, d);
      }
      assert OnlyFileDiffers(old(dir.disk), key.fingerprint, dir.disk);
      if !saved {
        return Err(WriteFailed);
      }
      active := SigningKey(key.fingerprint, AlgForKey(key).value, key);
      since := now;
      var published := WriteManifest();
      if !published {
        return Err(WriteFailed);
      }
      return Ok(());
    }

    /** The first half of a start-up: load the directory, or initialise it. */
    method Begin(now: nat, first: Option<PrivateKey>) returns (r: Result<(), StartError>)
      requires !fixed && retiring == [] && LoadsDistinct(dir.disk, now)
      requires first.Some? ==> AlgForKey(first.value) == Some(alg)
      modifies this, dir
      ensures r.Ok? ==> Valid() && StartSet(old(dir.disk), dir.legacy, first, now) == Some(Keys())
      ensures r.Ok? && !Aged(old(dir.disk), 0) ==> Aged(dir.disk, since)
      ensures StartSet(old(dir.disk), dir.legacy, first, now).None? ==> r.Err?
      ensures old(dir.disk).manifest.Some? ==> dir.disk == old(dir.disk) && dir.seen == old(dir.seen)
      ensures old(dir.disk).manifest.None? && r.Err? ==> dir.disk.manifest.None?
      ensures old(dir.seen) <= dir.seen && (dir.disk in dir.seen || dir.disk == old(dir.disk))
      ensures dir.disk.files.Keys <= old(dir.disk.files.Keys) + StartKid(old(dir.disk), dir.legacy, first)
      ensures forall d | d in dir.seen && d !in old(dir.seen) ::
                HomeOfStart(d, old(dir.disk), dir.legacy, first, now)
    {
      if dir.disk.manifest.Some? {
        var loaded := LoadAll(now);
        return if loaded then Ok(()) else Err(LoadFailed);
      }
      hide Home;
      r := Initialize(now, first);
    }

    /** Load or initialise, then one maintenance pass. A start-up that fails leaves the directory
        without a manifest, where it had none, or with the set it began with, rotated or not. */
    method Start(now: nat, first: Option<PrivateKey>, next: Option<PrivateKey>) returns (r: Result<(), StartError>)
      requires !fixed && retiring == [] && LoadsDistinct(dir.disk, now)
      requires first.Some? ==> AlgForKey(first.value) == Some(alg)
      requires next.Some? ==> AlgForKey(next.value) == Some(alg)
      requires KidOf(next) !! dir.disk.files.Keys + StartKid(dir.disk, dir.legacy, first)
      modifies this, dir
      ensures r.Ok? ==> Valid() && active.alg == alg
      ensures r.Ok? && !Aged(old(dir.disk), 0) ==> Aged(dir.disk, since)
      ensures r.Ok? ==>
                var begun := StartSet(old(dir.disk), dir.legacy, first, now);
                && begun.Some? && BegunFrom(old(dir.disk), dir.legacy, first, now, begun.value)
                && Keys() == Maintained(begun.value, alg, rotationInterval, retireWindow, now, next)
                && KeptOrReplaced(begun.value, alg, rotationInterval, retireWindow, now, next, Keys())
      ensures StartSet(old(dir.disk), dir.legacy, first, now).None? ==> r.Err?
      ensures old(dir.seen) <= dir.seen && (dir.disk in dir.seen || dir.disk == old(dir.disk))
      ensures dir.disk.files.Keys <=
              old(dir.disk.files.Keys) + StartKid(old(dir.disk), dir.legacy, first) + KidOf(next)
      ensures forall d | d in dir.seen && d !in old(dir.seen) ::
                || HomeOfStart(d, old(dir.disk), dir.legacy, first, now)
                || HomeAfterStart(d, old(dir.disk), dir.legacy, first, alg, retireWindow, now, next)
    {
      r := Begin(now, first);
      if r.Err? {
        return;
      }
      StartSetIsBegun(old(dir.disk), dir.legacy, first, now);
      hide Home, OfPass, KeptOrReplaced, BegunFrom, Maintained;
      var maintained := Maintain(now, next);
      return if maintained then Ok(()) else Err(WriteFailed);
    }
  }

  lemma OneFileMore(before: Disk, kid: string, d: Disk)
    requires OnlyFileDiffers(before, kid, d)
    ensures d.files.Keys <= before.files.Keys + {kid}
  {
    forall k | k in d.files && k != kid ensures k in before.files {
      assert k in d.files - {kid};
    }
  }

  function StartKid(disk: Disk, legacy: Option<Pem>, first: Option<PrivateKey>): set<string>
    requires first.Some? ==> AlgForKey(first.value).Some?
  {
    if disk.manifest.None? then KidOf(FirstKey(legacy, first)) else {}
  }

  /** A manifest that can be loaded names no kid twice; one written by hand might. */
  ghost predicate LoadsDistinct(disk: Disk, now: nat) {
    disk.manifest.Some? && Load(disk, now).Ok? ==> Sound(Load(disk, now).value, disk.files)
  }

  /** A disk state on the way to a first manifest. */
  ghost predicate HomeOfStart(d: Disk, before: Disk, legacy: Option<Pem>, first: Option<PrivateKey>, now: nat)
    requires first.Some? ==> AlgForKey(first.value).Some?
  {
    && before.manifest.None?
    && StartSet(before, legacy, first, now).Some?
    && (d.manifest.None? || Home(d, StartSet(before, legacy, first, now).value))
    && d.files.Keys <= before.files.Keys + StartKid(before, legacy, first)
  }

  /** A disk state of the maintenance pass that ends a start-up. */
  ghost predicate HomeAfterStart(d: Disk, before: Disk, legacy: Option<Pem>, first: Option<PrivateKey>,
                                 alg: Alg, window: nat, now: nat, next: Option<PrivateKey>)
    requires first.Some? ==> AlgForKey(first.value).Some?
  {
    var begun := StartSet(before, legacy, first, now);
    && begun.Some?
    && HomeOfPass(d, begun.value, alg, window, now, next)
    && d.files.Keys <= before.files.Keys + StartKid(before, legacy, first) + KidOf(next)
  }

  /** Every state a start-up leaves behind can be restarted from. */
  lemma StartsAreRecoverable(d: Disk, before: Disk, legacy: Option<Pem>, first: Option<PrivateKey>,
                             alg: Alg, window: nat, now: nat, next: Option<PrivateKey>)
    requires first.Some? ==> AlgForKey(first.value).Some?
    requires HomeOfStart(d, before, legacy, first, now)
             || HomeAfterStart(d, before, legacy, first, alg, window, now, next)
    ensures Recoverable(d)
  {
    if d.manifest.Some? {
      var ks :| Home(d, ks);
      HomeIsRecoverable(d, ks, now);
    }
  }

  lemma LoadRetiringFails(files: map<string, Pem>, entries: seq<RetiringEntry>, n: nat)
    requires n <= |entries| && LoadRetiring(files, entries[..n]).Err?
    ensures LoadRetiring(files, entries).Err?
    decreases |entries|
  {
    if n < |entries| {
      var init := entries[..|entries| - 1];
      assert init[..n] == entries[..n];
      LoadRetiringFails(files, init, n);
    } else {
      assert entries[..n] == entries;
    }
  }

  lemma OtherFilesStayBacked(ks: KeySet, files: map<string, Pem>, files': map<string, Pem>, kid: string)
    requires Sound(ks, files) && files - {kid} == files' - {kid}
    requires !Holds(ks, kid)
    ensures Sound(ks, files')
  {
    forall k: SigningKey | Backed(k, files) && k.kid != kid ensures Backed(k, files') {
      assert k.kid in files - {kid};
      assert k.kid in files' - {kid};
      assert (files - {kid})[k.kid] == (files' - {kid})[k.kid];
    }
  }

  ghost predicate Holds(ks: KeySet, kid: string) {
    kid == ks.active.kid || exists i :: 0 <= i < |ks.retiring| && ks.retiring[i].signing.kid == kid
  }

  /** An expired key shares its kid with no key that stays. */
  lemma ExpiredKidIsFree(ks: KeySet, files: map<string, Pem>, now: nat, r: RetiredKey)
    requires Sound(ks, files) && r in ks.retiring && r.notAfter <= now
    ensures !Holds(Swept(ks, now), r.signing.kid)
  {
    var j :| 0 <= j < |ks.retiring| && ks.retiring[j] == r;
    forall i | 0 <= i < |Unexpired(ks.retiring, now)|
      ensures Unexpired(ks.retiring, now)[i].signing.kid != r.signing.kid
    {
      var u := Unexpired(ks.retiring, now)[i];
      assert u in ks.retiring;
      var k :| 0 <= k < |ks.retiring| && ks.retiring[k] == u;
    }
  }
}
