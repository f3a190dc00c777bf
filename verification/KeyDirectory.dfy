/** The signing-key directory: what can be on disk, what a start-up reads from it, and the
    individual file operations, each of which may fail part-way. */
module KeyDirectory {
  import opened Wrappers

  datatype Alg = RS256 | ES256

  /** Hex of the first eight bytes of a SHA-256 digest. */
  type Fingerprint = s: string | |s| == 16 witness "0000000000000000"

  datatype PrivateKey =
    | Rsa(fingerprint: Fingerprint, bits: nat)
    | Ecdsa(fingerprint: Fingerprint, p256: bool)
    | OtherKey(fingerprint: Fingerprint)

  const MIN_RSA_MODULUS_BITS: nat := 2048

  function AlgForKey(key: PrivateKey): Option<Alg> {
    match key
    case Rsa(_, bits) => if bits < MIN_RSA_MODULUS_BITS then None else Some(RS256)
    case Ecdsa(_, p256) => if p256 then Some(ES256) else None
    case OtherKey(_) => None
  }

  /** Content of a key file; a write cut short leaves something no parser accepts. */
  datatype Pem = KeyPem(key: PrivateKey) | Torn

  function ParsePem(pem: Pem): Option<PrivateKey> {
    if pem.KeyPem? && AlgForKey(pem.key).Some? then Some(pem.key) else None
  }

  /** `kid` always equals `key.fingerprint` for a key the manager built or loaded. */
  datatype SigningKey = SigningKey(kid: string, alg: Alg, key: PrivateKey)

  ghost predicate WellMade(k: SigningKey) {
    k.kid == k.key.fingerprint && AlgForKey(k.key) == Some(k.alg)
  }

  datatype RetiredKey = RetiredKey(signing: SigningKey, notAfter: nat)

  /** The manager's in-memory key set. */
  datatype KeySet = KeySet(active: SigningKey, since: nat, retiring: seq<RetiredKey>)

  datatype RetiringEntry = RetiringEntry(kid: string, notAfter: nat)
  datatype Manifest = Manifest(active: string, activeSince: nat, retiring: seq<RetiringEntry>)
  datatype ManifestFile = Readable(manifest: Manifest) | Unreadable

  datatype Disk = Disk(files: map<string, Pem>, manifest: Option<ManifestFile>, tmp: Option<ManifestFile>)

  // -- What a key set and its directory have to do with each other ---------

  function EntriesOf(retiring: seq<RetiredKey>): (entries: seq<RetiringEntry>)
    ensures |entries| == |retiring|
  {
    seq(|retiring|, i requires 0 <= i < |retiring| =>
      RetiringEntry(retiring[i].signing.kid, retiring[i].notAfter))
  }

  function ManifestOf(ks: KeySet): Manifest {
    Manifest(ks.active.kid, ks.since, EntriesOf(ks.retiring))
  }

  /** The key's own file holds exactly this key. */
  ghost predicate Backed(k: SigningKey, files: map<string, Pem>) {
    WellMade(k) && k.kid in files && files[k.kid] == KeyPem(k.key)
  }

  /** All keys are backed by their files, and no kid occurs twice. */
  ghost predicate Sound(ks: KeySet, files: map<string, Pem>) {
    && Backed(ks.active, files)
    && (forall i | 0 <= i < |ks.retiring| ::
          Backed(ks.retiring[i].signing, files) && ks.retiring[i].signing.kid != ks.active.kid)
    && (forall i, j | 0 <= i < j < |ks.retiring| ::
          ks.retiring[i].signing.kid != ks.retiring[j].signing.kid)
  }

  /** The durable manifest says what the set says. Only a manifest written by hand may leave the
      age of the active key out; such a key is aged from the moment it is loaded. */
  ghost predicate Reflects(disk: Disk, ks: KeySet) {
    && disk.manifest.Some?
    && disk.manifest.value.Readable?
    && disk.manifest.value.manifest.active == ks.active.kid
    && disk.manifest.value.manifest.activeSince in {0, ks.since}
    && disk.manifest.value.manifest.retiring == EntriesOf(ks.retiring)
  }

  // -- Start-up -------------------------------------------------------------

  datatype LoadError = ManifestUnreadable | EmptyKid | KeyMissing | KeyUnparsable | KidMismatch

  function LoadKey(files: map<string, Pem>, kid: string): (r: Result<SigningKey, LoadError>)
    ensures r.Ok? <==> kid in files && ParsePem(files[kid]).Some? && files[kid].key.fingerprint == kid
    ensures r.Ok? ==> Backed(r.value, files) && r.value.kid == kid
  {
    if kid == "" then Err(EmptyKid)
    else if kid !in files then Err(KeyMissing)
    else match ParsePem(files[kid])
      case None => Err(KeyUnparsable)
      case Some(key) =>
        if key.fingerprint != kid then Err(KidMismatch)
        else Ok(SigningKey(kid, AlgForKey(key).value, key))
  }

  /** The keys that are accepted: RSA of at least 2048 bits signs RS256 and P-256 signs ES256, each under
      its own fingerprint. */
  lemma LoadsExactly(files: map<string, Pem>, kid: string)
    ensures LoadKey(files, kid).Ok? <==>
            && kid in files
            && match files[kid]
               case KeyPem(Rsa(fingerprint, bits)) => fingerprint == kid && bits >= 2048
               case KeyPem(Ecdsa(fingerprint, p256)) => fingerprint == kid && p256
               case _ => false
    ensures LoadKey(files, kid).Ok? ==>
              && LoadKey(files, kid).value.key == files[kid].key
              && LoadKey(files, kid).value.alg == if files[kid].key.Rsa? then RS256 else ES256
  {
  }

  function LoadRetiring(files: map<string, Pem>, entries: seq<RetiringEntry>): (r: Result<seq<RetiredKey>, LoadError>)
    ensures r.Ok? ==> EntriesOf(r.value) == entries
    ensures r.Ok? ==> forall i | 0 <= i < |r.value| :: Backed(r.value[i].signing, files)
  {
    if entries == [] then Ok([])
    else
      var init :- LoadRetiring(files, entries[..|entries| - 1]);
      var e := entries[|entries| - 1];
      var key :- LoadKey(files, e.kid);
      assert entries == entries[..|entries| - 1] + [e];
      Ok(init + [RetiredKey(key, e.notAfter)])
  }

  /** The key set a start-up at `now` reads from a directory that has a manifest. */
  function Load(disk: Disk, now: nat): (r: Result<KeySet, LoadError>)
    requires disk.manifest.Some?
    ensures r.Ok? ==> Reflects(disk, r.value)
    ensures r.Ok? ==>
              var age := disk.manifest.value.manifest.activeSince; r.value.since == if age == 0 then now else age
  {
    match disk.manifest.value
    case Unreadable => Err(ManifestUnreadable)
    case Readable(mf) =>
      var active :- LoadKey(disk.files, mf.active);
      var retiring :- LoadRetiring(disk.files, mf.retiring);
      Ok(KeySet(active, if mf.activeSince == 0 then now else mf.activeSince, retiring))
  }

  lemma {:induction false} LoadRetiringBacked(files: map<string, Pem>, retiring: seq<RetiredKey>)
    requires forall i | 0 <= i < |retiring| :: Backed(retiring[i].signing, files)
    ensures LoadRetiring(files, EntriesOf(retiring)) == Ok(retiring)
  {
    if retiring != [] {
      var init := retiring[..|retiring| - 1];
      LoadRetiringBacked(files, init);
      assert EntriesOf(retiring)[..|retiring| - 1] == EntriesOf(init);
      assert retiring == init + [retiring[|retiring| - 1]];
    }
  }

  /** What a sound key set published is what the next start-up loads. */
  lemma LoadReturnsPublished(disk: Disk, ks: KeySet, now: nat)
    requires Reflects(disk, ks) && Sound(ks, disk.files)
    ensures Load(disk, now).Ok?
    ensures Load(disk, now).value.active == ks.active && Load(disk, now).value.retiring == ks.retiring
    ensures Load(disk, now).value.since in {now, ks.since}
  {
    LoadRetiringBacked(disk.files, ks.retiring);
  }

  /** A restart from this directory succeeds: there is no manifest yet, or it names
      distinct kids whose files exist and match their fingerprints. */
  ghost predicate Recoverable(disk: Disk) {
    disk.manifest.Some? ==> Load(disk, 0).Ok? && Sound(Load(disk, 0).value, disk.files)
  }

  // -- File operations -------------------------------------------------------

  /** The directory. `seen` collects every state the disk has been in, so a property of all of
      `seen` is a property of every point at which the process can die. */
  class KeyDir {
    var disk: Disk
    const legacy: Option<Pem>
    ghost var seen: set<Disk>

    constructor (disk: Disk, legacy: Option<Pem>)
      ensures this.disk == disk && this.legacy == legacy && seen == {disk}
    {
      this.disk := disk;
      this.legacy := legacy;
      this.seen := {disk};
    }

    /** Truncate-and-write; not atomic, and a failed call may leave a torn or a whole file. */
    method WriteKeyFile(kid: string, pem: Pem) returns (ok: bool)
      modifies this
      ensures disk.manifest == old(disk.manifest) && disk.tmp == old(disk.tmp)
      ensures forall k | k != kid :: k in disk.files <==> k in old(disk.files)
      ensures forall k | k != kid && k in disk.files :: disk.files[k] == old(disk.files)[k]
      ensures ok ==> disk.files == old(disk.files)[kid := pem]
      ensures disk in seen || disk == old(disk)
      ensures forall d | d in seen :: d in old(seen) || OnlyFileDiffers(old(disk), kid, d)
      ensures old(seen) <= seen
    {
      if * {
        return false;
      }
      disk := disk.(files := disk.files[kid := Torn]);
      seen := seen + {disk};
      if * {
        return false;
      }
      disk := disk.(files := disk.files[kid := pem]);
      seen := seen + {disk};
      if * {
        return false;
      }
      return true;
    }

    /** Write and sync the temporary manifest; any content may be left behind on failure. */
    method WriteTmp(content: ManifestFile) returns (ok: bool)
      modifies this
      ensures disk.manifest == old(disk.manifest) && disk.files == old(disk.files)
      ensures ok ==> disk.tmp == Some(content)
      ensures old(seen) <= seen && (disk in seen || disk == old(disk))
      ensures forall d | d in seen :: d in old(seen) || (d.manifest == old(disk.manifest) && d.files == old(disk.files))
    {
      if * {
        return false;
      }
      disk := disk.(tmp := Some(Unreadable));
      seen := seen + {disk};
      if * {
        return false;
      }
      disk := disk.(tmp := Some(content));
      seen := seen + {disk};
      if * {
        return false;
      }
      return true;
    }

    /** Atomic rename of the temporary file over the manifest. */
    method RenameTmp() returns (ok: bool)
      requires disk.tmp.Some?
      modifies this
      ensures disk == if ok then old(disk).(manifest := old(disk).tmp, tmp := None) else old(disk)
      ensures seen == if ok then old(seen) + {disk} else old(seen)
    {
      if * {
        return false;
      }
      disk := disk.(manifest := disk.tmp, tmp := None);
      seen := seen + {disk};
      return true;
    }

    /** Best-effort removal of the temporary file. */
    method RemoveTmp()
      modifies this
      ensures disk == old(disk) || disk == old(disk).(tmp := None)
      ensures seen == old(seen) || seen == old(seen) + {disk}
      ensures disk != old(disk) ==> disk in seen
    {
      if * {
        disk := disk.(tmp := None);
        seen := seen + {disk};
      }
    }

    /** Best-effort removal of a key file. */
    method RemoveKeyFile(kid: string)
      modifies this
      ensures disk == old(disk) || disk == old(disk).(files := old(disk).files - {kid})
      ensures seen == old(seen) || seen == old(seen) + {disk}
      ensures disk != old(disk) ==> disk in seen
    {
      if * {
        disk := disk.(files := disk.files - {kid});
        seen := seen + {disk};
      }
    }
  }

  ghost predicate OnlyFileDiffers(before: Disk, kid: string, d: Disk) {
    d.manifest == before.manifest && d.files - {kid} == before.files - {kid}
  }
}
