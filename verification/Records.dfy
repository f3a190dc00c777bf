/** The stored records, the keys they are stored under, and the order of the flat bucket. */
module Records {
  import opened Wrappers

  // -- Records ----------------------------------------------------------------

  /** A time of 0 is the zero time; `title` is the operator's label; `rest` carries the fields
      nothing here looks at. */
  datatype Client = Client(
    id: string, redirectUris: seq<string>, name: string, createdAt: nat, expiresAt: nat, rest: string)

  datatype Request = Request(
    id: string, requestedAt: nat, client: Option<Client>, requestedScope: seq<string>, grantedScope: seq<string>,
    rotatedAt: nat, title: string, rest: string)

  datatype AuthorizeRequest = AuthorizeRequest(request: Option<Request>, rest: string)

  /** A stored value, by what it decodes to. */
  datatype Value =
    | Session(request: Request)
    | Pending(ar: AuthorizeRequest)
    | Registration(client: Client)
    | Account(data: string)
    | Garbled

  // -- Keys ---------------------------------------------------------------------

  datatype Kind =
    | AccessToken | RefreshToken | AuthorizeCode | PkceRequest | AuthorizeRequestKind
    | ClientKind | UserKind | CredentialKind | MetaKind

  datatype Key = Key(kind: Kind, id: string)

  function Prefix(kind: Kind): string {
    match kind
    case AccessToken => "access_token-"
    case RefreshToken => "refresh_token-"
    case AuthorizeCode => "authorize_code-"
    case PkceRequest => "pkce_request-"
    case AuthorizeRequestKind => "authorize_request-"
    case ClientKind => "client-"
    case UserKind => "user-"
    case CredentialKind => "webauthn_credential-"
    case MetaKind => "meta-"
  }

  function Encode(k: Key): string {
    Prefix(k.kind) + k.id
  }

  /** The value is a plain request. */
  predicate IsSessionKind(kind: Kind) {
    kind in {AccessToken, RefreshToken, AuthorizeCode, PkceRequest}
  }

  /** The character that tells the kind once the earlier ones agree. */
  lemma PrefixFree(a: Kind, b: Kind, s: string)
    requires Prefix(a) <= s && Prefix(b) <= s
    ensures a == b
  {
    assert |Prefix(a)| >= 5 && |Prefix(b)| >= 5;
    assert s[0] == Prefix(a)[0] == Prefix(b)[0];
    assert s[1] == Prefix(a)[1] == Prefix(b)[1];
    if a in {AuthorizeCode, AuthorizeRequestKind} && b in {AuthorizeCode, AuthorizeRequestKind} {
      assert s[10] == Prefix(a)[10] == Prefix(b)[10];
    }
  }

  /** No two records share a key, whatever their ids contain. */
  lemma EncodeInjective(k: Key, k': Key)
    requires Encode(k) == Encode(k')
    ensures k == k'
  {
    var s := Encode(k);
    PrefixFree(k.kind, k'.kind, s);
    assert k.id == s[|Prefix(k.kind)|..] == k'.id;
  }

  /** A key has the prefix of its own kind only. */
  lemma EncodeHasOnlyItsPrefix(k: Key, kind: Kind)
    ensures Prefix(kind) <= Encode(k) <==> k.kind == kind
  {
    if Prefix(kind) <= Encode(k) {
      PrefixFree(k.kind, kind, Encode(k));
    }
  }

  // -- Byte order -----------------------------------------------------------------

  /** Strictly before, byte by byte. */
  predicate Below(a: string, b: string) {
    b != [] && (a == [] || a[0] < b[0] || (a[0] == b[0] && Below(a[1..], b[1..])))
  }

  /** `b` goes on after the first `i` bytes, where `a` ends or has the smaller byte. */
  predicate DiffersAt(a: string, b: string, i: nat) {
    i <= |a| && i < |b| && a[..i] == b[..i] && (i == |a| || a[i] < b[i])
  }

  lemma DiffersLater(a: string, b: string, i: nat)
    requires a != [] && b != [] && a[0] == b[0]
    ensures DiffersAt(a, b, i + 1) <==> DiffersAt(a[1..], b[1..], i)
    ensures !DiffersAt(a, b, 0)
  {
    if i <= |a[1..]| && i < |b[1..]| {
      assert a[..i + 1] == [a[0]] + a[1..][..i] && b[..i + 1] == [b[0]] + b[1..][..i];
    }
  }

  lemma DiffersAtOnce(a: string, b: string, i: nat)
    requires a != [] && b != [] && a[0] != b[0] && i > 0
    ensures !DiffersAt(a, b, i)
  {
    if i <= |a| && i < |b| {
      assert a[..i][0] == a[0] && b[..i][0] == b[0];
    }
  }

  /** The first byte that differs decides, and a proper prefix comes first. */
  lemma {:induction false} BelowExactly(a: string, b: string)
    ensures Below(a, b) <==> exists i: nat :: DiffersAt(a, b, i)
  {
    if a != [] && b != [] && a[0] == b[0] {
      BelowExactly(a[1..], b[1..]);
      forall i: nat
        ensures DiffersAt(a, b, i + 1) <==> DiffersAt(a[1..], b[1..], i)
        ensures !DiffersAt(a, b, 0)
      {
        DiffersLater(a, b, i);
      }
      hide DiffersAt;
      if Below(a, b) {
        var i: nat :| DiffersAt(a[1..], b[1..], i);
        assert DiffersAt(a, b, i + 1);
      } else {
        forall i: nat
          ensures !DiffersAt(a, b, i)
        {
          if i > 0 {
            assert !DiffersAt(a[1..], b[1..], i - 1);
          }
        }
      }
    } else if a != [] && b != [] {
      forall i: nat | i > 0
        ensures !DiffersAt(a, b, i)
      {
        DiffersAtOnce(a, b, i);
      }
      assert DiffersAt(a, b, 0) <==> a[0] < b[0];
    } else {
      assert DiffersAt(a, b, 0) <==> a == [] && b != [];
    }
  }

  lemma {:induction false} BelowIrreflexive(a: string)
    ensures !Below(a, a)
  {
    if a != [] {
      BelowIrreflexive(a[1..]);
    }
  }

  lemma {:induction false} BelowTransitive(a: string, b: string, c: string)
    requires Below(a, b) && Below(b, c)
    ensures Below(a, c)
  {
    if a != [] && a[0] == b[0] == c[0] {
      BelowTransitive(a[1..], b[1..], c[1..]);
    }
  }

  lemma {:induction false} BelowTotal(a: string, b: string)
    ensures a == b || Below(a, b) || Below(b, a)
  {
    if a != [] && b != [] && a[0] == b[0] {
      BelowTotal(a[1..], b[1..]);
      assert a == [a[0]] + a[1..] && b == [b[0]] + b[1..];
    }
  }

  /** A string is never before one of its prefixes. */
  lemma {:induction false} PrefixNotAbove(p: string, s: string)
    requires p <= s
    ensures !Below(s, p)
  {
    if p != [] {
      PrefixNotAbove(p[1..], s[1..]);
    }
  }

  /** The strings with a given prefix are an interval: nothing without it lies between two. */
  lemma {:induction false} PrefixInterval(p: string, s: string, t: string)
    requires !Below(s, p) && Below(s, t) && p <= t
    ensures p <= s
  {
    if p != [] {
      assert s != [] && t != [];
      assert p[0] == t[0];
      assert s[0] == p[0];
      PrefixInterval(p[1..], s[1..], t[1..]);
      assert p == [p[0]] + p[1..] && s == [s[0]] + s[1..];
    }
  }

  predicate Sorted(keys: seq<string>) {
    forall i, j | 0 <= i < j < |keys| :: Below(keys[i], keys[j])
  }

  lemma InsertedAt(keys: seq<string>, pos: nat, raw: string)
    requires Sorted(keys) && pos <= |keys| && raw !in keys
    requires forall i | 0 <= i < pos :: Below(keys[i], raw)
    requires forall i | pos <= i < |keys| :: !Below(keys[i], raw)
    ensures Sorted(keys[..pos] + [raw] + keys[pos..])
    ensures forall s :: s in keys[..pos] + [raw] + keys[pos..] <==> s in keys || s == raw
  {
    forall i | pos <= i < |keys| ensures Below(raw, keys[i]) {
      BelowTotal(raw, keys[i]);
    }
    hide Below;
    assert keys == keys[..pos] + keys[pos..];
  }

  lemma RemovedAt(keys: seq<string>, pos: nat)
    requires Sorted(keys) && pos < |keys|
    ensures Sorted(keys[..pos] + keys[pos + 1..])
    ensures forall s :: s in keys[..pos] + keys[pos + 1..] <==> s in keys && s != keys[pos]
  {
    assert keys == keys[..pos] + [keys[pos]] + keys[pos + 1..];
    BelowIrreflexive(keys[pos]);
  }

  lemma SoughtKey(keys: seq<string>, raw: string, pos: nat)
    requires Sorted(keys) && raw in keys && pos <= |keys|
    requires forall i | 0 <= i < pos :: Below(keys[i], raw)
    requires forall i | pos <= i < |keys| :: !Below(keys[i], raw)
    ensures pos < |keys| && keys[pos] == raw
  {
    BelowIrreflexive(raw);
    var at :| 0 <= at < |keys| && keys[at] == raw;
    assert pos <= at && !Below(keys[pos], keys[at]);
    assert pos == at;
  }

  /** Between the first key that is not before the prefix and the first one without it lie all
      the keys with the prefix. */
  lemma PrefixRun(keys: seq<string>, prefix: string, first: nat, end: nat, at: nat)
    requires Sorted(keys) && first <= end <= |keys| && at < |keys|
    requires forall i | 0 <= i < first :: Below(keys[i], prefix)
    requires forall i | first <= i < |keys| :: !Below(keys[i], prefix)
    requires forall i | first <= i < end :: prefix <= keys[i]
    requires end < |keys| ==> !(prefix <= keys[end])
    ensures prefix <= keys[at] <==> first <= at < end
  {
    if prefix <= keys[at] {
      PrefixNotAbove(prefix, keys[at]);
      if end < at {
        PrefixInterval(prefix, keys[end], keys[at]);
      }
    }
  }
}
