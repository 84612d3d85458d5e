/** Keys and fingerprints: digests of length-prefixed field lists. */
module Hashing {
  import opened Domain

  /** A byte string held in memory; its length fits in a u64. */
  type Field = b: Bytes | |b| <= U64_MAX

  /** The last `width` bytes of `n`, most significant first. */
  function BigEndian(n: nat, width: nat): (b: Bytes)
    ensures |b| == width
  {
    if width == 0 then [] else BigEndian(n / 256, width - 1) + [n % 256]
  }

  function Power256(width: nat): nat {
    if width == 0 then 1 else 256 * Power256(width - 1)
  }

  lemma {:induction false} BigEndianIsInjective(m: nat, n: nat, width: nat)
    requires m < Power256(width) && n < Power256(width)
    requires BigEndian(m, width) == BigEndian(n, width)
    ensures m == n
  {
    if width == 0 {
    } else {
      var x, y := BigEndian(m / 256, width - 1), BigEndian(n / 256, width - 1);
      assert (x + [m % 256])[..width - 1] == x && (y + [n % 256])[..width - 1] == y;
      assert (x + [m % 256])[width - 1] == m % 256 && (y + [n % 256])[width - 1] == n % 256;
      BigEndianIsInjective(m / 256, n / 256, width - 1);
    }
  }

  function Ascii(s: string): (b: Bytes)
    requires forall c | c in s :: c < 128 as char
    ensures |b| == |s|
  {
    seq(|s|, i requires 0 <= i < |s| && s[i] in s => Code(s[i]))
  }

  function Code(c: char): Byte
    requires c < 128 as char
  {
    c as int
  }

  /** A field on the wire: its length as eight bytes, then its bytes. */
  function Record(field: Field): Bytes {
    BigEndian(|field|, 8) + field
  }

  /** What hashing a list of fields feeds to the digest. */
  function Encoding(fields: seq<Field>): Bytes {
    if fields == [] then [] else Encoding(fields[..|fields| - 1]) + Record(fields[|fields| - 1])
  }

  lemma {:induction false} EncodingFirst(fields: seq<Field>)
    requires fields != []
    ensures Encoding(fields) == Record(fields[0]) + Encoding(fields[1..])
  {
    var last := |fields| - 1;
    if last == 0 {
      assert fields[..0] == [] && fields[1..] == [];
    } else {
      EncodingFirst(fields[..last]);
      assert fields[..last][1..] == fields[1..][..last - 1] && fields[1..][last - 1] == fields[last];
      var first, middle, end := Record(fields[0]), Encoding(fields[1..][..last - 1]), Record(fields[last]);
      assert Encoding(fields) == (first + middle) + end;
      assert Encoding(fields[1..]) == middle + end;
      Associate(first, middle, end);
    }
  }

  lemma Associate(a: Bytes, b: Bytes, c: Bytes)
    ensures (a + b) + c == a + (b + c)
  {
  }

  lemma EncodingNext(fields: seq<Field>, k: nat)
    requires k < |fields|
    ensures Encoding(fields[..k + 1]) == Encoding(fields[..k]) + Record(fields[k])
  {
    assert fields[..k + 1][..k] == fields[..k];
  }

  /** Length prefixes keep field boundaries: no two lists of fields, of whatever lengths, hash the same bytes. */
  lemma {:induction false} EncodingIsInjective(a: seq<Field>, b: seq<Field>)
    requires Encoding(a) == Encoding(b)
    ensures a == b
  {
    if a != [] { EncodingFirst(a); }
    if b != [] { EncodingFirst(b); }
    if a != [] && b != [] {
      RecordComesOff(a[0], Encoding(a[1..]));
      RecordComesOff(b[0], Encoding(b[1..]));
      assert Power256(4) == 0x1_0000_0000 && Power256(8) == U64_MAX + 1;
      BigEndianIsInjective(|a[0]|, |b[0]|, 8);
      EncodingIsInjective(a[1..], b[1..]);
      assert a == [a[0]] + a[1..] && b == [b[0]] + b[1..];
    }
  }

  lemma RecordComesOff(field: Field, rest: Bytes)
    ensures var whole, n := Record(field) + rest, |field|;
            |whole| >= 8 + n && whole[..8] == BigEndian(n, 8) && whole[8..8 + n] == field && whole[8 + n..] == rest
  {
  }

  function Hashed(domain: Bytes, fields: seq<Field>): Digest {
    Digest(domain + Encoding(fields))
  }

  lemma HashedIsInjective(domain: Bytes, a: seq<Field>, b: seq<Field>)
    ensures Hashed(domain, a) == Hashed(domain, b) <==> a == b
  {
    if Hashed(domain, a) == Hashed(domain, b) {
      assert (domain + Encoding(a))[|domain|..] == Encoding(a);
      assert (domain + Encoding(b))[|domain|..] == Encoding(b);
      EncodingIsInjective(a, b);
    }
  }

  /** The running hash; what it was fed is a domain prefix followed by length-prefixed fields. */
  class Hasher {
    var input: Bytes
    ghost const domain: Bytes
    ghost var fields: seq<Field>

    ghost predicate Valid()
      reads this
    {
      input == domain + Encoding(fields)
    }

    constructor (domain: Bytes)
      ensures Valid() && this.domain == domain && fields == []
    {
      input := domain;
      this.domain, fields := domain, [];
    }

    method HashField(value: Field)
      requires Valid()
      modifies this
      ensures Valid() && fields == old(fields) + [value]
    {
      EncodingNext(fields + [value], |fields|);
      assert (fields + [value])[..|fields|] == fields && (fields + [value])[..|fields| + 1] == fields + [value];
      input := input + BigEndian(|value|, 8);
      input := input + value;
      assert old(input) + BigEndian(|value|, 8) + value == old(input) + Record(value);
      fields := fields + [value];
    }

    method Finalize() returns (digest: Digest)
      requires Valid()
      ensures digest == Hashed(domain, fields)
    {
      return Digest(input);
    }
  }

  datatype Scope = Source | Target | Remote {
    function Directory(): Bytes {
      match this
      case Source => Ascii("source")
      case Target => Ascii("target")
      case Remote => Ascii("remote")
    }
  }

  datatype LockKey = LockKey(scope: Scope, digest: Digest)

  const LOCK_DOMAIN := Ascii("reprodb-operation-lock-v1")
  const STATE_DOMAIN := Ascii("reprodb-restore-state-v1")
  const PROFILE_DOMAIN := Ascii("reprodb-source-profile-v1")

  function KeyOf(scope: Scope, fields: seq<Field>): LockKey {
    LockKey(scope, Hashed(LOCK_DOMAIN, [scope.Directory()] + fields))
  }

  /** The key of an operation lock, field by field. */
  method NewKey(scope: Scope, fields: seq<Field>) returns (key: LockKey)
    ensures key == KeyOf(scope, fields)
  {
    var hasher := new Hasher(LOCK_DOMAIN);
    hasher.HashField(scope.Directory());
    for k := 0 to |fields|
      invariant hasher.Valid() && hasher.domain == LOCK_DOMAIN && fresh(hasher)
      invariant hasher.fields == [scope.Directory()] + fields[..k]
    {
      hasher.HashField(fields[k]);
    }
    assert fields[..|fields|] == fields;
    var digest := hasher.Finalize();
    return LockKey(scope, digest);
  }

  datatype LocalTarget = LocalTarget(dockerContext: Field, containerId: Field, database: Field) {
    function Fields(): seq<Field> {
      [dockerContext, containerId, database]
    }
  }

  function TargetLock(target: LocalTarget): LockKey {
    KeyOf(Target, target.Fields())
  }

  function RestoreStateKey(target: LocalTarget): Digest {
    Hashed(STATE_DOMAIN, target.Fields())
  }

  /** The name of a target's restore-state file. */
  method TargetDigest(target: LocalTarget) returns (digest: Digest)
    ensures digest == RestoreStateKey(target)
  {
    var hasher := new Hasher(STATE_DOMAIN);
    var values := target.Fields();
    for k := 0 to |values|
      invariant hasher.Valid() && hasher.domain == STATE_DOMAIN && fresh(hasher)
      invariant hasher.fields == values[..k]
    {
      hasher.HashField(values[k]);
    }
    assert values[..|values|] == values;
    digest := hasher.Finalize();
  }

  /** Two operations contend for one lock exactly when their scope and every field agree. */
  lemma LocksCoincideExactlyWhen(scope: Scope, fields: seq<Field>, scope': Scope, fields': seq<Field>)
    ensures KeyOf(scope, fields) == KeyOf(scope', fields') <==> scope == scope' && fields == fields'
    ensures KeyOf(scope, fields).digest == KeyOf(scope', fields').digest <==> scope == scope' && fields == fields'
  {
    var a: seq<Field>, b: seq<Field> := [scope.Directory()] + fields, [scope'.Directory()] + fields';
    HashedIsInjective(LOCK_DOMAIN, a, b);
    assert a[0] == scope.Directory() && b[0] == scope'.Directory() && a[1..] == fields && b[1..] == fields';
    assert Source.Directory()[0] != Target.Directory()[0] && Target.Directory()[0] != Remote.Directory()[0];
    assert Source.Directory()[0] != Remote.Directory()[0];
  }

  /** Two targets share a restore-state file exactly when they share the target lock: the lock covers the file. */
  lemma StateFileIsCoveredByLock(a: LocalTarget, b: LocalTarget)
    ensures RestoreStateKey(a) == RestoreStateKey(b) <==> TargetLock(a) == TargetLock(b)
    ensures TargetLock(a) == TargetLock(b) <==> a == b
  {
    HashedIsInjective(STATE_DOMAIN, a.Fields(), b.Fields());
    LocksCoincideExactlyWhen(Target, a.Fields(), Target, b.Fields());
    assert a.Fields() == b.Fields() ==>
             a.Fields()[0] == b.Fields()[0] && a.Fields()[1] == b.Fields()[1] && a.Fields()[2] == b.Fields()[2];
  }

  datatype TlsMode = Disabled | Preferred | Required | VerifyCa | VerifyIdentity {
    function OptionValue(): (b: Bytes)
      ensures 8 <= |b| <= 15
    {
      match this
      case Disabled => Ascii("DISABLED")
      case Preferred => Ascii("PREFERRED")
      case Required => Ascii("REQUIRED")
      case VerifyCa => Ascii("VERIFY_CA")
      case VerifyIdentity => Ascii("VERIFY_IDENTITY")
    }
  }

  type Port = n: int | 0 <= n < 0x1_0000

  /** The tracked fields of a source profile; the credential key and push settings are not among them. */
  datatype SourceProfile = SourceProfile(
    name: Field, host: Field, port: Port, username: Field, mysqlSeries: Field, tlsMode: TlsMode,
    image: Field, production: bool)
  {
    function Fields(): seq<Field> {
      [ name, host, BigEndian(port, 2), username, Ascii("mysql"), mysqlSeries, tlsMode.OptionValue(), image,
        [if production then 1 else 0]]
    }
  }

  function Fingerprint(profile: SourceProfile): Digest {
    Hashed(PROFILE_DOMAIN, profile.Fields())
  }

  method SourceProfileFingerprint(profile: SourceProfile) returns (digest: Digest)
    ensures digest == Fingerprint(profile)
  {
    hide Encoding, Ascii, BigEndian, Record;
    var hasher := new Hasher(PROFILE_DOMAIN);
    assert PROFILE_DOMAIN == hasher.domain;
    hasher.HashField(profile.name);
    hasher.HashField(profile.host);
    hasher.HashField(BigEndian(profile.port, 2));
    hasher.HashField(profile.username);
    assert hasher.fields == [profile.name, profile.host, BigEndian(profile.port, 2), profile.username];
    hasher.HashField(Ascii("mysql"));
    hasher.HashField(profile.mysqlSeries);
    hasher.HashField(profile.tlsMode.OptionValue());
    hasher.HashField(profile.image);
    hasher.HashField([if profile.production then 1 else 0]);
    assert hasher.fields == profile.Fields();
    digest := hasher.Finalize();
  }

  /** A fingerprint identifies a profile's tracked fields. */
  lemma FingerprintsCoincideExactlyWhen(p: SourceProfile, q: SourceProfile)
    ensures Fingerprint(p) == Fingerprint(q) <==> p == q
  {
    HashedIsInjective(PROFILE_DOMAIN, p.Fields(), q.Fields());
    if p.Fields() == q.Fields() {
      var a, b := p.Fields(), q.Fields();
      assert a[0] == b[0] && a[1] == b[1] && a[2] == b[2] && a[3] == b[3] && a[5] == b[5] && a[6] == b[6]
             && a[7] == b[7] && a[8] == b[8];
      assert Power256(2) == 0x1_0000;
      BigEndianIsInjective(p.port, q.port, 2);
      TlsOptionsDiffer(p.tlsMode, q.tlsMode);
      assert a[8][0] == b[8][0];
    }
  }

  lemma TlsOptionsDiffer(a: TlsMode, b: TlsMode)
    ensures a.OptionValue() == b.OptionValue() <==> a == b
  {
    assert |a.OptionValue()| == (match a case VerifyIdentity => 15 case VerifyCa => 9 case Preferred => 9 case _ => 8);
    assert |b.OptionValue()| == (match b case VerifyIdentity => 15 case VerifyCa => 9 case Preferred => 9 case _ => 8);
    assert a.OptionValue()[0] == (match a case Disabled => 68 case Preferred => 80 case Required => 82 case _ => 86);
    assert b.OptionValue()[0] == (match b case Disabled => 68 case Preferred => 80 case Required => 82 case _ => 86);
  }

  /** The three kinds of digest never meet, whatever their fields. */
  lemma DomainsAreSeparate(key: seq<Field>, state: seq<Field>, profile: seq<Field>)
    ensures Hashed(LOCK_DOMAIN, key) != Hashed(STATE_DOMAIN, state)
    ensures Hashed(LOCK_DOMAIN, key) != Hashed(PROFILE_DOMAIN, profile)
    ensures Hashed(STATE_DOMAIN, state) != Hashed(PROFILE_DOMAIN, profile)
  {
    assert (LOCK_DOMAIN + Encoding(key))[8] == LOCK_DOMAIN[8] == 'o' as int;
    assert (STATE_DOMAIN + Encoding(state))[8] == STATE_DOMAIN[8] == 'r' as int;
    assert (PROFILE_DOMAIN + Encoding(profile))[8] == PROFILE_DOMAIN[8] == 's' as int;
  }
}
