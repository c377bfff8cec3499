/** The store keys that `host_calls.rs` keeps datasets under. */
module DatasetKeys {
  import opened Bytes
  import opened Seqs
  import Payload
  import Utf8

  /** "dataset/" */
  const ROOT: bytes := [
    'd' as int, 'a' as int, 't' as int, 'a' as int, 's' as int, 'e' as int, 't' as int, '/' as int]

  const SLASH: bytes := ['/' as int]

  datatype Name = SourceName(id: bytes) | QueryName(id: bytes) | SnapshotName(id: bytes, revision: nat) | BatchName(source: bytes, id: bytes)

  /** "source/", "query/", "snapshot/", "batch/" */
  function Family(name: Name): bytes {
    match name
    case SourceName(_) => ['s' as int, 'o' as int, 'u' as int, 'r' as int, 'c' as int, 'e' as int, '/' as int]
    case QueryName(_) => ['q' as int, 'u' as int, 'e' as int, 'r' as int, 'y' as int, '/' as int]
    case SnapshotName(_, _) =>
      ['s' as int, 'n' as int, 'a' as int, 'p' as int, 's' as int, 'h' as int, 'o' as int, 't' as int, '/' as int]
    case BatchName(_, _) => ['b' as int, 'a' as int, 't' as int, 'c' as int, 'h' as int, '/' as int]
  }

  function HexDigit(n: nat): (d: byte)
    requires n < 16
    ensures 0x30 <= d < 0x80
  {
    if n < 10 then '0' as int + n else 'a' as int + (n - 10)
  }

  /** Two lower-case hexadecimal digits for each byte. */
  function Hex(s: bytes): bytes {
    if s == [] then [] else [HexDigit(s[0] / 16), HexDigit(s[0] % 16)] + Hex(s[1..])
  }

  function Decimal(n: nat): bytes {
    if n < 10 then ['0' as int + n] else Decimal(n / 10) + ['0' as int + n % 10]
  }

  function Suffix(name: Name): bytes {
    match name
    case SourceName(id) => Hex(id)
    case QueryName(id) => Hex(id)
    case SnapshotName(id, revision) => Hex(id) + (SLASH + Decimal(revision))
    case BatchName(source, id) => Hex(source) + (SLASH + Hex(id))
  }

  function KeyOf(name: Name): bytes { ROOT + (Family(name) + Suffix(name)) }

  /** What `dataset_apply` scans for the registered queries. */
  const QUERIES: bytes := ROOT + ['q' as int, 'u' as int, 'e' as int, 'r' as int, 'y' as int, '/' as int]

  // ----- keys are ASCII without NUL, and name one thing

  predicate Plain(s: bytes) { forall i :: 0 <= i < |s| ==> 0x30 <= s[i] < 0x80 }

  lemma {:induction false} HexPlain(s: bytes)
    ensures Plain(Hex(s))
  {
    if s != [] {
      HexPlain(s[1..]);
    }
  }

  lemma {:induction false} DecimalPlain(n: nat)
    ensures Plain(Decimal(n)) && Decimal(n) != []
  {
    if n >= 10 {
      DecimalPlain(n / 10);
    }
  }

  lemma {:induction false} HexInjective(a: bytes, b: bytes)
    requires Hex(a) == Hex(b)
    ensures a == b
    decreases |a|
  {
    if a != [] && b != [] {
      var (p, q) := ([HexDigit(a[0] / 16), HexDigit(a[0] % 16)], [HexDigit(b[0] / 16), HexDigit(b[0] % 16)]);
      Peel(p, Hex(a[1..]));
      Peel(q, Hex(b[1..]));
      assert p == Hex(a)[..2] == Hex(b)[..2] == q;
      assert p[0] == q[0] && p[1] == q[1];
      HexInjective(a[1..], b[1..]);
      assert a == [a[0]] + a[1..] && b == [b[0]] + b[1..];
    }
  }

  lemma {:induction false} DecimalInjective(a: nat, b: nat)
    requires Decimal(a) == Decimal(b)
    ensures a == b
  {
    DecimalLong(a);
    DecimalLong(b);
    if a >= 10 && b >= 10 {
      var (p, q) := (['0' as int + a % 10], ['0' as int + b % 10]);
      Peel(Decimal(a / 10), p);
      Peel(Decimal(b / 10), q);
      assert |Decimal(a / 10)| == |Decimal(b / 10)|;
      assert p[0] == q[0];
      DecimalInjective(a / 10, b / 10);
    } else if a < 10 && b < 10 {
      assert Decimal(a)[0] == Decimal(b)[0];
    }
  }

  lemma DecimalLong(n: nat)
    ensures n >= 10 <==> |Decimal(n)| > 1
  {
    if n >= 10 {
      DecimalPlain(n / 10);
    }
  }

  lemma {:induction false} SplitAtSlash(a: bytes, x: bytes, b: bytes, y: bytes)
    requires Plain(a) && Plain(b) && a + (SLASH + x) == b + (SLASH + y)
    ensures a == b && x == y
  {
    var s := a + (SLASH + x);
    assert s[|a|] == '/' as int && s[|b|] == '/' as int;
    assert forall i :: 0 <= i < |a| ==> s[i] == a[i] != '/' as int;
    assert forall i :: 0 <= i < |b| ==> s[i] == b[i] != '/' as int;
    Peel(a, SLASH + x);
    Peel(b, SLASH + y);
    Peel(SLASH, x);
    Peel(SLASH, y);
  }

  lemma FamilyFirst(a: Name, b: Name)
    requires Family(a) + Suffix(a) == Family(b) + Suffix(b)
    ensures Family(a) == Family(b) && Suffix(a) == Suffix(b)
    ensures a.SourceName? == b.SourceName? && a.QueryName? == b.QueryName? && a.SnapshotName? == b.SnapshotName?
  {
    hide Suffix;
    var s := Family(a) + Suffix(a);
    assert s[0] == Family(a)[0] == Family(b)[0];
    assert s[1] == Family(a)[1] == Family(b)[1];
    Peel(Family(a), Suffix(a));
    Peel(Family(b), Suffix(b));
  }

  /** A key names one source, query, snapshot or batch. */
  lemma KeyInjective(a: Name, b: Name)
    requires KeyOf(a) == KeyOf(b)
    ensures a == b
  {
    hide ROOT, Hex, Decimal, Family, Plain;
    Peel(ROOT, Family(a) + Suffix(a));
    Peel(ROOT, Family(b) + Suffix(b));
    FamilyFirst(a, b);
    match a {
      case SourceName(id) => HexInjective(id, b.id);
      case QueryName(id) => HexInjective(id, b.id);
      case SnapshotName(id, revision) =>
        HexPlain(id);
        HexPlain(b.id);
        SplitAtSlash(Hex(id), Decimal(revision), Hex(b.id), Decimal(b.revision));
        HexInjective(id, b.id);
        DecimalInjective(revision, b.revision);
      case BatchName(source, id) =>
        HexPlain(source);
        HexPlain(b.source);
        SplitAtSlash(Hex(source), Hex(id), Hex(b.source), Hex(b.id));
        HexInjective(source, b.source);
        HexInjective(id, b.id);
    }
  }

  lemma Keys()
    ensures forall a, b {:trigger KeyOf(a), KeyOf(b)} :: KeyOf(a) == KeyOf(b) ==> a == b
    ensures forall a :: ROOT <= KeyOf(a)
  {
    hide KeyOf, ROOT;
    forall a, b | KeyOf(a) == KeyOf(b) ensures a == b {
      KeyInjective(a, b);
    }
    forall a ensures ROOT <= KeyOf(a) {
      KeyOwned(a);
    }
  }

  lemma KeyOwned(name: Name)
    ensures ROOT <= KeyOf(name)
  {
    hide ROOT;
  }

  lemma QueryKeys(id: bytes)
    ensures QUERIES <= KeyOf(QueryName(id))
  {
    hide ROOT, Hex;
    Assoc(ROOT, Family(QueryName(id)), Hex(id));
  }

  predicate Printed(s: bytes) { forall i :: 0 <= i < |s| ==> 0 < s[i] < 0x80 }

  lemma KeyPrinted(name: Name)
    ensures Printed(KeyOf(name)) && KeyOf(name) != []
  {
    assert Printed(ROOT) && ROOT != [] && Printed(Family(name)) && Printed(SLASH);
    hide ROOT, Family, Hex, Decimal;
    SuffixPrinted(name);
  }

  lemma SuffixPrinted(name: Name)
    ensures Printed(Suffix(name))
  {
    hide Hex, Decimal;
    match name {
      case SourceName(id) => HexPlain(id);
      case QueryName(id) => HexPlain(id);
      case SnapshotName(id, revision) => HexPlain(id); DecimalPlain(revision);
      case BatchName(source, id) => HexPlain(source); HexPlain(id);
    }
  }

  lemma KeyWritable(name: Name)
    ensures KeyOf(name) != [] && Utf8.Valid(KeyOf(name)) && Payload.NulFree(KeyOf(name))
  {
    hide KeyOf, Utf8.Valid;
    KeyPrinted(name);
    Utf8.AsciiValid(KeyOf(name));
  }
}
