/** The content-hash byte stream of a value (`Digest for Value`): a prefix-free
    code, so no two distinct values feed a hasher bytes that can be confused,
    whatever follows them. */
module ValueDigest {
  import opened Bytes
  import opened Values
  import opened ValueOrder

  function Tag(field: u32): seq<byte> { LE(field, 4) }

  function End(): seq<byte> { LE(0, 4) }

  function Count(n: u64): seq<byte> { LE(n, 8) }

  function BlobBytes(s: seq<byte>): seq<byte>
    requires |s| < TWO64
  {
    Count(|s|) + s
  }

  function BoolBytes(b: bool): seq<byte> { [if b then 1 else 0] }

  function TimeBytes(t: Timestamp): seq<byte> {
    Tag(1) + (LE(Unsigned64(t.seconds), 8) + (Tag(2) + (LE(t.nanos, 4) + End())))
  }

  function NumericBytes(n: NumericValue): seq<byte> {
    Tag(NumericArm(n)) +
    match n
    case Double(d) => LE(d, 8)
    case Int(i) => LE(Unsigned64(i), 8)
    case Uint(u) => LE(u, 8)
  }

  function ValueBytes(v: Value): seq<byte>
    requires Valid(v)
    decreases v, 1
  {
    Tag(Arm(v.repr)) + PayloadBytes(v)
  }

  function PayloadBytes(v: Value): seq<byte>
    requires Valid(v)
    decreases v, 0
  {
    match v.repr
    case Null => []
    case Bool(b) => BoolBytes(b)
    case Int(i) => LE(Unsigned64(i), 8)
    case Uint(u) => LE(u, 8)
    case Double(d) => LE(d, 8)
    case Text(s) => BlobBytes(s)
    case Blob(s) => BlobBytes(s)
    case Time(t) => TimeBytes(t)
    case List(values) => Count(|values|) + ValuesBytes(values)
    case Map(entries) => Count(|entries|) + EntriesBytes(entries)
  }

  function ValuesBytes(values: seq<Value>): seq<byte>
    requires forall x | x in values :: Valid(x)
    decreases values, 0
  {
    if values == [] then [] else ValueBytes(values[0]) + ValuesBytes(values[1..])
  }

  function EntriesBytes(entries: seq<Entry>): seq<byte>
    requires forall e | e in entries :: KeyOk(e.key) && Valid(e.value)
    decreases entries, 0
  {
    if entries == [] then [] else
    assert entries[0].value < entries[0] && KeyOk(entries[0].key);
    BlobBytes(entries[0].key) + (ValueBytes(entries[0].value) + EntriesBytes(entries[1..]))
  }

  /** A bare map field: count, then the sorted entries. */
  function MapBytes(entries: seq<Entry>): seq<byte>
    requires ValidMap(entries)
  {
    Count(|entries|) + EntriesBytes(entries)
  }

  // --- The bytes themselves ---

  lemma SmallTag(n: nat)
    requires n < 256
    ensures Tag(n) == [n, 0, 0, 0]
  {
    assert LE(0, 3) == [0, 0, 0] by {
      assert LE(0, 2) == [0, 0];
    }
  }

  /** Every value is labelled with its arm's field number and written at full width:
      two's complement integers, lengths and counts in eight bytes, an instant as a
      message closed by a zero. */
  lemma StreamsLiterally(v: Value)
    requires Valid(v)
    ensures match v.repr
            case Null => ValueBytes(v) == [1, 0, 0, 0]
            case Bool(b) => ValueBytes(v) == [2, 0, 0, 0] + [if b then 1 else 0]
            case Int(i) => ValueBytes(v) == [3, 0, 0, 0] + LE(i % TWO64, 8)
            case Uint(u) => ValueBytes(v) == [4, 0, 0, 0] + LE(u, 8)
            case Double(d) => ValueBytes(v) == [5, 0, 0, 0] + LE(d, 8)
            case Text(s) => ValueBytes(v) == [6, 0, 0, 0] + (LE(|s|, 8) + s)
            case Blob(s) => ValueBytes(v) == [7, 0, 0, 0] + (LE(|s|, 8) + s)
            case Time(t) => ValueBytes(v) == [8, 0, 0, 0] + TimeBytes(t)
            case List(values) => ValueBytes(v) == [9, 0, 0, 0] + (LE(|values|, 8) + ValuesBytes(values))
            case Map(entries) => ValueBytes(v) == [10, 0, 0, 0] + MapBytes(entries)
  {
    SmallTag(Arm(v.repr));
    hide LE, Tag;
    if v.repr.Int? {
      TwosComplement(v.repr.i, 0);
    }
  }

  lemma StreamsPartsLiterally(t: Timestamp, n: NumericValue, v: Value, values: seq<Value>, e: Entry, entries: seq<Entry>)
    requires Valid(v) && (forall x | x in values :: Valid(x))
    requires forall x | x in [e] + entries :: KeyOk(x.key) && Valid(x.value)
    ensures TimeBytes(t) == [1, 0, 0, 0] + (LE(t.seconds % TWO64, 8) + ([2, 0, 0, 0] + (LE(t.nanos, 4) + [0, 0, 0, 0])))
    ensures NumericBytes(n) == match n
                               case Double(d) => [1, 0, 0, 0] + LE(d, 8)
                               case Int(i) => [2, 0, 0, 0] + LE(i % TWO64, 8)
                               case Uint(u) => [3, 0, 0, 0] + LE(u, 8)
    ensures ValuesBytes([]) == [] && ValuesBytes([v] + values) == ValueBytes(v) + ValuesBytes(values)
    ensures e in [e] + entries && EntriesBytes([]) == []
    ensures forall x | x in entries :: x in [e] + entries
    ensures EntriesBytes([e] + entries)
            == (LE(|e.key|, 8) + e.key) + (ValueBytes(e.value) + EntriesBytes(entries))
  {
    SmallTag(1);
    SmallTag(2);
    SmallTag(3);
    SmallTag(0);
    hide LE, Tag, ValueBytes;
    TwosComplement(t.seconds, 0);
    if n.Int? {
      TwosComplement(n.i, 0);
    }
    assert ([v] + values)[1..] == values && ([e] + entries)[1..] == entries;
    assert e in [e] + entries;
    assert forall x | x in entries :: x in [e] + entries;
  }

  // --- Prefix-freeness ---

  lemma TagSplit(f: u32, x: seq<byte>, g: u32, y: seq<byte>)
    requires Tag(f) + x == Tag(g) + y
    ensures f == g && x == y
  {
    SplitStream(Tag(f), x, Tag(g), y);
    LE4Injective(f, g);
  }

  lemma CountSplit(n: u64, x: seq<byte>, m: u64, y: seq<byte>)
    requires Count(n) + x == Count(m) + y
    ensures n == m && x == y
  {
    SplitStream(Count(n), x, Count(m), y);
    LE8Injective(n, m);
  }

  lemma BlobSplit(a: seq<byte>, x: seq<byte>, b: seq<byte>, y: seq<byte>)
    requires |a| < TWO64 && |b| < TWO64
    requires BlobBytes(a) + x == BlobBytes(b) + y
    ensures a == b && x == y
  {
    Assoc(Count(|a|), a, x);
    Assoc(Count(|b|), b, y);
    CountSplit(|a|, a + x, |b|, b + y);
    SplitStream(a, x, b, y);
  }

  lemma TimeSplit(a: Timestamp, x: seq<byte>, b: Timestamp, y: seq<byte>)
    requires TimeBytes(a) + x == TimeBytes(b) + y
    ensures a == b && x == y
  {
    SplitStream(TimeBytes(a), x, TimeBytes(b), y);
    var (sa, sb) := (LE(Unsigned64(a.seconds), 8), LE(Unsigned64(b.seconds), 8));
    var (na, nb) := (LE(a.nanos, 4), LE(b.nanos, 4));
    TagSplit(1, sa + (Tag(2) + (na + End())), 1, sb + (Tag(2) + (nb + End())));
    SplitStream(sa, Tag(2) + (na + End()), sb, Tag(2) + (nb + End()));
    TagSplit(2, na + End(), 2, nb + End());
    SplitStream(na, End(), nb, End());
    LE8Injective(Unsigned64(a.seconds), Unsigned64(b.seconds));
    LE4Injective(a.nanos, b.nanos);
  }

  lemma Word64Split(n: u64, x: seq<byte>, m: u64, y: seq<byte>)
    requires LE(n, 8) + x == LE(m, 8) + y
    ensures n == m && x == y
  {
    SplitStream(LE(n, 8), x, LE(m, 8), y);
    LE8Injective(n, m);
  }

  lemma NumericSplit(a: NumericValue, x: seq<byte>, b: NumericValue, y: seq<byte>)
    requires NumericBytes(a) + x == NumericBytes(b) + y
    ensures a == b && x == y
  {
    var (pa, pb) := (NumericBytes(a)[4..], NumericBytes(b)[4..]);
    assert NumericBytes(a) + x == Tag(NumericArm(a)) + (pa + x);
    assert NumericBytes(b) + y == Tag(NumericArm(b)) + (pb + y);
    TagSplit(NumericArm(a), pa + x, NumericArm(b), pb + y);
    match (a, b) {
      case (Double(d), Double(e)) => Word64Split(d, x, e, y);
      case (Int(d), Int(e)) => Word64Split(Unsigned64(d), x, Unsigned64(e), y);
      case (Uint(d), Uint(e)) => Word64Split(d, x, e, y);
    }
  }

  lemma {:induction false} ValuePrefixFree(a: Value, x: seq<byte>, b: Value, y: seq<byte>)
    requires Valid(a) && Valid(b)
    requires ValueBytes(a) + x == ValueBytes(b) + y
    ensures a == b && x == y
    decreases a, 1
  {
    var (pa, pb) := (PayloadBytes(a), PayloadBytes(b));
    Assoc(Tag(Arm(a.repr)), pa, x);
    Assoc(Tag(Arm(b.repr)), pb, y);
    TagSplit(Arm(a.repr), pa + x, Arm(b.repr), pb + y);
    match (a.repr, b.repr) {
      case (Null, Null) => assert pa + x == x && pb + y == y;
      case (Bool(p), Bool(q)) => SplitStream(BoolBytes(p), x, BoolBytes(q), y);
      case (Int(p), Int(q)) => Word64Split(Unsigned64(p), x, Unsigned64(q), y);
      case (Uint(p), Uint(q)) => Word64Split(p, x, q, y);
      case (Double(p), Double(q)) => Word64Split(p, x, q, y);
      case (Text(p), Text(q)) => BlobSplit(p, x, q, y);
      case (Blob(p), Blob(q)) => BlobSplit(p, x, q, y);
      case (Time(p), Time(q)) => TimeSplit(p, x, q, y);
      case (List(p), List(q)) =>
        Assoc(Count(|p|), ValuesBytes(p), x);
        Assoc(Count(|q|), ValuesBytes(q), y);
        CountSplit(|p|, ValuesBytes(p) + x, |q|, ValuesBytes(q) + y);
        ValuesPrefixFree(p, x, q, y);
      case (Map(p), Map(q)) =>
        MapSplit(p, x, q, y);
    }
  }

  lemma {:induction false} ValuesPrefixFree(a: seq<Value>, x: seq<byte>, b: seq<Value>, y: seq<byte>)
    requires forall v | v in a :: Valid(v)
    requires forall v | v in b :: Valid(v)
    requires |a| == |b|
    requires ValuesBytes(a) + x == ValuesBytes(b) + y
    ensures a == b && x == y
    decreases a, 0
  {
    if a == [] {
      assert ValuesBytes(a) + x == x && ValuesBytes(b) + y == y;
    } else {
      var (ra, rb) := (ValuesBytes(a[1..]) + x, ValuesBytes(b[1..]) + y);
      Assoc(ValueBytes(a[0]), ValuesBytes(a[1..]), x);
      Assoc(ValueBytes(b[0]), ValuesBytes(b[1..]), y);
      ValuePrefixFree(a[0], ra, b[0], rb);
      ValuesPrefixFree(a[1..], x, b[1..], y);
      assert a == [a[0]] + a[1..] && b == [b[0]] + b[1..];
    }
  }

  lemma {:induction false} EntrySplit(a: seq<Entry>, x: seq<byte>, b: seq<Entry>, y: seq<byte>)
    requires forall e | e in a :: KeyOk(e.key) && Valid(e.value)
    requires forall e | e in b :: KeyOk(e.key) && Valid(e.value)
    requires a != [] && b != []
    requires EntriesBytes(a) + x == EntriesBytes(b) + y
    ensures a[0] == b[0] && EntriesBytes(a[1..]) + x == EntriesBytes(b[1..]) + y
    decreases a, 0
  {
    var (p, q) := (a[0], b[0]);
    assert p in a && q in b && p.value < p;
    var (ta, tb) := (EntriesBytes(a[1..]), EntriesBytes(b[1..]));
    Assoc(BlobBytes(p.key), ValueBytes(p.value) + ta, x);
    Assoc(BlobBytes(q.key), ValueBytes(q.value) + tb, y);
    Assoc(ValueBytes(p.value), ta, x);
    Assoc(ValueBytes(q.value), tb, y);
    BlobSplit(p.key, ValueBytes(p.value) + (ta + x), q.key, ValueBytes(q.value) + (tb + y));
    ValuePrefixFree(p.value, ta + x, q.value, tb + y);
  }

  lemma {:induction false} EntriesPrefixFree(a: seq<Entry>, x: seq<byte>, b: seq<Entry>, y: seq<byte>)
    requires forall e | e in a :: KeyOk(e.key) && Valid(e.value)
    requires forall e | e in b :: KeyOk(e.key) && Valid(e.value)
    requires |a| == |b|
    requires EntriesBytes(a) + x == EntriesBytes(b) + y
    ensures a == b && x == y
    decreases a, 1
  {
    if a == [] {
      assert EntriesBytes(a) + x == x && EntriesBytes(b) + y == y;
    } else {
      EntrySplit(a, x, b, y);
      EntriesPrefixFree(a[1..], x, b[1..], y);
      assert a == [a[0]] + a[1..] && b == [b[0]] + b[1..];
    }
  }

  lemma MapSplit(a: seq<Entry>, x: seq<byte>, b: seq<Entry>, y: seq<byte>)
    requires ValidMap(a) && ValidMap(b)
    requires MapBytes(a) + x == MapBytes(b) + y
    ensures a == b && x == y
    decreases a, 2
  {
    Assoc(Count(|a|), EntriesBytes(a), x);
    Assoc(Count(|b|), EntriesBytes(b), y);
    CountSplit(|a|, EntriesBytes(a) + x, |b|, EntriesBytes(b) + y);
    EntriesPrefixFree(a, x, b, y);
  }
}
