/** Direct wire encoding of values (`model/src/encode.rs`, `Emit for Value`): two
    passes, lengths first, writing exactly the Protocol Buffers encoding of the
    rebuilt wire tree, which decodes and validates back to the value. */
module ValueWire {
  import opened Bytes
  import opened Records
  import opened Values
  import opened ValueReading
  import VO = ValueOrder

  // --- The emitter ---

  function KeyLen(field: nat): nat { VarintLen(field * 8) }

  function EmitVarint(field: nat, n: u64): seq<byte> { KeyBytes(field, 0) + Varint(n) }

  function LenVarint(field: nat, n: u64): nat { KeyLen(field) + VarintLen(n) }

  function EmitDouble(field: nat, bits: u64): seq<byte> { KeyBytes(field, 1) + LE(bits, 8) }

  function LenDouble(field: nat): nat { KeyLen(field) + 8 }

  function EmitBlob(field: nat, s: seq<byte>): seq<byte> { KeyBytes(field, 2) + (Varint(|s|) + s) }

  function LenBlob(field: nat, s: seq<byte>): nat { KeyLen(field) + VarintLen(|s|) + |s| }

  /** A length-delimited field from a precomputed length and a body. */
  function Prefixed(field: nat, length: nat, body: seq<byte>): seq<byte> {
    KeyBytes(field, 2) + (Varint(length) + body)
  }

  function PrefixedLen(field: nat, length: nat): nat { KeyLen(field) + VarintLen(length) + length }

  function EmitTime(t: Timestamp): seq<byte> {
    EmitVarint(1, Unsigned64(t.seconds)) + EmitVarint(2, t.nanos)
  }

  function LenTime(t: Timestamp): nat {
    LenVarint(1, Unsigned64(t.seconds)) + LenVarint(2, t.nanos)
  }

  function EmitNumeric(n: NumericValue): seq<byte> {
    match n
    case Double(d) => EmitDouble(1, d)
    case Int(i) => EmitVarint(2, Zigzag(i))
    case Uint(u) => EmitVarint(3, u)
  }

  function LenNumeric(n: NumericValue): nat {
    match n
    case Double(d) => LenDouble(1)
    case Int(i) => LenVarint(2, Zigzag(i))
    case Uint(u) => LenVarint(3, u)
  }

  function Emit(v: Value): seq<byte>
    decreases v, 1
  {
    match v.repr
    case Null => KeyBytes(1, 2) + Varint(0)
    case Bool(b) => EmitVarint(2, if b then 1 else 0)
    case Int(i) => EmitVarint(3, Zigzag(i))
    case Uint(u) => EmitVarint(4, u)
    case Double(d) => EmitDouble(5, d)
    case Text(s) => EmitBlob(6, s)
    case Blob(s) => EmitBlob(7, s)
    case Time(t) => Prefixed(8, LenTime(t), EmitTime(t))
    case List(values) => Prefixed(9, ListLen(values), EmitList(values))
    case Map(entries) => EmitMapField(10, entries)
  }

  function Len(v: Value): nat
    decreases v, 1
  {
    match v.repr
    case Null => KeyLen(1) + 1
    case Bool(b) => LenVarint(2, if b then 1 else 0)
    case Int(i) => LenVarint(3, Zigzag(i))
    case Uint(u) => LenVarint(4, u)
    case Double(d) => LenDouble(5)
    case Text(s) => LenBlob(6, s)
    case Blob(s) => LenBlob(7, s)
    case Time(t) => PrefixedLen(8, LenTime(t))
    case List(values) => PrefixedLen(9, ListLen(values))
    case Map(entries) => MapFieldLen(10, entries)
  }

  function EmitList(values: seq<Value>): seq<byte>
    decreases values, 0
  {
    if values == [] then [] else
    Prefixed(1, Len(values[0]), Emit(values[0])) + EmitList(values[1..])
  }

  function ListLen(values: seq<Value>): nat
    decreases values, 0
  {
    if values == [] then 0 else PrefixedLen(1, Len(values[0])) + ListLen(values[1..])
  }

  function EntryLen(e: Entry): nat
    decreases e, 0
  {
    LenBlob(1, e.key) + PrefixedLen(2, Len(e.value))
  }

  function EmitEntry(e: Entry): seq<byte>
    decreases e, 0
  {
    EmitBlob(1, e.key) + Prefixed(2, Len(e.value), Emit(e.value))
  }

  function MapBodyLen(entries: seq<Entry>): nat
    decreases entries, 0
  {
    if entries == [] then 0 else PrefixedLen(1, EntryLen(entries[0])) + MapBodyLen(entries[1..])
  }

  function EmitMapBody(entries: seq<Entry>): seq<byte>
    decreases entries, 0
  {
    if entries == [] then [] else
    Prefixed(1, EntryLen(entries[0]), EmitEntry(entries[0])) + EmitMapBody(entries[1..])
  }

  function EmitMapField(field: nat, entries: seq<Entry>): seq<byte>
    decreases entries, 1
  {
    Prefixed(field, MapBodyLen(entries), EmitMapBody(entries))
  }

  function MapFieldLen(field: nat, entries: seq<Entry>): nat
    decreases entries, 1
  {
    PrefixedLen(field, MapBodyLen(entries))
  }

  // --- The wire tree as records: the specification encoder ---

  function TimeRecs(w: WTimestamp): seq<Rec> {
    (match w.seconds case None => [] case Some(s) => [Rec(1, VInt(Unsigned64(s)))]) +
    (match w.nanos case None => [] case Some(n) => [Rec(2, VInt(n))])
  }

  function NumericRecs(n: NumericValue): seq<Rec> {
    match n
    case Double(d) => [Rec(1, Fixed64(d))]
    case Int(i) => [Rec(2, VInt(Zigzag(i)))]
    case Uint(u) => [Rec(3, VInt(u))]
  }

  function ValueRecs(w: WValue): (rs: seq<Rec>)
    ensures forall r | r in rs :: r.field >= 1
    decreases w, 1
  {
    match w.kind
    case None => []
    case Some(WNull) => [Rec(1, Delimited([]))]
    case Some(WBool(b)) => [Rec(2, VInt(if b then 1 else 0))]
    case Some(WInt(i)) => [Rec(3, VInt(Zigzag(i)))]
    case Some(WUint(u)) => [Rec(4, VInt(u))]
    case Some(WDouble(bits)) => [Rec(5, Fixed64(bits))]
    case Some(WText(s)) => [Rec(6, Delimited(s))]
    case Some(WBlob(s)) => [Rec(7, Delimited(s))]
    case Some(WTime(t)) => [Rec(8, Delimited(Ser(TimeRecs(t))))]
    case Some(WList(ws)) => [Rec(9, Delimited(Ser(ListRecs(ws))))]
    case Some(WMap(ws)) => [Rec(10, Delimited(Ser(MapRecs(ws))))]
  }

  function ListRecs(ws: seq<WValue>): (rs: seq<Rec>)
    ensures forall r | r in rs :: r.field >= 1
    decreases ws, 0
  {
    if ws == [] then [] else [Rec(1, Delimited(Ser(ValueRecs(ws[0]))))] + ListRecs(ws[1..])
  }

  function EntryRecs(w: WEntry): (rs: seq<Rec>)
    ensures forall r | r in rs :: r.field >= 1
    decreases w, 0
  {
    (match w.key case None => [] case Some(k) => [Rec(1, Delimited(k))]) +
    (match w.value
     case None => []
     case Some(v) => assert v < w.value < w; [Rec(2, Delimited(Ser(ValueRecs(v))))])
  }

  function MapRecs(ws: seq<WEntry>): (rs: seq<Rec>)
    ensures forall r | r in rs :: r.field >= 1
    decreases ws, 0
  {
    if ws == [] then [] else [Rec(1, Delimited(Ser(EntryRecs(ws[0]))))] + MapRecs(ws[1..])
  }

  // --- Emitting is the specification encoding, of the announced length ---

  lemma EmitVarintExact(field: nat, n: u64)
    ensures EmitVarint(field, n) == RecSer(Rec(field, VInt(n)))
    ensures |EmitVarint(field, n)| == LenVarint(field, n)
  {
    KeyLenExact(field, 0);
    VarintLenExact(n);
  }

  lemma EmitDoubleExact(field: nat, bits: u64)
    ensures EmitDouble(field, bits) == RecSer(Rec(field, Fixed64(bits)))
    ensures |EmitDouble(field, bits)| == LenDouble(field)
  {
    KeyLenExact(field, 1);
  }

  lemma PrefixedExact(field: nat, body: seq<byte>)
    ensures Prefixed(field, |body|, body) == RecSer(Rec(field, Delimited(body)))
    ensures |Prefixed(field, |body|, body)| == PrefixedLen(field, |body|)
  {
    KeyLenExact(field, 2);
    VarintLenExact(|body|);
  }

  lemma EmitBlobExact(field: nat, s: seq<byte>)
    ensures EmitBlob(field, s) == RecSer(Rec(field, Delimited(s))) && |EmitBlob(field, s)| == LenBlob(field, s)
  {
    PrefixedExact(field, s);
  }

  lemma EmitNullExact()
    ensures KeyBytes(1, 2) + Varint(0) == RecSer(Rec(1, Delimited([])))
    ensures |KeyBytes(1, 2) + Varint(0)| == KeyLen(1) + 1
  {
    PrefixedExact(1, []);
    assert Varint(0) + [] == Varint(0);
  }

  lemma EmitTimeExact(t: Timestamp)
    ensures EmitTime(t) == Ser(TimeRecs(TimestampIntoWire(t))) && |EmitTime(t)| == LenTime(t)
  {
    var (a, b) := (Rec(1, VInt(Unsigned64(t.seconds))), Rec(2, VInt(t.nanos)));
    EmitVarintExact(1, Unsigned64(t.seconds));
    EmitVarintExact(2, t.nanos);
    assert TimeRecs(TimestampIntoWire(t)) == [a] + [b];
    SerConcat([a], [b]);
    SerOne(a);
    SerOne(b);
  }

  lemma EmitNumericExact(n: NumericValue)
    ensures EmitNumeric(n) == Ser(NumericRecs(n)) && |EmitNumeric(n)| == LenNumeric(n)
  {
    SerOne(NumericRecs(n)[0]);
    match n {
      case Double(d) => EmitDoubleExact(1, d);
      case Int(i) => EmitVarintExact(2, Zigzag(i));
      case Uint(u) => EmitVarintExact(3, u);
    }
  }

  lemma {:induction false} EmitExact(v: Value)
    ensures Emit(v) == Ser(ValueRecs(IntoWire(v))) && |Emit(v)| == Len(v)
    decreases v, 1
  {
    hide RecSer, Prefixed, PrefixedLen, EmitVarint, LenVarint, EmitDouble, EmitBlob, LenBlob, KeyBytes, KeyLen, Varint;
    hide EmitMapField, MapFieldLen, ListLen, EmitList, ListRecs, MapRecs, Ser, TimeRecs, ValuesIntoWire,
         EntriesIntoWire;
    SerOne(ValueRecs(IntoWire(v))[0]);
    match v.repr {
      case Null => EmitNullExact();
      case Bool(b) => EmitVarintExact(2, if b then 1 else 0);
      case Int(i) => EmitVarintExact(3, Zigzag(i));
      case Uint(u) => EmitVarintExact(4, u);
      case Double(d) => EmitDoubleExact(5, d);
      case Text(s) => EmitBlobExact(6, s);
      case Blob(s) => EmitBlobExact(7, s);
      case Time(t) =>
        EmitTimeExact(t);
        PrefixedExact(8, EmitTime(t));
      case List(values) => EmitListFieldExact(values);
      case Map(entries) => EmitMapFieldExact(10, entries);
    }
  }

  lemma EmitListFieldExact(values: seq<Value>)
    ensures Prefixed(9, ListLen(values), EmitList(values))
         == RecSer(Rec(9, Delimited(Ser(ListRecs(ValuesIntoWire(values))))))
    ensures |Prefixed(9, ListLen(values), EmitList(values))| == PrefixedLen(9, ListLen(values))
    decreases values, 1
  {
    EmitListExact(values);
    PrefixedExact(9, EmitList(values));
  }

  lemma EmitMapFieldExact(field: nat, entries: seq<Entry>)
    ensures EmitMapField(field, entries) == RecSer(Rec(field, Delimited(Ser(MapRecs(EntriesIntoWire(entries))))))
    ensures |EmitMapField(field, entries)| == MapFieldLen(field, entries)
    decreases entries, 1
  {
    EmitMapExact(entries);
    PrefixedExact(field, EmitMapBody(entries));
  }

  lemma {:induction false} EmitListExact(values: seq<Value>)
    ensures EmitList(values) == Ser(ListRecs(ValuesIntoWire(values))) && |EmitList(values)| == ListLen(values)
    decreases values, 0
  {
    if values != [] {
      EmitExact(values[0]);
      PrefixedExact(1, Emit(values[0]));
      EmitListExact(values[1..]);
      var ws := ValuesIntoWire(values);
      assert ws[1..] == ValuesIntoWire(values[1..]);
      ConsSer(Rec(1, Delimited(Emit(values[0]))), ListRecs(ws[1..]));
    }
  }

  lemma {:induction false} EmitEntryExact(e: Entry)
    ensures EmitEntry(e) == Ser(EntryRecs(WEntry(Some(e.key), Some(IntoWire(e.value)))))
    ensures |EmitEntry(e)| == EntryLen(e)
    decreases e, 0
  {
    EmitExact(e.value);
    EmitBlobExact(1, e.key);
    PrefixedExact(2, Emit(e.value));
    var (a, b) := (Rec(1, Delimited(e.key)), Rec(2, Delimited(Emit(e.value))));
    assert EntryRecs(WEntry(Some(e.key), Some(IntoWire(e.value)))) == [a] + [b];
    ConsSer(a, [b]);
    SerOne(b);
  }

  lemma {:induction false} EmitMapExact(entries: seq<Entry>)
    ensures EmitMapBody(entries) == Ser(MapRecs(EntriesIntoWire(entries)))
    ensures |EmitMapBody(entries)| == MapBodyLen(entries)
    decreases entries, 0
  {
    if entries != [] {
      EmitEntryExact(entries[0]);
      PrefixedExact(1, EmitEntry(entries[0]));
      EmitMapExact(entries[1..]);
      var ws := EntriesIntoWire(entries);
      assert ws[1..] == EntriesIntoWire(entries[1..]);
      ConsSer(Rec(1, Delimited(EmitEntry(entries[0]))), MapRecs(ws[1..]));
    }
  }

  // --- The bytes themselves ---

  /** The signed integers' zigzag form: twice the number, and odd below zero. */
  function ZigzagOf(i: i64): u64 { if i < 0 then -2 * i - 1 else 2 * i }

  function Lengthy(key: byte, body: seq<byte>): seq<byte> { [key] + Varint(|body|) + body }

  lemma KeyIsByte(field: nat, wireType: nat)
    requires field < 16 && wireType < 8
    ensures KeyBytes(field, wireType) == [field * 8 + wireType]
  {
  }

  lemma PrefixedIsLengthy(field: nat, body: seq<byte>)
    requires field < 16
    ensures Prefixed(field, |body|, body) == Lengthy(field * 8 + 2, body)
  {
    KeyIsByte(field, 2);
    Assoc([field * 8 + 2], Varint(|body|), body);
  }

  /** What each arm is on the wire, key and all: fields 1 to 10 of the schema's
      `Value`, signed integers zigzagged, doubles as their eight bytes, the rest
      length-delimited. */
  lemma EmitsLiterally(v: Value)
    ensures match v.repr
            case Null => Emit(v) == [0x0A, 0]
            case Bool(b) => Emit(v) == [0x10, if b then 1 else 0]
            case Int(i) => Emit(v) == [0x18] + Varint(ZigzagOf(i)) && (-64 <= i < 64 ==> Len(v) == 2)
            case Uint(u) => Emit(v) == [0x20] + Varint(u)
            case Double(d) => Emit(v) == [0x29] + LE(d, 8)
            case Text(s) => Emit(v) == Lengthy(0x32, s)
            case Blob(s) => Emit(v) == Lengthy(0x3A, s)
            case Time(t) => Emit(v) == Lengthy(0x42, EmitTime(t))
            case List(values) => Emit(v) == Lengthy(0x4A, EmitList(values))
            case Map(entries) => Emit(v) == Lengthy(0x52, EmitMapBody(entries))
  {
    hide Varint, KeyBytes, RecSer, Ser, Len, VarintLen;
    match v.repr {
      case Null =>
        KeyIsByte(1, 2);
        SmallVarint(0);
      case Bool(b) =>
        KeyIsByte(2, 0);
        SmallVarint(if b then 1 else 0);
      case Int(i) =>
        KeyIsByte(3, 0);
        EmitExact(v);
        if -64 <= i < 64 {
          SmallVarint(ZigzagOf(i));
        }
      case Uint(u) => KeyIsByte(4, 0);
      case Double(d) => KeyIsByte(5, 1);
      case Text(s) => PrefixedIsLengthy(6, s);
      case Blob(s) => PrefixedIsLengthy(7, s);
      case Time(t) =>
        EmitTimeExact(t);
        PrefixedIsLengthy(8, EmitTime(t));
      case List(values) =>
        EmitListExact(values);
        PrefixedIsLengthy(9, EmitList(values));
      case Map(entries) =>
        EmitMapExact(entries);
        PrefixedIsLengthy(10, EmitMapBody(entries));
    }
  }

  lemma SmallVarint(n: nat)
    requires n < 128
    ensures Varint(n) == [n]
  {
  }

  /** The parts of the delimited arms: an instant's seconds in two's complement and
      its nanos, a list's elements and a map's entries each delimited in turn. */
  lemma EmitsPartsLiterally(t: Timestamp, v: Value, values: seq<Value>, e: Entry, entries: seq<Entry>)
    ensures EmitTime(t) == [0x08] + Varint(t.seconds % TWO64) + ([0x10] + Varint(t.nanos))
    ensures EmitList([v] + values) == Lengthy(0x0A, Emit(v)) + EmitList(values) && EmitList([]) == []
    ensures EmitEntry(e) == Lengthy(0x0A, e.key) + Lengthy(0x12, Emit(e.value))
    ensures EmitMapBody([e] + entries) == Lengthy(0x0A, EmitEntry(e)) + EmitMapBody(entries) && EmitMapBody([]) == []
  {
    hide Varint, KeyBytes, RecSer, Ser, Emit, Len;
    TwosComplement(t.seconds, 0);
    KeyIsByte(1, 0);
    KeyIsByte(2, 0);
    EmitExact(v);
    EmitExact(e.value);
    EmitEntryExact(e);
    PrefixedIsLengthy(1, Emit(v));
    PrefixedIsLengthy(1, e.key);
    PrefixedIsLengthy(2, Emit(e.value));
    PrefixedIsLengthy(1, EmitEntry(e));
    assert ([v] + values)[1..] == values && ([e] + entries)[1..] == entries;
  }

  /** And of a numeric value's. */
  lemma EmitsNumericLiterally(n: NumericValue)
    ensures match n
            case Double(d) => EmitNumeric(n) == [0x09] + LE(d, 8)
            case Int(i) => EmitNumeric(n) == [0x10] + Varint(ZigzagOf(i)) && (-64 <= i < 64 ==> LenNumeric(n) == 2)
            case Uint(u) => EmitNumeric(n) == [0x18] + Varint(u)
  {
    hide Varint, KeyBytes, Ser, LenNumeric;
    EmitNumericExact(n);
    match n {
      case Double(d) => KeyIsByte(1, 1);
      case Int(i) =>
        KeyIsByte(2, 0);
        if -64 <= i < 64 {
          SmallVarint(ZigzagOf(i));
        }
      case Uint(u) => KeyIsByte(3, 0);
    }
  }

  /** The arm that the order ranks by and the content stream is labelled with is the
      field number the arm has on the wire. */
  lemma ArmIsWireField(v: Value, n: NumericValue)
    ensures |Emit(v)| > 0 && Emit(v)[0] / 8 == VO.Arm(v.repr)
    ensures |EmitNumeric(n)| > 0 && EmitNumeric(n)[0] / 8 == VO.NumericArm(n)
  {
    EmitsLiterally(v);
    EmitsNumericLiterally(n);
    hide Emit, EmitNumeric, Varint;
  }

  // --- Decoding: any field order, last value wins, unknown fields skipped ---

  function FoldTime(rs: seq<Rec>, acc: WTimestamp): Option<WTimestamp> {
    if rs == [] then Some(acc) else
    var (f, p) := (rs[0].field, rs[0].payload);
    if f != 1 && f != 2 then FoldTime(rs[1..], acc)
    else if !p.VInt? then None
    else if f == 1 then FoldTime(rs[1..], acc.(seconds := Some(Signed64(p.n))))
    else FoldTime(rs[1..], acc.(nanos := Some(p.n % 0x1_0000_0000)))
  }

  function DecodeTime(s: seq<byte>): Option<WTimestamp> {
    match ParseRecs(s)
    case None => None
    case Some(rs) => FoldTime(rs, WTimestamp(None, None))
  }

  function DecodeValue(s: seq<byte>): Option<WValue>
    decreases |s|, 1, 0
  {
    match ParseRecs(s)
    case None => None
    case Some(rs) => FoldKind(rs, |s|, None)
  }

  function FoldKind(rs: seq<Rec>, bound: nat, acc: Option<WKind>): Option<WValue>
    requires Within(rs, bound)
    decreases bound, 0, |rs|
  {
    if rs == [] then Some(WValue(acc)) else
    assert rs[0] in rs;
    if rs[0].field > 10 then FoldKind(rs[1..], bound, acc) else
    match DecodeKind(rs[0], bound)
    case None => None
    case Some(kind) => FoldKind(rs[1..], bound, Some(kind))
  }

  function DecodeKind(r: Rec, bound: nat): Option<WKind>
    requires r.payload.Delimited? ==> |r.payload.s| < bound
    decreases bound, 0, 0
  {
    match (r.field, r.payload)
    case (1, Delimited(s)) => if ParseRecs(s).Some? then Some(WNull) else None
    case (2, VInt(n)) => Some(WBool(n != 0))
    case (3, VInt(n)) => Some(WInt(Unzigzag(n)))
    case (4, VInt(n)) => Some(WUint(n))
    case (5, Fixed64(w)) => Some(WDouble(w))
    case (6, Delimited(s)) => Some(WText(s))
    case (7, Delimited(s)) => Some(WBlob(s))
    case (8, Delimited(s)) => (match DecodeTime(s) case None => None case Some(t) => Some(WTime(t)))
    case (9, Delimited(s)) =>
      (match ParseRecs(s)
       case None => None
       case Some(rs) => match FoldList(rs, |s|, []) case None => None case Some(ws) => Some(WList(ws)))
    case (10, Delimited(s)) => (match DecodeMap(s) case None => None case Some(ws) => Some(WMap(ws)))
    case _ => None
  }

  function FoldList(rs: seq<Rec>, bound: nat, acc: seq<WValue>): Option<seq<WValue>>
    requires Within(rs, bound)
    decreases bound, 0, |rs|
  {
    if rs == [] then Some(acc) else
    assert rs[0] in rs;
    if rs[0].field != 1 then FoldList(rs[1..], bound, acc)
    else if !rs[0].payload.Delimited? then None
    else
      match DecodeValue(rs[0].payload.s)
      case None => None
      case Some(w) => FoldList(rs[1..], bound, acc + [w])
  }

  function DecodeMap(s: seq<byte>): Option<seq<WEntry>>
    decreases |s|, 1, 0
  {
    match ParseRecs(s)
    case None => None
    case Some(rs) => FoldMap(rs, |s|, [])
  }

  function FoldMap(rs: seq<Rec>, bound: nat, acc: seq<WEntry>): Option<seq<WEntry>>
    requires Within(rs, bound)
    decreases bound, 0, |rs|
  {
    if rs == [] then Some(acc) else
    assert rs[0] in rs;
    if rs[0].field != 1 then FoldMap(rs[1..], bound, acc)
    else if !rs[0].payload.Delimited? then None
    else
      match ParseRecs(rs[0].payload.s)
      case None => None
      case Some(es) =>
        match FoldEntry(es, |rs[0].payload.s|, WEntry(None, None))
        case None => None
        case Some(w) => FoldMap(rs[1..], bound, acc + [w])
  }

  function FoldEntry(rs: seq<Rec>, bound: nat, acc: WEntry): Option<WEntry>
    requires Within(rs, bound)
    decreases bound, 0, |rs|
  {
    if rs == [] then Some(acc) else
    assert rs[0] in rs;
    var (f, p) := (rs[0].field, rs[0].payload);
    if f != 1 && f != 2 then FoldEntry(rs[1..], bound, acc)
    else if !p.Delimited? then None
    else if f == 1 then FoldEntry(rs[1..], bound, acc.(key := Some(p.s)))
    else
      match DecodeValue(p.s)
      case None => None
      case Some(w) => FoldEntry(rs[1..], bound, acc.(value := Some(w)))
  }

  // --- Decoding inverts the specification encoder on every wire tree ---

  lemma FoldNanos(n: u32, seconds: Option<i64>)
    ensures FoldTime([Rec(2, VInt(n))], WTimestamp(seconds, None)) == Some(WTimestamp(seconds, Some(n)))
  {
    var rs := [Rec(2, VInt(n))];
    assert rs[1..] == [];
    assert FoldTime([], WTimestamp(seconds, Some(n))) == Some(WTimestamp(seconds, Some(n)));
  }

  lemma DecodeTimeInverts(w: WTimestamp)
    ensures DecodeTime(Ser(TimeRecs(w))) == Some(w)
  {
    hide Ser, ParseRecs;
    var rs := TimeRecs(w);
    ParseSer(rs);
    var nanos := if w.nanos.Some? then [Rec(2, VInt(w.nanos.value))] else [];
    if w.nanos.Some? {
      FoldNanos(w.nanos.value, w.seconds);
    }
    if w.seconds.Some? {
      assert rs[0] == Rec(1, VInt(Unsigned64(w.seconds.value))) && rs[1..] == nanos;
      assert FoldTime(rs, WTimestamp(None, None)) == FoldTime(nanos, WTimestamp(w.seconds, None));
    } else {
      assert rs == nanos;
    }
  }

  lemma {:induction false} DecodeInverts(w: WValue)
    ensures DecodeValue(Ser(ValueRecs(w))) == Some(w)
    decreases w, 1
  {
    hide Ser, ParseRecs, DecodeKind;
    var rs := ValueRecs(w);
    ParseSer(rs);
    if w.kind.Some? {
      assert rs == [rs[0]] && rs[1..] == [];
      var (r, bound) := (rs[0], |Ser(rs)|);
      assert Within(rs, bound) && r in rs;
      DecodeKindInverts(w, bound);
      assert FoldKind([], bound, w.kind) == Some(w);
    }
  }

  lemma DecodeKindInverts(w: WValue, bound: nat)
    requires w.kind.Some? && Within(ValueRecs(w), bound)
    ensures ValueRecs(w)[0] in ValueRecs(w)
    ensures DecodeKind(ValueRecs(w)[0], bound) == w.kind
    decreases w, 0
  {
    hide Ser, ParseRecs, TimeRecs, ListRecs, MapRecs, DecodeTime, DecodeMap, FoldList, FoldKind;
    match w.kind.value {
      case WNull => assert ParseRecs([]).Some? by { ParseEmpty(); }
      case WTime(t) => DecodeTimeInverts(t);
      case WList(ws) =>
        ParseSer(ListRecs(ws));
        FoldListInverts(ws, |Ser(ListRecs(ws))|, []);
        assert [] + ws == ws;
      case WMap(ws) => DecodeMapInverts(ws);
      case _ =>
    }
  }

  lemma ParseEmpty()
    ensures ParseRecs([]) == Some([])
  {
  }

  lemma {:induction false} FoldListInverts(ws: seq<WValue>, bound: nat, acc: seq<WValue>)
    requires Within(ListRecs(ws), bound)
    ensures FoldList(ListRecs(ws), bound, acc) == Some(acc + ws)
    decreases ws, 0
  {
    hide Ser, ParseRecs, ValueRecs, DecodeValue, Within;
    if ws == [] {
      assert acc + ws == acc;
    } else {
      DecodeInverts(ws[0]);
      WithinTail(ListRecs(ws), bound);
      assert ListRecs(ws)[1..] == ListRecs(ws[1..]);
      FoldListInverts(ws[1..], bound, acc + [ws[0]]);
      assert (acc + [ws[0]]) + ws[1..] == acc + ws;
    }
  }

  lemma {:induction false} FoldEntryInverts(w: WEntry, bound: nat)
    requires Within(EntryRecs(w), bound)
    ensures FoldEntry(EntryRecs(w), bound, WEntry(None, None)) == Some(w)
    decreases w, 0
  {
    hide Ser, ParseRecs;
    var rs := EntryRecs(w);
    if w.value.Some? {
      assert w.value.value < w.value < w;
      DecodeInverts(w.value.value);
      var r := Rec(2, Delimited(Ser(ValueRecs(w.value.value))));
      assert r in rs;
      assert [r][1..] == [];
      assert FoldEntry([r], bound, WEntry(w.key, None)) == Some(w);
      if w.key.Some? {
        assert rs[1..] == [r];
      }
    } else if w.key.Some? {
      assert rs[1..] == [];
    }
  }

  lemma {:induction false} FoldMapInverts(ws: seq<WEntry>, bound: nat, acc: seq<WEntry>)
    requires Within(MapRecs(ws), bound)
    ensures FoldMap(MapRecs(ws), bound, acc) == Some(acc + ws)
    decreases ws, 0
  {
    hide Ser, ParseRecs, EntryRecs, FoldEntry, Within;
    if ws == [] {
      assert acc + ws == acc;
    } else {
      ParseSer(EntryRecs(ws[0]));
      FoldEntryInverts(ws[0], |Ser(EntryRecs(ws[0]))|);
      WithinTail(MapRecs(ws), bound);
      assert MapRecs(ws)[1..] == MapRecs(ws[1..]);
      FoldMapInverts(ws[1..], bound, acc + [ws[0]]);
      assert (acc + [ws[0]]) + ws[1..] == acc + ws;
    }
  }

  lemma DecodeMapInverts(ws: seq<WEntry>)
    ensures DecodeMap(Ser(MapRecs(ws))) == Some(ws)
    decreases ws, 1
  {
    ParseSer(MapRecs(ws));
    FoldMapInverts(ws, |Ser(MapRecs(ws))|, []);
    assert [] + ws == ws;
  }

  /** The round trip: the emitted bytes have the announced length, and decoding
      then validating them returns the value. */
  lemma RoundTrip(v: Value)
    requires Valid(v)
    ensures |Emit(v)| == Len(v)
    ensures Emit(v) == Ser(ValueRecs(IntoWire(v)))
    ensures DecodeValue(Emit(v)) == Some(IntoWire(v))
    ensures TryValue(IntoWire(v)) == Ok(v)
  {
    EmitExact(v);
    DecodeInverts(IntoWire(v));
    TryIntoWire(v);
  }
}
