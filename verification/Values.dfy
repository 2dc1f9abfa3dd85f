/** The validated value vocabulary (`model/src/value.rs`): the recursive `Value`
    with its cached depth, the checked constructors, and the conversion from and
    to the wire tree. */
module Values {
  import opened Bytes
  import opened Orders
  import F = Finites

  const MAX_TEXT := 4096
  const MAX_BLOB := 4096
  const MAX_ITEMS := 1024
  const MAX_ENTRIES := 1024
  const MAX_KEY := 256
  const MAX_DEPTH := 16
  const NANOS_PER_SECOND := 1_000_000_000

  datatype Violation = Absent | Empty | TooLong | TooMany | NotFinite | Unspecified | Duplicate | TooDeep | Rule

  datatype Result<+T> = Ok(value: T) | Err(violation: Violation) {
    predicate IsFailure() { Err? }
    function PropagateFailure<U>(): Result<U> requires Err? { Err(violation) }
    function Extract(): T requires Ok? { value }
  }

  // --- Validated forms ---

  datatype Timestamp = Timestamp(seconds: i64, nanos: u32)

  datatype NumericValue = Double(d: F.Finite) | Int(i: i64) | Uint(u: u64)

  /** A value caches its nesting depth beside its content. */
  datatype Value = Value(repr: Repr, depth: nat)

  datatype Repr =
    | Null
    | Bool(b: bool)
    | Int(i: i64)
    | Uint(u: u64)
    | Double(d: F.Finite)
    | Text(text: seq<byte>)
    | Blob(blob: seq<byte>)
    | Time(t: Timestamp)
    | List(values: seq<Value>)
    | Map(entries: seq<Entry>)

  /** A map is its key-sorted entry sequence, as a `BTreeMap` iterates. */
  datatype Entry = Entry(key: seq<byte>, value: Value)

  predicate KeyOk(key: seq<byte>) { 0 < |key| <= MAX_KEY }

  predicate SortedKeys(entries: seq<Entry>) {
    forall i, j | 0 <= i < j < |entries| :: CmpInts(entries[i].key, entries[j].key) == Less
  }

  /** True nesting: a scalar is 1, a container one more than its deepest child. */
  function Nesting(v: Value): (n: nat)
    ensures n >= 1
    decreases v, 1
  {
    match v.repr
    case List(values) => 1 + DeepestValue(values)
    case Map(entries) => 1 + DeepestEntry(entries)
    case _ => 1
  }

  function Max(a: nat, b: nat): nat { if a < b then b else a }

  function DeepestValue(values: seq<Value>): nat
    decreases values, 0
  {
    if values == [] then 0 else Max(Nesting(values[0]), DeepestValue(values[1..]))
  }

  function DeepestEntry(entries: seq<Entry>): nat
    decreases entries, 0
  {
    if entries == [] then 0 else Max(Nesting(entries[0].value), DeepestEntry(entries[1..]))
  }

  predicate ValidTime(t: Timestamp) { t.nanos < NANOS_PER_SECOND }

  predicate Valid(v: Value)
    decreases v
  {
    && v.depth == Nesting(v) <= MAX_DEPTH
    && match v.repr
       case Text(s) => |s| <= MAX_TEXT
       case Blob(s) => |s| <= MAX_BLOB
       case Time(t) => ValidTime(t)
       case List(values) => |values| <= MAX_ITEMS && forall x | x in values :: Valid(x)
       case Map(entries) =>
         && |entries| <= MAX_ENTRIES && SortedKeys(entries)
         && forall e | e in entries :: KeyOk(e.key) && Valid(e.value)
       case _ => true
  }

  /** A bare map field's validity: everything but the depth rule of a
      surrounding value. */
  predicate ValidMap(entries: seq<Entry>) {
    && |entries| <= MAX_ENTRIES && SortedKeys(entries)
    && forall e | e in entries :: KeyOk(e.key) && Valid(e.value)
  }

  // --- Checked constructors ---

  function NewTimestamp(seconds: i64, nanos: u32): Result<Timestamp> {
    if nanos >= NANOS_PER_SECOND then Err(Rule) else Ok(Timestamp(seconds, nanos))
  }

  function Scalar(repr: Repr): Value { Value(repr, 1) }

  function NewDouble(bits: u64): Result<Value> {
    match F.New(bits)
    case None => Err(NotFinite)
    case Some(d) => Ok(Scalar(Repr.Double(d)))
  }

  function NewText(s: seq<byte>): Result<Value> {
    if |s| > MAX_TEXT then Err(TooLong) else Ok(Scalar(Text(s)))
  }

  function NewBlob(s: seq<byte>): Result<Value> {
    if |s| > MAX_BLOB then Err(TooLong) else Ok(Scalar(Blob(s)))
  }

  /** The deepest cached depth among children; the walk is one level only. */
  function DeepestCached(values: seq<Value>): nat {
    if values == [] then 0 else Max(values[0].depth, DeepestCached(values[1..]))
  }

  function Children(entries: seq<Entry>): (r: seq<Value>)
    ensures |r| == |entries|
    ensures forall i | 0 <= i < |entries| :: r[i] == entries[i].value
  {
    seq(|entries|, i requires 0 <= i < |entries| => entries[i].value)
  }

  function ContainerDepth(children: seq<Value>): Result<nat> {
    var depth := DeepestCached(children) + 1;
    if depth > MAX_DEPTH then Err(TooDeep) else Ok(depth)
  }

  function NewList(values: seq<Value>): Result<Value> {
    if |values| > MAX_ITEMS then Err(TooMany) else
    var depth :- ContainerDepth(values);
    Ok(Value(List(values), depth))
  }

  function NewMap(entries: seq<Entry>): Result<Value> {
    var m :- CollectMap([], entries);
    var depth :- ContainerDepth(Children(m));
    Ok(Value(Map(m), depth))
  }

  predicate HasKey(m: seq<Entry>, key: seq<byte>) {
    exists e :: e in m && e.key == key
  }

  /** `BTreeMap::insert` of a key the map does not hold. */
  function Insert(m: seq<Entry>, e: Entry): seq<Entry> {
    if m == [] then [e]
    else if CmpInts(e.key, m[0].key) == Less then [e] + m
    else [m[0]] + Insert(m[1..], e)
  }

  /** The collecting loop, from the map built so far. */
  function CollectMap(m: seq<Entry>, entries: seq<Entry>): Result<seq<Entry>>
    decreases |entries|
  {
    if entries == [] then
      if |m| > MAX_ENTRIES then Err(TooMany) else Ok(m)
    else
      var e := entries[0];
      if e.key == [] then Err(Empty)
      else if |e.key| > MAX_KEY then Err(TooLong)
      else if HasKey(m, e.key) then Err(Duplicate)
      else CollectMap(Insert(m, e), entries[1..])
  }

  // --- Wire forms ---

  datatype WTimestamp = WTimestamp(seconds: Option<i64>, nanos: Option<u32>)

  datatype WValue = WValue(kind: Option<WKind>)

  datatype WKind =
    | WNull
    | WBool(b: bool)
    | WInt(i: i64)
    | WUint(u: u64)
    | WDouble(bits: u64)
    | WText(text: seq<byte>)
    | WBlob(blob: seq<byte>)
    | WTime(t: WTimestamp)
    | WList(values: seq<WValue>)
    | WMap(entries: seq<WEntry>)

  datatype WEntry = WEntry(key: Option<seq<byte>>, value: Option<WValue>)

  function TryTimestamp(w: WTimestamp): Result<Timestamp> {
    if w.seconds.None? then Err(Absent)
    else if w.nanos.None? then Err(Absent)
    else NewTimestamp(w.seconds.value, w.nanos.value)
  }

  function TryValue(w: WValue): Result<Value>
    decreases w, 1
  {
    match w.kind
    case None => Err(Absent)
    case Some(WNull) => Ok(Scalar(Null))
    case Some(WBool(b)) => Ok(Scalar(Bool(b)))
    case Some(WInt(i)) => Ok(Scalar(Repr.Int(i)))
    case Some(WUint(u)) => Ok(Scalar(Repr.Uint(u)))
    case Some(WDouble(bits)) => NewDouble(bits)
    case Some(WText(s)) => NewText(s)
    case Some(WBlob(s)) => NewBlob(s)
    case Some(WTime(t)) =>
      var t' :- TryTimestamp(t);
      Ok(Scalar(Time(t')))
    case Some(WList(ws)) =>
      var values :- TryValues([], ws);
      NewList(values)
    case Some(WMap(ws)) =>
      var entries :- TryEntries([], ws);
      NewMap(entries)
  }

  /** The element loop, from the values converted so far. */
  function TryValues(done: seq<Value>, ws: seq<WValue>): Result<seq<Value>>
    decreases ws, 0
  {
    if ws == [] then Ok(done) else
    var v :- TryValue(ws[0]);
    TryValues(done + [v], ws[1..])
  }

  function TryEntries(done: seq<Entry>, ws: seq<WEntry>): Result<seq<Entry>>
    decreases ws, 0
  {
    if ws == [] then Ok(done)
    else if ws[0].key.None? then Err(Absent)
    else if ws[0].value.None? then Err(Absent)
    else
      assert ws[0].value.value < ws[0].value < ws[0];
      var v :- TryValue(ws[0].value.value);
      TryEntries(done + [Entry(ws[0].key.value, v)], ws[1..])
  }

  /** A bare map field off the wire, which holds the map without a value. */
  function TryMap(ws: seq<WEntry>): Result<seq<Entry>> {
    var entries :- TryEntries([], ws);
    CollectMap([], entries)
  }

  function TimestampIntoWire(t: Timestamp): WTimestamp { WTimestamp(Some(t.seconds), Some(t.nanos)) }

  function IntoWire(v: Value): WValue
    decreases v, 1
  {
    WValue(Some(
             match v.repr
             case Null => WNull
             case Bool(b) => WBool(b)
             case Int(i) => WInt(i)
             case Uint(u) => WUint(u)
             case Double(d) => WDouble(d)
             case Text(s) => WText(s)
             case Blob(s) => WBlob(s)
             case Time(t) => WTime(TimestampIntoWire(t))
             case List(values) => WList(ValuesIntoWire(values))
             case Map(entries) => WMap(EntriesIntoWire(entries))))
  }

  function ValuesIntoWire(values: seq<Value>): (ws: seq<WValue>)
    ensures |ws| == |values|
    decreases values, 0
  {
    if values == [] then [] else [IntoWire(values[0])] + ValuesIntoWire(values[1..])
  }

  function EntriesIntoWire(entries: seq<Entry>): (ws: seq<WEntry>)
    ensures |ws| == |entries|
    decreases entries, 0
  {
    if entries == [] then [] else
    [WEntry(Some(entries[0].key), Some(IntoWire(entries[0].value)))] + EntriesIntoWire(entries[1..])
  }

  // --- What the wire may carry, declaratively ---

  function WNesting(w: WValue): (n: nat)
    ensures n >= 1
    decreases w, 1
  {
    match w.kind
    case Some(WList(ws)) => 1 + DeepestWire(ws)
    case Some(WMap(ws)) => 1 + DeepestWireEntry(ws)
    case _ => 1
  }

  function DeepestWire(ws: seq<WValue>): nat
    decreases ws, 0
  {
    if ws == [] then 0 else Max(WNesting(ws[0]), DeepestWire(ws[1..]))
  }

  function DeepestWireEntry(ws: seq<WEntry>): nat
    decreases ws, 0
  {
    if ws == [] then 0 else
    var here := match ws[0].value
                case None => 0
                case Some(w) => assert w < ws[0].value < ws[0]; WNesting(w);
    Max(here, DeepestWireEntry(ws[1..]))
  }

  predicate DistinctKeys(ws: seq<WEntry>) {
    forall i, j | 0 <= i < j < |ws| :: ws[i].key != ws[j].key
  }

  /** Every rule of the schema but depth: a kind everywhere, finite doubles, the
      byte and element bounds, instants within the second, and map entries whole
      with nonempty, bounded, distinct keys. */
  predicate WellFormed(w: WValue)
    decreases w
  {
    match w.kind
    case None => false
    case Some(WDouble(bits)) => F.IsFinite(bits)
    case Some(WText(s)) => |s| <= MAX_TEXT
    case Some(WBlob(s)) => |s| <= MAX_BLOB
    case Some(WTime(t)) => t.seconds.Some? && t.nanos.Some? && t.nanos.value < NANOS_PER_SECOND
    case Some(WList(ws)) => |ws| <= MAX_ITEMS && forall x | x in ws :: WellFormed(x)
    case Some(WMap(ws)) =>
      && |ws| <= MAX_ENTRIES
      && DistinctKeys(ws)
      && forall e | e in ws :: EntryShape(e) && (assert e.value.value < e.value < e; WellFormed(e.value.value))
    case _ => true
  }

  predicate EntryShape(e: WEntry) { e.key.Some? && KeyOk(e.key.value) && e.value.Some? }

  predicate Acceptable(w: WValue) { WellFormed(w) && WNesting(w) <= MAX_DEPTH }

  predicate MapAcceptable(ws: seq<WEntry>) {
    && |ws| <= MAX_ENTRIES
    && DistinctKeys(ws)
    && forall e | e in ws :: EntryShape(e) && Acceptable(e.value.value)
  }

  /** `v` says what `w` says: the same arm and payload, a double as the same
      number, lists in order, and map entries matched by key. */
  predicate Denotes(w: WValue, v: Value)
    decreases w
  {
    match w.kind
    case None => false
    case Some(WNull) => v.repr == Null
    case Some(WBool(b)) => v.repr == Bool(b)
    case Some(WInt(i)) => v.repr == Repr.Int(i)
    case Some(WUint(u)) => v.repr == Repr.Uint(u)
    case Some(WDouble(bits)) => v.repr.Double? && F.Scaled(v.repr.d) == F.Scaled(bits)
    case Some(WText(s)) => v.repr == Text(s)
    case Some(WBlob(s)) => v.repr == Blob(s)
    case Some(WTime(t)) => v.repr.Time? && t == TimestampIntoWire(v.repr.t)
    case Some(WList(ws)) =>
      && v.repr.List? && |v.repr.values| == |ws|
      && forall i | 0 <= i < |ws| :: Denotes(ws[i], v.repr.values[i])
    case Some(WMap(ws)) => v.repr.Map? && EntriesDenote(ws, v.repr.entries)
  }

  predicate EntriesDenote(ws: seq<WEntry>, entries: seq<Entry>)
    decreases ws
  {
    && |entries| == |ws|
    && forall w | w in ws :: exists e | e in entries :: EntryDenotes(w, e)
  }

  predicate EntryDenotes(w: WEntry, e: Entry)
    decreases w
  {
    && w.key == Some(e.key) && w.value.Some?
    && (assert w.value.value < w.value < w; Denotes(w.value.value, e.value))
  }
}
