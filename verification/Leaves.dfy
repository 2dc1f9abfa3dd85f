/** The scalar and hand-written field types a generated message is built from,
    each with its order, content stream, wire records and reading: what the
    field templates of `codegen/src/wrapper/plans.rs` call per kind. */
module Leaves {
  import opened Bytes
  import opened Orders
  import opened Records
  import V = Values
  import VO = ValueOrder
  import VD = ValueDigest
  import VW = ValueWire
  import VR = ValueReading
  import F = Finites

  datatype LeafType = TText | TBool | TU64 | TEnum(known: set<i32>) | TMap | TValue | TTime | TNumeric

  /** A generated enum: a variant this build knows, or a newer producer's
      number carried as it came. */
  datatype EnumValue = Recognized(n: i32) | Unrecognized(n: i32) {
    function Number(): i32 { n }
  }

  datatype LeafValue =
    | LText(s: seq<byte>)
    | LBool(b: bool)
    | LU64(u: u64)
    | LEnum(e: EnumValue)
    | LMap(entries: seq<V.Entry>)
    | LValue(v: V.Value)
    | LTime(t: V.Timestamp)
    | LNumeric(n: V.NumericValue)

  // --- Enums ---

  /** `TryFrom<i32>`: zero is refused, a known number is its variant. */
  function TryEnum(known: set<i32>, n: i32): V.Result<EnumValue> {
    if n == 0 then V.Err(V.Unspecified)
    else if n in known then V.Ok(Recognized(n))
    else V.Ok(Unrecognized(n))
  }

  /** The honesty check a build runs on an enum it was handed. */
  function CheckEnum(known: set<i32>, e: EnumValue): V.Result<()> {
    match e
    case Recognized(_) => V.Ok(())
    case Unrecognized(n) =>
      match TryEnum(known, n)
      case Ok(Unrecognized(_)) => V.Ok(())
      case Ok(_) => V.Err(V.Rule)
      case Err(violation) => V.Err(violation)
  }

  /** The values the enum type can hold: a `Recognized` is a declared variant,
      an `Unrecognized` any number at all. */
  predicate EnumTyped(known: set<i32>, e: EnumValue) {
    0 !in known && (e.Recognized? ==> e.n in known)
  }

  /** The check passes exactly the values whose number decodes back to them, so
      among checked values equal numbers are equal values. */
  lemma CheckedEnumsDoNotAlias(known: set<i32>, e: EnumValue, f: EnumValue)
    requires EnumTyped(known, e) && EnumTyped(known, f)
    ensures CheckEnum(known, e).Ok? <==> TryEnum(known, e.Number()) == V.Ok(e)
    ensures CheckEnum(known, e).Ok? && CheckEnum(known, f).Ok? && e.Number() == f.Number() ==> e == f
  {
  }

  predicate Valid(t: LeafType, x: LeafValue) {
    match (t, x)
    case (TText, LText(s)) => |s| < TWO64
    case (TBool, LBool(_)) => true
    case (TU64, LU64(_)) => true
    case (TEnum(known), LEnum(e)) => EnumTyped(known, e) && CheckEnum(known, e).Ok?
    case (TMap, LMap(entries)) => V.ValidMap(entries)
    case (TValue, LValue(v)) => V.Valid(v)
    case (TTime, LTime(t)) => V.ValidTime(t)
    case (TNumeric, LNumeric(_)) => true
    case _ => false
  }

  /** An enum's zero is the unspecified value, never a variant. */
  predicate TypeOk(t: LeafType) { t.TEnum? ==> 0 !in t.known }

  // --- Order ---

  function Cmp(a: LeafValue, b: LeafValue): Ordering {
    match (a, b)
    case (LText(x), LText(y)) => CmpInts(x, y)
    case (LBool(x), LBool(y)) => CmpBool(x, y)
    case (LU64(x), LU64(y)) => CmpInt(x, y)
    case (LEnum(x), LEnum(y)) => CmpInt(x.Number(), y.Number())
    case (LMap(x), LMap(y)) => VO.CmpMap(x, y)
    case (LValue(x), LValue(y)) => VO.Cmp(x, y)
    case (LTime(x), LTime(y)) => VO.CmpTime(x, y)
    case (LNumeric(x), LNumeric(y)) => VO.CmpNumeric(x, y)
    case _ => Equal
  }

  lemma CmpEqual(t: LeafType, a: LeafValue, b: LeafValue)
    requires Valid(t, a) && Valid(t, b)
    ensures Cmp(a, b) == Equal <==> a == b
  {
    match (a, b) {
      case (LText(x), LText(y)) => CmpIntsEqual(x, y);
      case (LEnum(x), LEnum(y)) => CheckedEnumsDoNotAlias(t.known, x, y);
      case (LMap(x), LMap(y)) => VO.CmpMapEqual(x, y);
      case (LValue(x), LValue(y)) => VO.CmpEqual(x, y);
      case (LNumeric(x), LNumeric(y)) => VO.CmpNumericEqual(x, y);
      case _ =>
    }
  }

  /** Leaves of one kind are ordered as what they hold, an enum by its number. */
  lemma LeafOrder(t: LeafType, a: LeafValue, b: LeafValue)
    requires Valid(t, a) && Valid(t, b)
    ensures t.TText? ==> (Cmp(a, b) == Less <==> exists k :: FirstAt(a.s, b.s, k))
    ensures t.TBool? ==> (Cmp(a, b) == Less <==> !a.b && b.b)
    ensures t.TU64? ==> (Cmp(a, b) == Less <==> a.u < b.u)
    ensures t.TEnum? ==> (Cmp(a, b) == Less <==> a.e.n < b.e.n)
    ensures t.TMap? ==> (Cmp(a, b) == Less <==> exists k :: VO.MapFirstAt(a.entries, b.entries, k))
    ensures t.TValue? ==> Cmp(a, b) == VO.Cmp(a.v, b.v)
    ensures t.TTime? ==>
              (Cmp(a, b) == Less <==>
               a.t.seconds * V.NANOS_PER_SECOND + a.t.nanos < b.t.seconds * V.NANOS_PER_SECOND + b.t.nanos)
    ensures t.TNumeric? ==> Cmp(a, b) == VO.CmpNumeric(a.n, b.n)
  {
    hide FirstAt, VO.MapFirstAt, VO.CmpMap, CmpInts, VO.Cmp, VO.CmpNumeric;
    if t.TText? {
      CmpIntsLess(a.s, b.s);
    } else if t.TMap? {
      VO.CmpMapLess(a.entries, b.entries);
    }
  }

  lemma CmpFlip(a: LeafValue, b: LeafValue)
    ensures Cmp(b, a) == Cmp(a, b).Reverse()
  {
    match (a, b) {
      case (LText(x), LText(y)) => CmpIntsFlip(x, y);
      case (LMap(x), LMap(y)) => VO.CmpMapFlip(x, y);
      case (LValue(x), LValue(y)) => VO.CmpFlip(x, y);
      case _ =>
    }
  }

  lemma CmpTransitive(t: LeafType, a: LeafValue, b: LeafValue, c: LeafValue)
    requires Valid(t, a) && Valid(t, b) && Valid(t, c)
    requires Cmp(a, b) == Less && Cmp(b, c) == Less
    ensures Cmp(a, c) == Less
  {
    match t {
      case TText => CmpIntsTransitive(a.s, b.s, c.s);
      case TMap => VO.CmpMapTransitive(a.entries, b.entries, c.entries);
      case TValue => VO.CmpTransitive(a.v, b.v, c.v);
      case _ =>
    }
  }

  // --- Content stream ---

  function Stream(t: LeafType, x: LeafValue): seq<byte>
    requires Valid(t, x)
  {
    match x
    case LText(s) => VD.BlobBytes(s)
    case LBool(b) => VD.BoolBytes(b)
    case LU64(u) => LE(u, 8)
    case LEnum(e) => LE(Unsigned32(e.Number()), 4)
    case LMap(entries) => VD.MapBytes(entries)
    case LValue(v) => VD.ValueBytes(v)
    case LTime(t) => VD.TimeBytes(t)
    case LNumeric(n) => VD.NumericBytes(n)
  }

  /** The stream of each kind: fixed-width numbers low byte first, text after its
      length, and the hand-written types as they stream themselves. */
  lemma StreamsLiterally(t: LeafType, x: LeafValue)
    requires Valid(t, x)
    ensures x.LText? ==> Stream(t, x) == LE(|x.s|, 8) + x.s
    ensures x.LBool? ==> Stream(t, x) == [if x.b then 1 else 0]
    ensures x.LU64? ==> Stream(t, x) == LE(x.u, 8)
    ensures x.LEnum? ==> Stream(t, x) == LE(x.e.n % 0x1_0000_0000, 4)
    ensures x.LMap? ==> V.ValidMap(x.entries) && Stream(t, x) == VD.MapBytes(x.entries)
    ensures x.LValue? ==> V.Valid(x.v) && Stream(t, x) == VD.ValueBytes(x.v)
    ensures x.LTime? ==> Stream(t, x) == VD.TimeBytes(x.t)
    ensures x.LNumeric? ==> Stream(t, x) == VD.NumericBytes(x.n)
  {
    hide LE, VD.MapBytes, VD.ValueBytes, VD.TimeBytes, VD.NumericBytes;
    if x.LEnum? {
      TwosComplement(0, x.e.n);
    }
  }

  lemma PrefixFree(t: LeafType, a: LeafValue, x: seq<byte>, b: LeafValue, y: seq<byte>)
    requires Valid(t, a) && Valid(t, b)
    requires Stream(t, a) + x == Stream(t, b) + y
    ensures a == b && x == y
  {
    match (a, b) {
      case (LText(p), LText(q)) => VD.BlobSplit(p, x, q, y);
      case (LBool(p), LBool(q)) => SplitStream(VD.BoolBytes(p), x, VD.BoolBytes(q), y);
      case (LU64(p), LU64(q)) => VD.Word64Split(p, x, q, y);
      case (LEnum(p), LEnum(q)) =>
        VD.TagSplit(Unsigned32(p.Number()), x, Unsigned32(q.Number()), y);
        CheckedEnumsDoNotAlias(t.known, p, q);
      case (LMap(p), LMap(q)) => VD.MapSplit(p, x, q, y);
      case (LValue(p), LValue(q)) => VD.ValuePrefixFree(p, x, q, y);
      case (LTime(p), LTime(q)) => VD.TimeSplit(p, x, q, y);
      case (LNumeric(p), LNumeric(q)) => VD.NumericSplit(p, x, q, y);
    }
  }

  // --- Wire ---

  datatype WNumeric = WNumeric(kind: Option<WNumKind>)

  datatype WNumKind = WDouble(bits: u64) | WInt(i: i64) | WUint(u: u64)

  datatype WLeaf =
    | WLText(s: seq<byte>)
    | WLBool(b: bool)
    | WLU64(u: u64)
    | WLEnum(n: i32)
    | WLMap(entries: seq<V.WEntry>)
    | WLValue(v: V.WValue)
    | WLTime(t: V.WTimestamp)
    | WLNumeric(num: WNumeric)

  function NumericIntoWire(n: V.NumericValue): WNumeric {
    WNumeric(Some(match n case Double(d) => WDouble(d) case Int(i) => WInt(i) case Uint(u) => WUint(u)))
  }

  function TryNumeric(w: WNumeric): V.Result<V.NumericValue> {
    match w.kind
    case None => V.Err(V.Absent)
    case Some(WDouble(bits)) =>
      (match F.New(bits) case None => V.Err(V.NotFinite) case Some(d) => V.Ok(V.NumericValue.Double(d)))
    case Some(WInt(i)) => V.Ok(V.NumericValue.Int(i))
    case Some(WUint(u)) => V.Ok(V.NumericValue.Uint(u))
  }

  function IntoWire(x: LeafValue): WLeaf {
    match x
    case LText(s) => WLText(s)
    case LBool(b) => WLBool(b)
    case LU64(u) => WLU64(u)
    case LEnum(e) => WLEnum(e.Number())
    case LMap(entries) => WLMap(V.EntriesIntoWire(entries))
    case LValue(v) => WLValue(V.IntoWire(v))
    case LTime(t) => WLTime(V.TimestampIntoWire(t))
    case LNumeric(n) => WLNumeric(NumericIntoWire(n))
  }

  function TryLeaf(t: LeafType, w: WLeaf): V.Result<LeafValue> {
    match (t, w)
    case (TText, WLText(s)) => V.Ok(LText(s))
    case (TBool, WLBool(b)) => V.Ok(LBool(b))
    case (TU64, WLU64(u)) => V.Ok(LU64(u))
    case (TEnum(known), WLEnum(n)) => var e :- TryEnum(known, n); V.Ok(LEnum(e))
    case (TMap, WLMap(ws)) => var m :- V.TryMap(ws); V.Ok(LMap(m))
    case (TValue, WLValue(w)) => var v :- V.TryValue(w); V.Ok(LValue(v))
    case (TTime, WLTime(w)) => var t :- V.TryTimestamp(w); V.Ok(LTime(t))
    case (TNumeric, WLNumeric(w)) => var n :- TryNumeric(w); V.Ok(LNumeric(n))
    case _ => V.Err(V.Absent)
  }

  lemma TryIntoWire(t: LeafType, x: LeafValue)
    requires Valid(t, x)
    ensures TryLeaf(t, IntoWire(x)) == V.Ok(x)
  {
    match x {
      case LEnum(e) => CheckedEnumsDoNotAlias(t.known, e, e);
      case LMap(entries) => VR.TryMapIntoWire(entries);
      case LValue(v) => VR.TryIntoWire(v);
      case _ =>
    }
  }

  /** What the wire may carry in a field of this type, declaratively. */
  predicate Accepts(t: LeafType, w: WLeaf) {
    match (t, w)
    case (TText, WLText(_)) => true
    case (TBool, WLBool(_)) => true
    case (TU64, WLU64(_)) => true
    case (TEnum(_), WLEnum(n)) => n != 0
    case (TMap, WLMap(ws)) => V.MapAcceptable(ws)
    case (TValue, WLValue(v)) => V.Acceptable(v)
    case (TTime, WLTime(w)) => w.seconds.Some? && w.nanos.Some? && w.nanos.value < V.NANOS_PER_SECOND
    case (TNumeric, WLNumeric(w)) => w.kind.Some? && (w.kind.value.WDouble? ==> F.IsFinite(w.kind.value.bits))
    case _ => false
  }

  /** And exactly that reads. */
  lemma TryLeafExactly(t: LeafType, w: WLeaf)
    ensures TryLeaf(t, w).Ok? <==> Accepts(t, w)
  {
    match w {
      case WLMap(ws) => VR.TryMapExact(ws);
      case WLValue(v) => VR.TryValueExact(v);
      case _ =>
    }
  }

  /** What reads is valid. */
  lemma TryLeafValid(t: LeafType, w: WLeaf)
    requires TypeOk(t) && TryLeaf(t, w).Ok? && (w.WLText? ==> |w.s| < TWO64)
    ensures Valid(t, TryLeaf(t, w).value)
  {
    match w {
      case WLMap(ws) => VR.TryMapExact(ws);
      case WLValue(v) => VR.TryValueExact(v);
      case _ =>
    }
  }

  /** The field as the emitter writes it. */
  function Emit(field: nat, x: LeafValue): seq<byte> {
    match x
    case LText(s) => VW.EmitBlob(field, s)
    case LBool(b) => VW.EmitVarint(field, if b then 1 else 0)
    case LU64(u) => VW.EmitVarint(field, u)
    case LEnum(e) => VW.EmitVarint(field, Unsigned64(e.Number()))
    case LMap(entries) => VW.EmitMapField(field, entries)
    case LValue(v) => VW.Prefixed(field, VW.Len(v), VW.Emit(v))
    case LTime(t) => VW.Prefixed(field, VW.LenTime(t), VW.EmitTime(t))
    case LNumeric(n) => VW.Prefixed(field, VW.LenNumeric(n), VW.EmitNumeric(n))
  }

  function Len(field: nat, x: LeafValue): nat {
    match x
    case LText(s) => VW.LenBlob(field, s)
    case LBool(b) => VW.LenVarint(field, if b then 1 else 0)
    case LU64(u) => VW.LenVarint(field, u)
    case LEnum(e) => VW.LenVarint(field, Unsigned64(e.Number()))
    case LMap(entries) => VW.MapFieldLen(field, entries)
    case LValue(v) => VW.PrefixedLen(field, VW.Len(v))
    case LTime(t) => VW.PrefixedLen(field, VW.LenTime(t))
    case LNumeric(n) => VW.PrefixedLen(field, VW.LenNumeric(n))
  }

  function NumericRecs(w: WNumeric): (rs: seq<Rec>)
    ensures forall r | r in rs :: r.field >= 1
  {
    match w.kind
    case None => []
    case Some(WDouble(bits)) => [Rec(1, Fixed64(bits))]
    case Some(WInt(i)) => [Rec(2, VInt(Zigzag(i)))]
    case Some(WUint(u)) => [Rec(3, VInt(u))]
  }

  /** The field as the specification encoder writes it: one record. */
  function WirePayload(w: WLeaf): Payload {
    match w
    case WLText(s) => Delimited(s)
    case WLBool(b) => VInt(if b then 1 else 0)
    case WLU64(u) => VInt(u)
    case WLEnum(n) => VInt(Unsigned64(n))
    case WLMap(ws) => Delimited(Ser(VW.MapRecs(ws)))
    case WLValue(v) => Delimited(Ser(VW.ValueRecs(v)))
    case WLTime(t) => Delimited(Ser(VW.TimeRecs(t)))
    case WLNumeric(n) => Delimited(Ser(NumericRecs(n)))
  }

  lemma EmitExact(field: nat, x: LeafValue)
    ensures Emit(field, x) == RecSer(Rec(field, WirePayload(IntoWire(x))))
    ensures |Emit(field, x)| == Len(field, x)
  {
    hide RecSer, VW.Prefixed, VW.EmitVarint, VW.EmitBlob, Ser;
    match x {
      case LText(s) => VW.EmitBlobExact(field, s);
      case LBool(b) => VW.EmitVarintExact(field, if b then 1 else 0);
      case LU64(u) => VW.EmitVarintExact(field, u);
      case LEnum(e) => VW.EmitVarintExact(field, Unsigned64(e.Number()));
      case LMap(entries) => VW.EmitMapFieldExact(field, entries);
      case LValue(v) =>
        VW.EmitExact(v);
        VW.PrefixedExact(field, VW.Emit(v));
      case LTime(t) =>
        VW.EmitTimeExact(t);
        VW.PrefixedExact(field, VW.EmitTime(t));
      case LNumeric(n) =>
        VW.EmitNumericExact(n);
        assert NumericRecs(NumericIntoWire(n)) == VW.NumericRecs(n);
        VW.PrefixedExact(field, VW.EmitNumeric(n));
    }
  }

  // --- The bytes themselves ---

  /** A delimited field: its key, its length, itself. */
  function Delimits(field: nat, body: seq<byte>): seq<byte> { Varint(field * 8 + 2) + (Varint(|body|) + body) }

  lemma PrefixedDelimits(field: nat, body: seq<byte>)
    ensures VW.Prefixed(field, |body|, body) == Delimits(field, body)
    ensures RecSer(Rec(field, Delimited(body))) == Delimits(field, body)
  {
    hide Varint;
    VW.PrefixedExact(field, body);
    Assoc(Varint(field * 8 + 2), Varint(|body|), body);
  }

  /** What each kind of leaf is on the wire: numbers as varints, an enum's number in
      two's complement of sixty-four bits, the rest delimited. */
  lemma EmitsLiterally(field: nat, x: LeafValue)
    ensures x.LText? ==> Emit(field, x) == Delimits(field, x.s)
    ensures x.LBool? ==> Emit(field, x) == Varint(field * 8) + [if x.b then 1 else 0]
    ensures x.LU64? ==> Emit(field, x) == Varint(field * 8) + Varint(x.u)
    ensures x.LEnum? ==> Emit(field, x) == Varint(field * 8) + Varint(x.e.n % TWO64)
    ensures x.LMap? ==> Emit(field, x) == Delimits(field, VW.EmitMapBody(x.entries))
    ensures x.LValue? ==> Emit(field, x) == Delimits(field, VW.Emit(x.v))
    ensures x.LTime? ==> Emit(field, x) == Delimits(field, VW.EmitTime(x.t))
    ensures x.LNumeric? ==> Emit(field, x) == Delimits(field, VW.EmitNumeric(x.n))
  {
    if x.LBool? {
      VW.SmallVarint(if x.b then 1 else 0);
    } else if x.LEnum? {
      TwosComplement(x.e.n, 0);
    } else if !x.LU64? {
      EmitsDelimited(field, x);
    }
    hide Varint, VW.Prefixed, VW.EmitMapBody, VW.Emit, VW.EmitTime, VW.EmitNumeric;
  }

  lemma EmitsDelimited(field: nat, x: LeafValue)
    requires x.LText? || x.LMap? || x.LValue? || x.LTime? || x.LNumeric?
    ensures Emit(field, x) == Delimits(field, Body(x))
  {
    if x.LMap? {
      VW.EmitMapExact(x.entries);
    } else if x.LValue? {
      VW.EmitExact(x.v);
    } else if x.LTime? {
      VW.EmitTimeExact(x.t);
    } else if x.LNumeric? {
      VW.EmitNumericExact(x.n);
    }
    PrefixedDelimits(field, Body(x));
    hide Varint, VW.Prefixed, VW.EmitMapBody, VW.Emit, VW.EmitTime, VW.EmitNumeric;
  }

  function Body(x: LeafValue): seq<byte>
    requires x.LText? || x.LMap? || x.LValue? || x.LTime? || x.LNumeric?
  {
    match x
    case LText(s) => s
    case LMap(entries) => VW.EmitMapBody(entries)
    case LValue(v) => VW.Emit(v)
    case LTime(t) => VW.EmitTime(t)
    case LNumeric(n) => VW.EmitNumeric(n)
  }

  // --- Decoding ---

  function FoldNumeric(rs: seq<Rec>, acc: WNumeric): Option<WNumeric> {
    if rs == [] then Some(acc) else
    var (f, p) := (rs[0].field, rs[0].payload);
    if f > 3 then FoldNumeric(rs[1..], acc)
    else if f == 1 && p.Fixed64? then FoldNumeric(rs[1..], WNumeric(Some(WDouble(p.w))))
    else if f == 2 && p.VInt? then FoldNumeric(rs[1..], WNumeric(Some(WInt(Unzigzag(p.n)))))
    else if f == 3 && p.VInt? then FoldNumeric(rs[1..], WNumeric(Some(WUint(p.n))))
    else None
  }

  function DecodeNumeric(s: seq<byte>): Option<WNumeric> {
    match ParseRecs(s)
    case None => None
    case Some(rs) => FoldNumeric(rs, WNumeric(None))
  }

  function Decode(t: LeafType, p: Payload): Option<WLeaf> {
    match (t, p)
    case (TText, Delimited(s)) => Some(WLText(s))
    case (TBool, VInt(n)) => Some(WLBool(n != 0))
    case (TU64, VInt(n)) => Some(WLU64(n))
    case (TEnum(_), VInt(n)) => Some(WLEnum(Signed32(n % 0x1_0000_0000)))
    case (TMap, Delimited(s)) => (match VW.DecodeMap(s) case None => None case Some(ws) => Some(WLMap(ws)))
    case (TValue, Delimited(s)) => (match VW.DecodeValue(s) case None => None case Some(w) => Some(WLValue(w)))
    case (TTime, Delimited(s)) => (match VW.DecodeTime(s) case None => None case Some(w) => Some(WLTime(w)))
    case (TNumeric, Delimited(s)) => (match DecodeNumeric(s) case None => None case Some(w) => Some(WLNumeric(w)))
    case _ => None
  }

  predicate WTyped(t: LeafType, w: WLeaf) {
    match (t, w)
    case (TText, WLText(_)) => true
    case (TBool, WLBool(_)) => true
    case (TU64, WLU64(_)) => true
    case (TEnum(_), WLEnum(_)) => true
    case (TMap, WLMap(_)) => true
    case (TValue, WLValue(_)) => true
    case (TTime, WLTime(_)) => true
    case (TNumeric, WLNumeric(_)) => true
    case _ => false
  }

  lemma DecodeNumericInverts(n: WNumeric)
    ensures DecodeNumeric(Ser(NumericRecs(n))) == Some(n)
  {
    var rs := NumericRecs(n);
    ParseSer(rs);
    hide Ser, ParseRecs;
    assert FoldNumeric([], n) == Some(n);
    if n.kind.Some? {
      assert rs[1..] == [];
    } else {
      assert rs == [] && n == WNumeric(None);
    }
  }

  lemma EnumInverts(n: i32)
    ensures Signed32(Unsigned64(n) % 0x1_0000_0000) == n
  {
  }

  lemma DecodeInverts(t: LeafType, w: WLeaf)
    requires WTyped(t, w)
    ensures Decode(t, WirePayload(w)) == Some(w)
  {
    hide Ser, DecodeNumeric, NumericRecs, VW.DecodeMap, VW.MapRecs, VW.DecodeValue, VW.ValueRecs, VW.DecodeTime;
    match w {
      case WLMap(ws) => VW.DecodeMapInverts(ws);
      case WLValue(v) => VW.DecodeInverts(v);
      case WLTime(x) => VW.DecodeTimeInverts(x);
      case WLNumeric(n) => DecodeNumericInverts(n);
      case WLEnum(n) => EnumInverts(n);
      case _ =>
    }
  }
}
