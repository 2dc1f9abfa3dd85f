/** Building a message from its wire tree: convert every field, canonicalize,
    check (`codegen/src/wrapper/mod.rs`, the generated `TryFrom`), and the whole
    round trip through bytes. */
module SchemaReading {
  import opened Bytes
  import opened Records
  import opened Schemas
  import opened SchemaOrder
  import opened Canonicalization
  import opened AdjacentScan
  import opened SchemaWire
  import V = Values
  import L = Leaves

  // --- Checks ---

  predicate LengthOk(limits: Limits, length: nat) {
    (limits.nonEmpty ==> length > 0) && (limits.maxLen.Some? ==> length <= limits.maxLen.value)
  }

  predicate TextOk(limits: Limits, d: Datum) {
    d.DLeaf? && d.x.LText? ==> LengthOk(limits, |d.x.s|)
  }

  /** No element repeats an earlier one's key tuple. */
  predicate KeysDistinct(t: Type, keys: seq<nat>, ds: seq<Datum>) {
    t.Message? ==> IsFirstRepeat(KeysOf(t.plans, keys, ds), None)
  }

  predicate SlotChecks(p: Plan, s: Slot) {
    match s
    case Single(d) => TextOk(p.limits, d)
    case Many(ds) =>
      && (p.limits.maxItems.Some? ==> |ds| <= p.limits.maxItems.value)
      && (forall d | d in ds :: TextOk(p.limits, d))
      && (p.limits.uniqueBy != [] && p.shape.Repeated? ==> KeysDistinct(p.shape.t, p.limits.uniqueBy, ds))
    case _ => true
  }

  predicate Checks(plans: seq<Plan>, slots: seq<Slot>)
    requires |plans| == |slots|
  {
    forall i | 0 <= i < |plans| :: SlotChecks(plans[i], slots[i])
  }

  /** The cross-field rule each message's check ends with, over canonical form. */
  type Rule = (seq<Plan>, seq<Slot>) -> bool

  // --- Validated messages ---

  /** What construction guarantees at every level: typed fields, sorted sortable
      fields, passing checks. */
  ghost predicate Valid(rule: Rule, t: Type, d: Datum)
    decreases t, 1
  {
    match (t, d)
    case (Leaf(l), DLeaf(x)) => L.Valid(l, x)
    case (Message(plans), DMessage(slots)) =>
      |plans| == |slots| && ValidSlots(rule, plans, slots) && Checks(plans, slots) && rule(plans, slots)
    case _ => false
  }

  ghost predicate ValidSlots(rule: Rule, plans: seq<Plan>, slots: seq<Slot>)
    decreases plans, 0
  {
    && |plans| == |slots|
    && (plans != [] ==> ValidSlot(rule, plans[0], slots[0]) && ValidSlots(rule, plans[1..], slots[1..]))
  }

  ghost predicate ValidSlot(rule: Rule, p: Plan, s: Slot)
    decreases p
  {
    match (p.shape, s)
    case (Required(t), Single(d)) => Valid(rule, t, d)
    case (Optional(t), Single(d)) => Valid(rule, t, d)
    case (Optional(t), Absent) => true
    case (Repeated(t), Many(ds)) =>
      |ds| < TWO64 && (forall d | d in ds :: Valid(rule, t, d)) && (p.sortable ==> Sorted(t, ds))
    case (OneOf(_, arms), Case(k, d)) => k < |arms| && Valid(rule, arms[k].t, d)
    case (OneOf(required, _), Absent) => !required
    case _ => false
  }

  lemma {:induction false} ValidIsTyped(rule: Rule, t: Type, d: Datum)
    requires Valid(rule, t, d)
    ensures Typed(t, d)
    decreases t, 1
  {
    if t.Message? {
      ValidSlotsTyped(rule, t.plans, d.slots);
    }
  }

  lemma {:induction false} ValidSlotsTyped(rule: Rule, plans: seq<Plan>, slots: seq<Slot>)
    requires ValidSlots(rule, plans, slots)
    ensures TypedSlots(plans, slots)
    decreases plans, 0
  {
    if plans != [] {
      ValidSlotTyped(rule, plans[0], slots[0]);
      ValidSlotsTyped(rule, plans[1..], slots[1..]);
    }
  }

  lemma {:induction false} ValidSlotTyped(rule: Rule, p: Plan, s: Slot)
    requires ValidSlot(rule, p, s)
    ensures TypedSlot(p, s)
    decreases p
  {
    match (p.shape, s) {
      case (Required(t), Single(d)) => ValidIsTyped(rule, t, d);
      case (Optional(t), Single(d)) => ValidIsTyped(rule, t, d);
      case (Repeated(t), Many(ds)) => forall d | d in ds ensures Typed(t, d) { ValidIsTyped(rule, t, d); }
      case (OneOf(_, arms), Case(k, d)) =>
        assert arms[k] in arms;
        ValidIsTyped(rule, arms[k].t, d);
      case _ =>
    }
  }

  // --- Conversion ---

  function FromWire(rule: Rule, t: Type, w: WDatum): V.Result<Datum>
    decreases t, 1
  {
    match (t, w)
    case (Leaf(l), WLeafDatum(x)) => var y :- L.TryLeaf(l, x); V.Ok(DLeaf(y))
    case (Message(plans), WMessage(ws)) =>
      var slots :- SlotsFromWire(rule, plans, ws);
      var built := CanonicalSlots(plans, slots);
      if Checks(plans, built) && rule(plans, built) then V.Ok(DMessage(built)) else V.Err(V.Rule)
    case _ => V.Err(V.Absent)
  }

  function SlotsFromWire(rule: Rule, plans: seq<Plan>, ws: seq<WSlot>): (r: V.Result<seq<Slot>>)
    ensures r.Ok? ==> |r.value| == |plans|
    decreases plans, 0
  {
    if plans == [] then V.Ok([])
    else if ws == [] then V.Err(V.Absent)
    else
      var s :- SlotFromWire(rule, plans[0], ws[0]);
      var rest :- SlotsFromWire(rule, plans[1..], ws[1..]);
      V.Ok([s] + rest)
  }

  /** One field: a required field or oneof must be present. */
  function SlotFromWire(rule: Rule, p: Plan, w: WSlot): V.Result<Slot>
    decreases p
  {
    match (p.shape, w)
    case (Required(t), WSingle(Some(x))) => var d :- FromWire(rule, t, x); V.Ok(Single(d))
    case (Optional(t), WSingle(Some(x))) => var d :- FromWire(rule, t, x); V.Ok(Single(d))
    case (Optional(t), WSingle(None)) => V.Ok(Absent)
    case (Repeated(t), WMany(xs)) => var ds :- ManyFromWire(rule, t, xs); V.Ok(Many(ds))
    case (OneOf(_, arms), WCase(Some(kx))) =>
      if kx.0 >= |arms| then V.Err(V.Absent) else
      var d :- FromWire(rule, arms[kx.0].t, kx.1);
      V.Ok(Case(kx.0, d))
    case (OneOf(required, _), WCase(None)) => if required then V.Err(V.Absent) else V.Ok(Absent)
    case _ => V.Err(V.Absent)
  }

  function ManyFromWire(rule: Rule, t: Type, ws: seq<WDatum>): V.Result<seq<Datum>>
    decreases t, 2, |ws|
  {
    if ws == [] then V.Ok([]) else
    var d :- FromWire(rule, t, ws[0]);
    var rest :- ManyFromWire(rule, t, ws[1..]);
    V.Ok([d] + rest)
  }

  // --- Sorting what is sorted changes nothing ---

  lemma {:induction false} InsertLast(t: Type, ds: seq<Datum>, d: Datum)
    requires forall x | x in ds :: Le(t, x, d)
    ensures InsertBy(t, ds, d) == ds + [d]
  {
    hide Cmp;
    if ds != [] {
      assert ds[0] in ds;
      CmpFlip(t, ds[0], d);
      InsertLast(t, ds[1..], d);
      assert ds == [ds[0]] + ds[1..];
    }
  }

  lemma {:induction false} SortSorted(t: Type, ds: seq<Datum>)
    requires Sorted(t, ds)
    ensures SortBy(t, ds) == ds
  {
    hide Cmp, Le;
    if ds != [] {
      var (init, last) := (ds[..|ds| - 1], ds[|ds| - 1]);
      SortSorted(t, init);
      forall x | x in init ensures Le(t, x, last) {
        var k :| 0 <= k < |init| && init[k] == x;
        assert ds[k] == x;
      }
      InsertLast(t, init, last);
      assert ds == init + [last];
    }
  }

  // --- Reading what was written ---

  lemma {:induction false} FromIntoWire(rule: Rule, t: Type, d: Datum)
    requires Valid(rule, t, d)
    ensures FromWire(rule, t, IntoWire(t, d)) == V.Ok(d)
    decreases t, 1
  {
    match t {
      case Leaf(l) => L.TryIntoWire(l, d.x);
      case Message(plans) =>
        SlotsFromIntoWire(rule, plans, d.slots);
        CanonicalKept(rule, plans, d.slots);
    }
  }

  lemma CanonicalKept(rule: Rule, plans: seq<Plan>, slots: seq<Slot>)
    requires ValidSlots(rule, plans, slots)
    ensures CanonicalSlots(plans, slots) == slots
  {
    forall i | 0 <= i < |plans| ensures CanonicalSlots(plans, slots)[i] == slots[i] {
      ValidAt(rule, plans, slots, i);
      if plans[i].sortable && plans[i].shape.Repeated? {
        SortSorted(plans[i].shape.t, slots[i].ds);
      }
    }
  }

  lemma {:induction false} ValidAt(rule: Rule, plans: seq<Plan>, slots: seq<Slot>, i: nat)
    requires ValidSlots(rule, plans, slots) && i < |plans|
    ensures ValidSlot(rule, plans[i], slots[i])
  {
    if i > 0 {
      ValidAt(rule, plans[1..], slots[1..], i - 1);
    }
  }

  lemma {:induction false} SlotsFromIntoWire(rule: Rule, plans: seq<Plan>, slots: seq<Slot>)
    requires ValidSlots(rule, plans, slots)
    ensures SlotsFromWire(rule, plans, SlotsIntoWire(plans, slots)) == V.Ok(slots)
    decreases plans, 0
  {
    hide SlotIntoWire, SlotFromWire, ValidSlot;
    if plans != [] {
      SlotFromIntoWire(rule, plans[0], slots[0]);
      SlotsFromIntoWire(rule, plans[1..], slots[1..]);
      var ws := SlotsIntoWire(plans, slots);
      assert ws[1..] == SlotsIntoWire(plans[1..], slots[1..]);
      assert slots == [slots[0]] + slots[1..];
    }
  }

  lemma {:induction false} SlotFromIntoWire(rule: Rule, p: Plan, s: Slot)
    requires ValidSlot(rule, p, s)
    ensures SlotFromWire(rule, p, SlotIntoWire(p, s)) == V.Ok(s)
    decreases p
  {
    match (p.shape, s) {
      case (Required(t), Single(d)) => FromIntoWire(rule, t, d);
      case (Optional(t), Single(d)) => FromIntoWire(rule, t, d);
      case (Repeated(t), Many(ds)) => ManyFromIntoWire(rule, t, ds);
      case (OneOf(_, arms), Case(k, d)) =>
        assert arms[k] in arms;
        FromIntoWire(rule, arms[k].t, d);
      case _ =>
    }
  }

  lemma {:induction false} ManyFromIntoWire(rule: Rule, t: Type, ds: seq<Datum>)
    requires forall d | d in ds :: Valid(rule, t, d)
    ensures ManyFromWire(rule, t, ManyIntoWire(t, ds)) == V.Ok(ds)
    decreases t, 2, |ds|
  {
    hide IntoWire, FromWire, Valid;
    if ds != [] {
      FromIntoWire(rule, t, ds[0]);
      ManyFromIntoWire(rule, t, ds[1..]);
      var (w, ws) := (IntoWire(t, ds[0]), ManyIntoWire(t, ds[1..]));
      assert ManyIntoWire(t, ds) == [w] + ws;
      assert ([w] + ws)[0] == w && ([w] + ws)[1..] == ws;
      assert ds == [ds[0]] + ds[1..];
    }
  }

  lemma {:induction false} IntoWireTyped(t: Type, d: Datum)
    requires Typed(t, d)
    ensures WTyped(t, IntoWire(t, d))
    decreases t, 1
  {
    if t.Message? {
      SlotsIntoWireTyped(t.plans, d.slots);
    }
  }

  lemma {:induction false} SlotsIntoWireTyped(plans: seq<Plan>, slots: seq<Slot>)
    requires TypedSlots(plans, slots)
    ensures WTypedSlots(plans, SlotsIntoWire(plans, slots))
    decreases plans, 0
  {
    if plans != [] {
      SlotIntoWireTyped(plans[0], slots[0]);
      SlotsIntoWireTyped(plans[1..], slots[1..]);
      assert SlotsIntoWire(plans, slots)[1..] == SlotsIntoWire(plans[1..], slots[1..]);
    }
  }

  lemma {:induction false} SlotIntoWireTyped(p: Plan, s: Slot)
    requires TypedSlot(p, s)
    ensures WTypedSlot(p, SlotIntoWire(p, s))
    decreases p
  {
    match (p.shape, s) {
      case (Required(t), Single(d)) => IntoWireTyped(t, d);
      case (Optional(t), Single(d)) => IntoWireTyped(t, d);
      case (Repeated(t), Many(ds)) => ManyIntoWireTyped(t, ds);
      case (OneOf(_, arms), Case(k, d)) =>
        assert arms[k] in arms;
        IntoWireTyped(arms[k].t, d);
      case _ =>
    }
  }

  lemma {:induction false} ManyIntoWireTyped(t: Type, ds: seq<Datum>)
    requires forall d | d in ds :: Typed(t, d)
    ensures forall w | w in ManyIntoWire(t, ds) :: WTyped(t, w)
    decreases t, 2, |ds|
  {
    if ds != [] {
      IntoWireTyped(t, ds[0]);
      ManyIntoWireTyped(t, ds[1..]);
    }
  }

  /** The round trip of a validated message: the bytes have the announced length,
      are the specification encoding of the wire tree, and decode, convert,
      canonicalize and check back to the message. */
  lemma RoundTrip(rule: Rule, plans: seq<Plan>, d: Datum)
    requires WF(Message(plans)) && Valid(rule, Message(plans), d)
    ensures var t := Message(plans);
            && |Emit(t, d)| == Len(t, d)
            && Emit(t, d) == Ser(DatumRecs(t, IntoWire(t, d)))
            && DecodeMessage(plans, Emit(t, d)) == Some(IntoWire(t, d))
            && FromWire(rule, t, IntoWire(t, d)) == V.Ok(d)
  {
    var t := Message(plans);
    ValidIsTyped(rule, t, d);
    EmitExact(t, d);
    IntoWireTyped(t, d);
    FieldRecDecodes(1, t, IntoWire(t, d));
    assert FieldRec(1, t, IntoWire(t, d)).payload == Delimited(Emit(t, d));
    FromIntoWire(rule, t, d);
  }

  /** A validated message has exactly one wire form. */
  lemma OneWireForm(rule: Rule, plans: seq<Plan>, a: Datum, b: Datum)
    requires WF(Message(plans)) && Valid(rule, Message(plans), a) && Valid(rule, Message(plans), b)
    ensures Emit(Message(plans), a) == Emit(Message(plans), b) <==> a == b
  {
    RoundTrip(rule, plans, a);
    RoundTrip(rule, plans, b);
  }

  // --- What is built is valid ---

  lemma {:induction false} FromWireValid(rule: Rule, t: Type, w: WDatum)
    requires WF(t) && FromWire(rule, t, w).Ok?
    requires Countable(w)
    ensures Valid(rule, t, FromWire(rule, t, w).value)
    decreases t, 1
  {
    match t {
      case Leaf(l) => L.TryLeafValid(l, w.w);
      case Message(plans) =>
        var slots := SlotsFromWire(rule, plans, w.slots).value;
        SlotsFromWireValid(rule, plans, w.slots, slots);
    }
  }

  lemma {:induction false} SlotsFromWireValid(rule: Rule, plans: seq<Plan>, ws: seq<WSlot>, slots: seq<Slot>)
    requires WFPlans(plans) && SlotsFromWire(rule, plans, ws) == V.Ok(slots)
    requires forall s | s in ws :: CountableSlot(s)
    ensures ValidSlots(rule, plans, CanonicalSlots(plans, slots))
    decreases plans, 0
  {
    hide SlotFromWire, ValidSlot, CanonicalSlot;
    if plans != [] {
      assert WFPlan(plans[0]) && ws[0] in ws;
      assert slots == [slots[0]] + slots[1..];
      SlotFromWireValid(rule, plans[0], ws[0]);
      SlotsFromWireValid(rule, plans[1..], ws[1..], slots[1..]);
      assert CanonicalSlots(plans, slots)[1..] == CanonicalSlots(plans[1..], slots[1..]);
    }
  }

  lemma {:induction false} SlotFromWireValid(rule: Rule, p: Plan, w: WSlot)
    requires WFPlan(p) && SlotFromWire(rule, p, w).Ok? && CountableSlot(w)
    ensures ValidSlot(rule, p, CanonicalSlot(p, SlotFromWire(rule, p, w).value))
    decreases p
  {
    match (p.shape, w) {
      case (Required(t), WSingle(Some(x))) => FromWireValid(rule, t, x);
      case (Optional(t), WSingle(Some(x))) => FromWireValid(rule, t, x);
      case (Repeated(t), WMany(xs)) =>
        ManyFromWireValid(rule, t, xs);
        var ds := ManyFromWire(rule, t, xs).value;
        if p.sortable {
          forall d | d in ds ensures Typed(t, d) { ValidIsTyped(rule, t, d); }
          SortByExact(t, ds);
          SameMembers(SortBy(t, ds), ds);
        }
      case (OneOf(_, arms), WCase(Some(kx))) =>
        assert arms[kx.0] in arms;
        FromWireValid(rule, arms[kx.0].t, kx.1);
      case _ =>
    }
  }

  lemma {:induction false} ManyFromWireValid(rule: Rule, t: Type, ws: seq<WDatum>)
    requires WF(t) && ManyFromWire(rule, t, ws).Ok? && forall w | w in ws :: Countable(w)
    ensures |ManyFromWire(rule, t, ws).value| == |ws|
    ensures forall d | d in ManyFromWire(rule, t, ws).value :: Valid(rule, t, d)
    decreases t, 2, |ws|
  {
    if ws != [] {
      FromWireValid(rule, t, ws[0]);
      ManyFromWireValid(rule, t, ws[1..]);
    }
  }

  /** Rust lengths fit their machine word. */
  ghost predicate Countable(w: WDatum)
    decreases w
  {
    match w
    case WLeafDatum(x) => x.WLText? ==> |x.s| < TWO64
    case WMessage(ws) => forall s | s in ws :: CountableSlot(s)
  }

  ghost predicate CountableSlot(s: WSlot)
    decreases s
  {
    match s
    case WSingle(o) => o.Some? ==> Countable(o.value)
    case WMany(ds) => |ds| < TWO64 && forall d | d in ds :: Countable(d)
    case WCase(c) => c.Some? ==> Countable(c.value.1)
  }
}
