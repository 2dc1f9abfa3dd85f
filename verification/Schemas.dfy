/** Generated messages, generically: a schema is the plan list the generator
    computes per message (`codegen/src/wrapper/plans.rs`), a message a slot per
    plan, and the four walks interpreters over both. Plans stand in field-number
    order; the generator's two sorted walks, visible fields before metadata for
    the order and every field for the wire, are the phases below. */
module Schemas {
  import opened Bytes
  import opened Orders
  import L = Leaves
  import VD = ValueDigest

  datatype Type = Leaf(l: L.LeafType) | Message(plans: seq<Plan>)

  datatype Plan = Plan(number: nat, metadata: bool, sortable: bool, shape: Shape, limits: Limits)

  /** The field's own annotations: what `check` holds it to. */
  datatype Limits = Limits(nonEmpty: bool, maxLen: Option<nat>, maxItems: Option<nat>, uniqueBy: seq<nat>)

  const UNLIMITED := Limits(false, None, None, [])

  datatype Shape =
    | Required(t: Type)
    | Optional(t: Type)
    | Repeated(t: Type)
    | OneOf(required: bool, arms: seq<Arm>)

  datatype Arm = Arm(number: nat, t: Type)

  datatype Datum = DLeaf(x: L.LeafValue) | DMessage(slots: seq<Slot>)

  datatype Slot = Absent | Single(d: Datum) | Many(ds: seq<Datum>) | Case(arm: nat, d: Datum)

  const MAX_FIELD: int := 0x2000_0000

  // --- Well-formed schemas ---

  function ArmNumbers(arms: seq<Arm>): (r: set<nat>)
    ensures forall a | a in arms :: a.number in r
  {
    set a | a in arms :: a.number
  }

  /** The wire tags a plan's field can be labeled with. */
  function Tags(p: Plan): set<nat> {
    if p.shape.OneOf? then ArmNumbers(p.shape.arms) else {p.number}
  }

  predicate DistinctArms(arms: seq<Arm>) {
    forall i, j | 0 <= i < j < |arms| :: arms[i].number != arms[j].number
  }

  predicate TagsApart(plans: seq<Plan>) {
    forall i, j | 0 <= i < j < |plans| :: Tags(plans[i]) !! Tags(plans[j])
  }

  /** Field numbers are positive and below the format's bound, no two fields
      share one, only repeated fields are sorted, and a oneof has an arm. */
  predicate WF(t: Type)
    decreases t
  {
    match t
    case Leaf(l) => L.TypeOk(l)
    case Message(plans) => TagsApart(plans) && forall p | p in plans :: WFPlan(p)
  }

  predicate WFPlan(p: Plan)
    decreases p
  {
    && (forall n | n in Tags(p) :: 1 <= n < MAX_FIELD)
    && (p.sortable ==> p.shape.Repeated?)
    && match p.shape
       case OneOf(_, arms) => arms != [] && DistinctArms(arms) && forall a | a in arms :: WF(a.t)
       case _ => WF(p.shape.t)
  }

  // --- Typed messages ---

  predicate Typed(t: Type, d: Datum)
    decreases t, 1
  {
    match (t, d)
    case (Leaf(l), DLeaf(x)) => L.Valid(l, x)
    case (Message(plans), DMessage(slots)) => TypedSlots(plans, slots)
    case _ => false
  }

  predicate TypedSlots(plans: seq<Plan>, slots: seq<Slot>)
    decreases plans, 0
  {
    && |plans| == |slots|
    && (plans != [] ==> TypedSlot(plans[0], slots[0]) && TypedSlots(plans[1..], slots[1..]))
  }

  predicate TypedSlot(p: Plan, s: Slot)
    decreases p
  {
    match (p.shape, s)
    case (Required(t), Single(d)) => Typed(t, d)
    case (Optional(t), Single(d)) => Typed(t, d)
    case (Optional(t), Absent) => true
    case (Repeated(t), Many(ds)) => |ds| < TWO64 && forall d | d in ds :: Typed(t, d)
    case (OneOf(_, arms), Case(k, d)) => k < |arms| && Typed(arms[k].t, d)
    case (OneOf(required, _), Absent) => !required
    case _ => false
  }

  lemma TypedAt(plans: seq<Plan>, slots: seq<Slot>, i: nat)
    requires TypedSlots(plans, slots) && i < |plans|
    ensures TypedSlot(plans[i], slots[i])
  {
    if i > 0 {
      TypedAt(plans[1..], slots[1..], i - 1);
    }
  }

  lemma {:induction false} TypedAll(plans: seq<Plan>, slots: seq<Slot>)
    requires |plans| == |slots| && forall i | 0 <= i < |plans| :: TypedSlot(plans[i], slots[i])
    ensures TypedSlots(plans, slots)
  {
    if plans != [] {
      TypedAll(plans[1..], slots[1..]);
    }
  }

  // --- The canonical order ---

  /** Visible fields in number order, then metadata fields as the tiebreak. */
  function Cmp(t: Type, a: Datum, b: Datum): Ordering
    decreases t, 1
  {
    match (t, a, b)
    case (Leaf(_), DLeaf(x), DLeaf(y)) => L.Cmp(x, y)
    case (Message(plans), DMessage(x), DMessage(y)) =>
      CmpPhase(plans, x, y, false).Then(CmpPhase(plans, x, y, true))
    case _ => Equal
  }

  /** The compare chain over the fields whose metadata flag is `phase`. */
  function CmpPhase(plans: seq<Plan>, a: seq<Slot>, b: seq<Slot>, phase: bool): Ordering
    decreases plans, 0
  {
    if plans == [] || a == [] || b == [] then Equal
    else
      var here := if plans[0].metadata == phase then CmpSlot(plans[0], a[0], b[0]) else Equal;
      here.Then(CmpPhase(plans[1..], a[1..], b[1..], phase))
  }

  /** One field: absent before present, slices element-wise, a oneof by arm
      number and then payload. */
  function CmpSlot(p: Plan, a: Slot, b: Slot): Ordering
    decreases p
  {
    match (p.shape, a, b)
    case (_, Absent, Absent) => Equal
    case (_, Absent, _) => Less
    case (_, _, Absent) => Greater
    case (Required(t), Single(x), Single(y)) => Cmp(t, x, y)
    case (Optional(t), Single(x), Single(y)) => Cmp(t, x, y)
    case (Repeated(t), Many(xs), Many(ys)) => CmpMany(t, xs, ys)
    case (OneOf(_, arms), Case(i, x), Case(j, y)) =>
      if i >= |arms| || j >= |arms| then Equal
      else if i == j then Cmp(arms[i].t, x, y)
      else CmpInt(arms[i].number, arms[j].number)
    case _ => Equal
  }

  function CmpMany(t: Type, a: seq<Datum>, b: seq<Datum>): Ordering
    decreases t, 2, |a|
  {
    if a == [] || b == [] then CmpInt(|a|, |b|)
    else Cmp(t, a[0], b[0]).Then(CmpMany(t, a[1..], b[1..]))
  }

  // --- Visible content ---

  /** The datum with metadata fields erased at every level. */
  function Erase(t: Type, d: Datum): Datum
    decreases t, 1
  {
    match (t, d)
    case (Message(plans), DMessage(slots)) => DMessage(EraseSlots(plans, slots))
    case _ => d
  }

  function EraseSlots(plans: seq<Plan>, slots: seq<Slot>): (r: seq<Slot>)
    ensures |r| == |slots|
    decreases plans, 0
  {
    if plans == [] || slots == [] then slots
    else [if plans[0].metadata then Absent else EraseSlot(plans[0], slots[0])] + EraseSlots(plans[1..], slots[1..])
  }

  function EraseSlot(p: Plan, s: Slot): Slot
    decreases p
  {
    match (p.shape, s)
    case (Required(t), Single(d)) => Single(Erase(t, d))
    case (Optional(t), Single(d)) => Single(Erase(t, d))
    case (Repeated(t), Many(ds)) => Many(EraseMany(t, ds))
    case (OneOf(_, arms), Case(k, d)) => if k < |arms| then Case(k, Erase(arms[k].t, d)) else s
    case _ => s
  }

  function EraseMany(t: Type, ds: seq<Datum>): (r: seq<Datum>)
    ensures |r| == |ds|
    ensures forall i | 0 <= i < |ds| :: r[i] == Erase(t, ds[i])
    decreases t, 2, |ds|
  {
    if ds == [] then [] else [Erase(t, ds[0])] + EraseMany(t, ds[1..])
  }

  // --- The content stream ---

  function DatumBytes(t: Type, d: Datum): seq<byte>
    requires WF(t) && Typed(t, d)
    decreases t, 1
  {
    match t
    case Leaf(l) => L.Stream(l, d.x)
    case Message(plans) => FieldsBytes(plans, d.slots) + VD.End()
  }

  predicate WFPlans(plans: seq<Plan>) {
    TagsApart(plans) && forall p | p in plans :: WFPlan(p)
  }

  function FieldsBytes(plans: seq<Plan>, slots: seq<Slot>): seq<byte>
    requires WFPlans(plans) && TypedSlots(plans, slots)
    decreases plans, 0
  {
    if plans == [] then [] else
    assert WFPlan(plans[0]);
    (if plans[0].metadata then [] else SlotBytes(plans[0], slots[0])) + FieldsBytes(plans[1..], slots[1..])
  }

  function SlotBytes(p: Plan, s: Slot): seq<byte>
    requires WFPlan(p) && TypedSlot(p, s)
    decreases p
  {
    match s
    case Absent => []
    case Single(d) => assert p.number in Tags(p); VD.Tag(p.number) + DatumBytes(p.shape.t, d)
    case Many(ds) => assert p.number in Tags(p); VD.Tag(p.number) + (VD.Count(|ds|) + ManyBytes(p.shape.t, ds))
    case Case(k, d) =>
      var arm := p.shape.arms[k];
      assert arm in p.shape.arms && arm.number in Tags(p);
      VD.Tag(arm.number) + DatumBytes(arm.t, d)
  }

  function ManyBytes(t: Type, ds: seq<Datum>): seq<byte>
    requires WF(t) && forall d | d in ds :: Typed(t, d)
    decreases t, 2, |ds|
  {
    if ds == [] then [] else DatumBytes(t, ds[0]) + ManyBytes(t, ds[1..])
  }
}
