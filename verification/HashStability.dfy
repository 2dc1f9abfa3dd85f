/** Which schemas keep a content hash still under metadata, read off the schema:
    `model/src/canonical.rs` promises it of sorting, and sorting keeps it exactly
    where no field that can vary in metadata alone is compared before content. */
module HashStability {
  import opened Bytes
  import opened Orders
  import opened Schemas
  import opened SchemaOrder
  import opened SchemaDigest
  import opened Canonicalization
  import L = Leaves
  import V = Values

  // --- What can vary, read off the schema ---

  /** Two messages of the type can differ in visible content. */
  predicate ContentVaries(t: Type)
    decreases t
  {
    match t
    case Leaf(_) => true
    case Message(plans) => exists p | p in plans :: !p.metadata && ContentVariesIn(p)
  }

  predicate ContentVariesIn(p: Plan)
    decreases p
  {
    match p.shape
    case Required(t) => ContentVaries(t)
    case OneOf(required, arms) => !required || |arms| > 1 || exists a | a in arms :: ContentVaries(a.t)
    case _ => true
  }

  /** Two messages of the type can differ in metadata alone. */
  predicate MetadataVaries(t: Type)
    decreases t
  {
    t.Message? && exists p | p in t.plans ::
      if p.metadata then ContentVariesIn(p) || MetadataVariesIn(p) else MetadataVariesIn(p)
  }

  predicate MetadataVariesIn(p: Plan)
    decreases p
  {
    match p.shape
    case OneOf(_, arms) => exists a | a in arms :: MetadataVaries(a.t)
    case _ => MetadataVaries(p.shape.t)
  }

  /** A visible field that can vary in metadata alone is compared before one whose
      content can vary, here or inside a field; and a list's next element or end
      comes after every element. */
  predicate Interleaved(t: Type)
    decreases t
  {
    t.Message? &&
    (|| (exists p | p in t.plans :: !p.metadata && InterleavedIn(p))
     || FieldsInterleaved(t.plans))
  }

  predicate InterleavedIn(p: Plan)
    decreases p
  {
    match p.shape
    case Repeated(t) => MetadataVaries(t)
    case OneOf(_, arms) => exists a | a in arms :: Interleaved(a.t)
    case _ => Interleaved(p.shape.t)
  }

  predicate FieldsInterleaved(plans: seq<Plan>) {
    exists i, j | 0 <= i < j < |plans| ::
      !plans[i].metadata && !plans[j].metadata && MetadataVariesIn(plans[i]) && ContentVariesIn(plans[j])
  }

  // --- Every type has a value ---

  function SampleLeaf(l: L.LeafType): L.LeafValue {
    match l
    case TText => L.LText([])
    case TBool => L.LBool(false)
    case TU64 => L.LU64(0)
    case TEnum(known) => L.LEnum(if 1 in known then L.Recognized(1) else L.Unrecognized(1))
    case TMap => L.LMap([])
    case TValue => L.LValue(V.Scalar(V.Null))
    case TTime => L.LTime(V.Timestamp(0, 0))
    case TNumeric => L.LNumeric(V.NumericValue.Int(0))
  }

  function OtherLeaf(l: L.LeafType): L.LeafValue {
    match l
    case TText => L.LText([0])
    case TBool => L.LBool(true)
    case TU64 => L.LU64(1)
    case TEnum(known) => L.LEnum(if 2 in known then L.Recognized(2) else L.Unrecognized(2))
    case TMap => L.LMap([V.Entry([0], V.Scalar(V.Null))])
    case TValue => L.LValue(V.Scalar(V.Bool(true)))
    case TTime => L.LTime(V.Timestamp(1, 0))
    case TNumeric => L.LNumeric(V.NumericValue.Int(1))
  }

  lemma {:induction false} LeavesVary(l: L.LeafType)
    requires L.TypeOk(l)
    ensures L.Valid(l, SampleLeaf(l)) && L.Valid(l, OtherLeaf(l)) && SampleLeaf(l) != OtherLeaf(l)
  {
  }

  function Sample(t: Type): (d: Datum)
    requires WF(t)
    decreases t, 1
  {
    match t
    case Leaf(l) => DLeaf(SampleLeaf(l))
    case Message(plans) => DMessage(SampleSlots(plans))
  }

  function SampleSlots(plans: seq<Plan>): (slots: seq<Slot>)
    requires forall p | p in plans :: WFPlan(p)
    ensures |slots| == |plans|
    decreases plans, 0
  {
    if plans == [] then [] else [SampleSlot(plans[0])] + SampleSlots(plans[1..])
  }

  function SampleSlot(p: Plan): Slot
    requires WFPlan(p)
    decreases p
  {
    match p.shape
    case Required(t) => Single(Sample(t))
    case Optional(_) => Absent
    case Repeated(_) => Many([])
    case OneOf(_, arms) => Case(0, Sample(arms[0].t))
  }

  lemma {:induction false} SampleTyped(t: Type)
    requires WF(t)
    ensures Typed(t, Sample(t))
    decreases t, 1
  {
    match t {
      case Leaf(l) => LeavesVary(l);
      case Message(plans) => SampleSlotsTyped(plans);
    }
  }

  lemma {:induction false} SampleSlotsTyped(plans: seq<Plan>)
    requires forall p | p in plans :: WFPlan(p)
    ensures TypedSlots(plans, SampleSlots(plans))
    decreases plans, 0
  {
    if plans != [] {
      SampleSlotTyped(plans[0]);
      SampleSlotsTyped(plans[1..]);
    }
  }

  lemma {:induction false} SampleSlotTyped(p: Plan)
    requires WFPlan(p)
    ensures TypedSlot(p, SampleSlot(p))
    decreases p
  {
    match p.shape {
      case Required(t) => SampleTyped(t);
      case OneOf(_, arms) =>
        assert arms[0] in arms;
        SampleTyped(arms[0].t);
      case _ =>
    }
  }

  /** A sample message with one field chosen. */
  function With(plans: seq<Plan>, i: nat, s: Slot): (slots: seq<Slot>)
    requires i < |plans| && forall p | p in plans :: WFPlan(p)
    ensures |slots| == |plans|
  {
    SampleSlots(plans)[i := s]
  }

  lemma WithBoth(plans: seq<Plan>, i: nat, x: Slot, y: Slot)
    requires i < |plans| && forall p | p in plans :: WFPlan(p)
    ensures With(plans, i, x)[i] == x && With(plans, i, y)[i] == y
    ensures forall k | 0 <= k < |plans| && k != i :: With(plans, i, x)[k] == With(plans, i, y)[k]
  {
    hide WFPlan;
  }

  lemma {:induction false} WithTyped(plans: seq<Plan>, i: nat, s: Slot)
    requires i < |plans| && (forall p | p in plans :: WFPlan(p)) && TypedSlot(plans[i], s)
    ensures TypedSlots(plans, With(plans, i, s))
  {
    var slots := SampleSlots(plans);
    SampleSlotsTyped(plans);
    forall k | 0 <= k < |plans| ensures TypedSlot(plans[k], With(plans, i, s)[k]) {
      if k != i {
        TypedAt(plans, slots, k);
      }
    }
    TypedAll(plans, With(plans, i, s));
  }

  lemma {:induction false} ErasedPointwise(plans: seq<Plan>, a: seq<Slot>, b: seq<Slot>)
    requires |plans| == |a| == |b|
    ensures EraseSlots(plans, a) == EraseSlots(plans, b) <==>
            forall k | 0 <= k < |plans| && !plans[k].metadata :: EraseSlot(plans[k], a[k]) == EraseSlot(plans[k], b[k])
  {
    ErasedSlotsAgree(plans, a, b);
  }

  // --- The predicates say what they mean ---

  lemma {:induction false} TwoContents(t: Type) returns (a: Datum, b: Datum)
    requires WF(t) && ContentVaries(t)
    ensures Typed(t, a) && Typed(t, b) && Erase(t, a) != Erase(t, b)
    decreases t
  {
    match t {
      case Leaf(l) =>
        LeavesVary(l);
        a, b := DLeaf(SampleLeaf(l)), DLeaf(OtherLeaf(l));
      case Message(plans) =>
        var i :| 0 <= i < |plans| && !plans[i].metadata && ContentVariesIn(plans[i]);
        assert WFPlan(plans[i]);
        var x, y := TwoContentsIn(plans[i]);
        WithTyped(plans, i, x);
        WithTyped(plans, i, y);
        a, b := DMessage(With(plans, i, x)), DMessage(With(plans, i, y));
        ErasedPointwise(plans, a.slots, b.slots);
    }
  }

  lemma {:induction false} TwoContentsIn(p: Plan) returns (x: Slot, y: Slot)
    requires WFPlan(p) && ContentVariesIn(p)
    ensures TypedSlot(p, x) && TypedSlot(p, y) && EraseSlot(p, x) != EraseSlot(p, y)
    decreases p
  {
    match p.shape {
      case Required(t) =>
        var a, b := TwoContents(t);
        x, y := Single(a), Single(b);
      case Optional(t) =>
        SampleTyped(t);
        x, y := Absent, Single(Sample(t));
      case Repeated(t) =>
        SampleTyped(t);
        x, y := Many([]), Many([Sample(t)]);
        assert |EraseMany(t, [])| != |EraseMany(t, [Sample(t)])|;
      case OneOf(required, arms) =>
        assert arms[0] in arms;
        SampleTyped(arms[0].t);
        x := Case(0, Sample(arms[0].t));
        if !required {
          y := Absent;
        } else if |arms| > 1 {
          assert arms[1] in arms;
          SampleTyped(arms[1].t);
          y := Case(1, Sample(arms[1].t));
        } else {
          var k :| 0 <= k < |arms| && ContentVaries(arms[k].t);
          var a, b := TwoContents(arms[k].t);
          x, y := Case(k, a), Case(k, b);
        }
    }
  }

  lemma {:induction false} TwoMetadata(t: Type) returns (a: Datum, b: Datum)
    requires WF(t) && MetadataVaries(t)
    ensures Typed(t, a) && Typed(t, b) && Erase(t, a) == Erase(t, b) && a != b
    decreases t
  {
    var plans := t.plans;
    var i :| 0 <= i < |plans| &&
             if plans[i].metadata then ContentVariesIn(plans[i]) || MetadataVariesIn(plans[i])
             else MetadataVariesIn(plans[i]);
    assert WFPlan(plans[i]);
    var x, y;
    if MetadataVariesIn(plans[i]) {
      x, y := TwoMetadataIn(plans[i]);
    } else {
      x, y := TwoContentsIn(plans[i]);
    }
    hide TypedSlot, EraseSlot, WFPlan, MetadataVariesIn, ContentVariesIn, Typed, Erase;
    a, b := DMessage(With(plans, i, x)), DMessage(With(plans, i, y));
    ContentKept(plans, i, x, y);
  }

  lemma ContentKept(plans: seq<Plan>, i: nat, x: Slot, y: Slot)
    requires i < |plans| && (forall p | p in plans :: WFPlan(p)) && TypedSlot(plans[i], x) && TypedSlot(plans[i], y)
    requires x != y && (plans[i].metadata || EraseSlot(plans[i], x) == EraseSlot(plans[i], y))
    ensures var (a, b) := (DMessage(With(plans, i, x)), DMessage(With(plans, i, y)));
            && Typed(Message(plans), a) && Typed(Message(plans), b)
            && Erase(Message(plans), a) == Erase(Message(plans), b) && a != b
  {
    hide TypedSlot, EraseSlot, EraseSlots, WFPlan, With;
    WithTyped(plans, i, x);
    WithTyped(plans, i, y);
    WithBoth(plans, i, x, y);
    ErasedPointwise(plans, With(plans, i, x), With(plans, i, y));
  }

  lemma {:induction false} TwoMetadataIn(p: Plan) returns (x: Slot, y: Slot)
    requires WFPlan(p) && MetadataVariesIn(p)
    ensures TypedSlot(p, x) && TypedSlot(p, y) && EraseSlot(p, x) == EraseSlot(p, y) && x != y
    decreases p
  {
    hide Typed, Erase, WF, MetadataVaries;
    match p.shape {
      case Required(t) =>
        var a, b := TwoMetadata(t);
        x, y := Single(a), Single(b);
      case Optional(t) =>
        var a, b := TwoMetadata(t);
        x, y := Single(a), Single(b);
      case Repeated(t) =>
        var a, b := TwoMetadata(t);
        x, y := Many([a]), Many([b]);
        assert EraseMany(t, [a]) == EraseMany(t, [b]);
        assert [a][0] != [b][0];
      case OneOf(_, arms) =>
        var k :| 0 <= k < |arms| && MetadataVaries(arms[k].t);
        assert arms[k] in arms;
        var a, b := TwoMetadata(arms[k].t);
        x, y := Case(k, a), Case(k, b);
    }
  }

  lemma {:induction false} ContentsDiffer(t: Type, a: Datum, b: Datum)
    requires WF(t) && Typed(t, a) && Typed(t, b) && Erase(t, a) != Erase(t, b)
    ensures ContentVaries(t)
    decreases t
  {
    if t.Message? {
      var plans := t.plans;
      ErasedPointwise(plans, a.slots, b.slots);
      var k :| 0 <= k < |plans| && !plans[k].metadata
          && EraseSlot(plans[k], a.slots[k]) != EraseSlot(plans[k], b.slots[k]);
      TypedAt(plans, a.slots, k);
      TypedAt(plans, b.slots, k);
      assert plans[k] in plans && WFPlan(plans[k]);
      ContentsDifferIn(plans[k], a.slots[k], b.slots[k]);
    }
  }

  lemma {:induction false} ContentsDifferIn(p: Plan, x: Slot, y: Slot)
    requires WFPlan(p) && TypedSlot(p, x) && TypedSlot(p, y) && EraseSlot(p, x) != EraseSlot(p, y)
    ensures ContentVariesIn(p)
    decreases p
  {
    match (p.shape, x, y) {
      case (Required(t), Single(a), Single(b)) => ContentsDiffer(t, a, b);
      case (OneOf(_, arms), Case(i, a), Case(j, b)) =>
        assert arms[i] in arms;
        if i == j {
          ContentsDiffer(arms[i].t, a, b);
        }
      case _ =>
    }
  }

  lemma {:induction false} OnlyMetadataDiffers(t: Type, a: Datum, b: Datum)
    requires WF(t) && Typed(t, a) && Typed(t, b) && Erase(t, a) == Erase(t, b) && a != b
    ensures MetadataVaries(t)
    decreases t, 0
  {
    var plans := t.plans;
    assert a.slots != b.slots;
    var k :| 0 <= k < |plans| && a.slots[k] != b.slots[k];
    TypedAt(plans, a.slots, k);
    TypedAt(plans, b.slots, k);
    assert plans[k] in plans && WFPlan(plans[k]);
    ErasedPointwise(plans, a.slots, b.slots);
    if plans[k].metadata && EraseSlot(plans[k], a.slots[k]) != EraseSlot(plans[k], b.slots[k]) {
      ContentsDifferIn(plans[k], a.slots[k], b.slots[k]);
    } else {
      OnlyMetadataDiffersIn(plans[k], a.slots[k], b.slots[k]);
    }
  }

  lemma {:induction false} OnlyMetadataDiffersIn(p: Plan, x: Slot, y: Slot)
    requires WFPlan(p) && TypedSlot(p, x) && TypedSlot(p, y) && EraseSlot(p, x) == EraseSlot(p, y) && x != y
    ensures MetadataVariesIn(p)
    decreases p
  {
    match (p.shape, x, y) {
      case (Required(t), Single(a), Single(b)) => OnlyMetadataDiffers(t, a, b);
      case (Optional(t), Single(a), Single(b)) => OnlyMetadataDiffers(t, a, b);
      case (Repeated(t), Many(xs), Many(ys)) =>
        assert |xs| == |EraseMany(t, xs)| == |ys|;
        var k :| 0 <= k < |xs| && xs[k] != ys[k];
        assert EraseMany(t, xs)[k] == EraseMany(t, ys)[k];
        OnlyMetadataDiffers(t, xs[k], ys[k]);
      case (OneOf(_, arms), Case(i, a), Case(j, b)) =>
        assert arms[i] in arms;
        OnlyMetadataDiffers(arms[i].t, a, b);
      case _ =>
    }
  }

  // --- Not interleaved: the order follows content ---

  lemma {:induction false} OrderKept(t: Type, a: Datum, b: Datum, c: Datum, d: Datum)
    requires WF(t) && !Interleaved(t)
    requires Typed(t, a) && Typed(t, b) && Typed(t, c) && Typed(t, d)
    requires Erase(t, a) == Erase(t, c) && Erase(t, b) == Erase(t, d) && Erase(t, a) != Erase(t, b)
    ensures Cmp(t, a, b) == Cmp(t, c, d)
    decreases t, 1
  {
    if t.Message? {
      PhaseKept(t.plans, a.slots, b.slots, c.slots, d.slots);
    }
  }

  lemma {:induction false} PhaseKept(plans: seq<Plan>, a: seq<Slot>, b: seq<Slot>, c: seq<Slot>, d: seq<Slot>)
    requires forall p | p in plans :: WFPlan(p) && (p.metadata || !InterleavedIn(p))
    requires !FieldsInterleaved(plans)
    requires TypedSlots(plans, a) && TypedSlots(plans, b) && TypedSlots(plans, c) && TypedSlots(plans, d)
    requires EraseSlots(plans, a) == EraseSlots(plans, c) && EraseSlots(plans, b) == EraseSlots(plans, d)
    requires EraseSlots(plans, a) != EraseSlots(plans, b)
    ensures CmpPhase(plans, a, b, false) == CmpPhase(plans, c, d, false) != Equal
    decreases plans, 0
  {
    ErasedPointwise(plans, a, c);
    ErasedPointwise(plans, b, d);
    if plans != [] {
      var p := plans[0];
      assert WFPlan(p);
      if !p.metadata && EraseSlot(p, a[0]) != EraseSlot(p, b[0]) {
        SlotKept(p, a[0], b[0], c[0], d[0]);
        CmpSlotEqual(p, a[0], b[0]);
      } else {
        ErasedTails(plans, a, c);
        ErasedTails(plans, b, d);
        ErasedTails(plans, a, b);
        TailFieldsApart(plans);
        PhaseKept(plans[1..], a[1..], b[1..], c[1..], d[1..]);
        if !p.metadata {
          TailContent(plans, a, b);
          SameUnlessMetadata(p, a[0], b[0]);
          SameUnlessMetadata(p, c[0], d[0]);
          CmpSlotEqual(p, a[0], b[0]);
          CmpSlotEqual(p, c[0], d[0]);
        }
      }
    }
  }

  lemma {:induction false} ErasedTails(plans: seq<Plan>, a: seq<Slot>, b: seq<Slot>)
    requires plans != [] && |plans| == |a| == |b|
    ensures EraseSlots(plans, a) == EraseSlots(plans, b) <==>
            && (!plans[0].metadata ==> EraseSlot(plans[0], a[0]) == EraseSlot(plans[0], b[0]))
            && EraseSlots(plans[1..], a[1..]) == EraseSlots(plans[1..], b[1..])
  {
    var (ea, eb) := (EraseSlots(plans, a), EraseSlots(plans, b));
    assert ea == [ea[0]] + ea[1..] && eb == [eb[0]] + eb[1..];
  }

  lemma {:induction false} TailFieldsApart(plans: seq<Plan>)
    requires plans != [] && !FieldsInterleaved(plans)
    ensures !FieldsInterleaved(plans[1..])
  {
    var rest := plans[1..];
    forall i, j | 0 <= i < j < |rest| && !rest[i].metadata && !rest[j].metadata
      ensures !(MetadataVariesIn(rest[i]) && ContentVariesIn(rest[j]))
    {
      assert rest[i] == plans[i + 1] && rest[j] == plans[j + 1];
    }
  }

  /** Content differing later means the first field cannot vary in metadata. */
  lemma {:induction false} TailContent(plans: seq<Plan>, a: seq<Slot>, b: seq<Slot>)
    requires plans != [] && (forall p | p in plans :: WFPlan(p)) && !FieldsInterleaved(plans) && !plans[0].metadata
    requires TypedSlots(plans, a) && TypedSlots(plans, b)
    requires EraseSlots(plans[1..], a[1..]) != EraseSlots(plans[1..], b[1..])
    ensures !MetadataVariesIn(plans[0])
  {
    var rest := plans[1..];
    ErasedPointwise(rest, a[1..], b[1..]);
    var k :| 0 <= k < |rest| && !rest[k].metadata && EraseSlot(rest[k], a[1..][k]) != EraseSlot(rest[k], b[1..][k]);
    TypedAt(plans, a, k + 1);
    TypedAt(plans, b, k + 1);
    assert plans[k + 1] in plans && rest[k] == plans[k + 1];
    ContentsDifferIn(plans[k + 1], a[k + 1], b[k + 1]);
  }

  lemma {:induction false} SameUnlessMetadata(p: Plan, x: Slot, y: Slot)
    requires WFPlan(p) && TypedSlot(p, x) && TypedSlot(p, y) && EraseSlot(p, x) == EraseSlot(p, y)
             && !MetadataVariesIn(p)
    ensures x == y
  {
    if x != y {
      OnlyMetadataDiffersIn(p, x, y);
    }
  }

  lemma {:induction false} SlotKept(p: Plan, a: Slot, b: Slot, c: Slot, d: Slot)
    requires WFPlan(p) && !InterleavedIn(p)
    requires TypedSlot(p, a) && TypedSlot(p, b) && TypedSlot(p, c) && TypedSlot(p, d)
    requires EraseSlot(p, a) == EraseSlot(p, c) && EraseSlot(p, b) == EraseSlot(p, d)
             && EraseSlot(p, a) != EraseSlot(p, b)
    ensures CmpSlot(p, a, b) == CmpSlot(p, c, d)
    decreases p
  {
    match p.shape {
      case Required(t) => OrderKept(t, a.d, b.d, c.d, d.d);
      case Optional(t) =>
        if a.Single? && b.Single? {
          OrderKept(t, a.d, b.d, c.d, d.d);
        }
      case Repeated(t) =>
        SameUnlessMetadata(p, a, c);
        SameUnlessMetadata(p, b, d);
      case OneOf(_, arms) =>
        if a.Case? && b.Case? && a.arm == b.arm {
          assert arms[a.arm] in arms;
          OrderKept(arms[a.arm].t, a.d, b.d, c.d, d.d);
        }
    }
  }

  // --- Interleaved: two orders of the same two contents ---

  /** Four values in two pairs of the same contents, ordered differently. */
  ghost predicate Disagree(t: Type, a: Datum, b: Datum, c: Datum, d: Datum) {
    && Typed(t, a) && Typed(t, b) && Typed(t, c) && Typed(t, d)
    && Erase(t, a) == Erase(t, c) && Erase(t, b) == Erase(t, d) && Erase(t, a) != Erase(t, b)
    && Cmp(t, a, b) != Cmp(t, c, d)
  }

  ghost predicate DisagreeIn(p: Plan, a: Slot, b: Slot, c: Slot, d: Slot) {
    && TypedSlot(p, a) && TypedSlot(p, b) && TypedSlot(p, c) && TypedSlot(p, d)
    && EraseSlot(p, a) == EraseSlot(p, c) && EraseSlot(p, b) == EraseSlot(p, d) && EraseSlot(p, a) != EraseSlot(p, b)
    && CmpSlot(p, a, b) != CmpSlot(p, c, d)
  }

  /** The first field two messages differ in decides their order. */
  lemma {:induction false} PhaseDecides(plans: seq<Plan>, a: seq<Slot>, b: seq<Slot>, i: nat)
    requires (forall p | p in plans :: WFPlan(p)) && TypedSlots(plans, a) && TypedSlots(plans, b)
    requires i < |plans| && !plans[i].metadata && a[..i] == b[..i] && a[i] != b[i]
    ensures CmpPhase(plans, a, b, false) == CmpSlot(plans[i], a[i], b[i]) != Equal
  {
    assert WFPlan(plans[0]) && WFPlan(plans[i]);
    if i == 0 {
      CmpSlotEqual(plans[0], a[0], b[0]);
    } else {
      assert a[0] == a[..i][0] == b[..i][0] == b[0];
      CmpSlotEqual(plans[0], a[0], b[0]);
      assert a[1..][..i - 1] == a[..i][1..] && b[1..][..i - 1] == b[..i][1..];
      PhaseDecides(plans[1..], a[1..], b[1..], i - 1);
    }
  }

  lemma {:induction false} Entangled(t: Type) returns (a: Datum, b: Datum, c: Datum, d: Datum)
    requires WF(t) && Interleaved(t)
    ensures Disagree(t, a, b, c, d)
    decreases t
  {
    var plans := t.plans;
    if FieldsInterleaved(plans) {
      a, b, c, d := EntangledFields(plans);
    } else {
      var i :| 0 <= i < |plans| && !plans[i].metadata && InterleavedIn(plans[i]);
      assert WFPlan(plans[i]);
      var w, x, y, z := EntangledIn(plans[i]);
      a, b, c, d := Lifted(plans, i, w, x, y, z);
    }
  }

  lemma {:induction false} Lifted(plans: seq<Plan>, i: nat, w: Slot, x: Slot, y: Slot, z: Slot)
    returns (a: Datum, b: Datum, c: Datum, d: Datum)
    requires (forall p | p in plans :: WFPlan(p)) && i < |plans| && !plans[i].metadata
             && DisagreeIn(plans[i], w, x, y, z)
    ensures Disagree(Message(plans), a, b, c, d)
  {
    hide Typed, TypedSlot, TypedSlots, EraseSlots, EraseSlot, CmpSlot, CmpPhase, WFPlan, With, Disagree;
    WithTyped(plans, i, w);
    WithTyped(plans, i, x);
    WithTyped(plans, i, y);
    WithTyped(plans, i, z);
    WithBoth(plans, i, w, x);
    WithBoth(plans, i, w, y);
    WithBoth(plans, i, x, z);
    WithBoth(plans, i, y, z);
    var (aw, bx, cy, dz) := (With(plans, i, w), With(plans, i, x), With(plans, i, y), With(plans, i, z));
    ErasedPointwise(plans, aw, cy);
    ErasedPointwise(plans, bx, dz);
    ErasedPointwise(plans, aw, bx);
    assert aw[..i] == bx[..i] && cy[..i] == dz[..i];
    PhaseDecides(plans, aw, bx, i);
    PhaseDecides(plans, cy, dz, i);
    a, b, c, d := DMessage(aw), DMessage(bx), DMessage(cy), DMessage(dz);
    LiftedFacts(plans, aw, bx, cy, dz);
  }

  lemma {:induction false} LiftedFacts(plans: seq<Plan>, a: seq<Slot>, b: seq<Slot>, c: seq<Slot>, d: seq<Slot>)
    requires TypedSlots(plans, a) && TypedSlots(plans, b) && TypedSlots(plans, c) && TypedSlots(plans, d)
    requires EraseSlots(plans, a) == EraseSlots(plans, c) && EraseSlots(plans, b) == EraseSlots(plans, d)
    requires EraseSlots(plans, a) != EraseSlots(plans, b)
    requires CmpPhase(plans, a, b, false) != CmpPhase(plans, c, d, false)
    requires CmpPhase(plans, a, b, false) != Equal && CmpPhase(plans, c, d, false) != Equal
    ensures Disagree(Message(plans), DMessage(a), DMessage(b), DMessage(c), DMessage(d))
  {
    UnfoldMessage(plans, a, b);
    UnfoldMessage(plans, c, d);
    hide Typed, Erase, Cmp, TypedSlots, EraseSlots, CmpPhase;
  }

  lemma {:induction false} UnfoldMessage(plans: seq<Plan>, a: seq<Slot>, b: seq<Slot>)
    ensures Typed(Message(plans), DMessage(a)) <==> TypedSlots(plans, a)
    ensures Typed(Message(plans), DMessage(b)) <==> TypedSlots(plans, b)
    ensures Erase(Message(plans), DMessage(a)) == DMessage(EraseSlots(plans, a))
    ensures Erase(Message(plans), DMessage(b)) == DMessage(EraseSlots(plans, b))
    ensures CmpPhase(plans, a, b, false) != Equal ==>
              Cmp(Message(plans), DMessage(a), DMessage(b)) == CmpPhase(plans, a, b, false)
  {
    hide TypedSlots, EraseSlots, CmpPhase;
  }

  lemma {:induction false} EntangledFields(plans: seq<Plan>) returns (a: Datum, b: Datum, c: Datum, d: Datum)
    requires (forall p | p in plans :: WFPlan(p)) && FieldsInterleaved(plans)
    ensures Disagree(Message(plans), a, b, c, d)
  {
    var i, j :| 0 <= i < j < |plans| &&
                !plans[i].metadata && !plans[j].metadata && MetadataVariesIn(plans[i]) && ContentVariesIn(plans[j]);
    assert WFPlan(plans[i]) && WFPlan(plans[j]);
    var x, y := TwoMetadataIn(plans[i]);
    var u, v := TwoContentsIn(plans[j]);
    var (xu, yv) := (Two(plans, i, x, j, u), Two(plans, i, y, j, v));
    var (yu, xv) := (Two(plans, i, y, j, u), Two(plans, i, x, j, v));
    hide Typed, TypedSlot, TypedSlots, EraseSlots, EraseSlot, CmpSlot, CmpPhase, WFPlan, FieldsInterleaved, Disagree;
    SameContents(plans, xu, yu, i);
    SameContents(plans, yv, xv, i);
    OtherContents(plans, xu, yv, j);
    PhaseDecides(plans, xu, yv, i);
    PhaseDecides(plans, yu, xv, i);
    CmpSlotFlip(plans[i], x, y);
    LiftedFacts(plans, xu, yv, yu, xv);
    a, b, c, d := DMessage(xu), DMessage(yv), DMessage(yu), DMessage(xv);
  }

  lemma {:induction false} SameContents(plans: seq<Plan>, a: seq<Slot>, b: seq<Slot>, i: nat)
    requires |plans| == |a| == |b| && i < |plans| && a[i := b[i]] == b
             && EraseSlot(plans[i], a[i]) == EraseSlot(plans[i], b[i])
    ensures EraseSlots(plans, a) == EraseSlots(plans, b)
  {
    hide EraseSlot, EraseSlots;
    ErasedPointwise(plans, a, b);
    assert forall k | 0 <= k < |plans| && k != i :: a[k] == a[i := b[i]][k];
  }

  lemma {:induction false} OtherContents(plans: seq<Plan>, a: seq<Slot>, b: seq<Slot>, j: nat)
    requires |plans| == |a| == |b| && j < |plans| && !plans[j].metadata
             && EraseSlot(plans[j], a[j]) != EraseSlot(plans[j], b[j])
    ensures EraseSlots(plans, a) != EraseSlots(plans, b)
  {
    hide EraseSlot, EraseSlots;
    ErasedPointwise(plans, a, b);
  }

  /** A sample message with two fields chosen. */
  ghost function Two(plans: seq<Plan>, i: nat, x: Slot, j: nat, u: Slot): (slots: seq<Slot>)
    requires i < j < |plans| && (forall p | p in plans :: WFPlan(p))
    requires TypedSlot(plans[i], x) && TypedSlot(plans[j], u)
    ensures |slots| == |plans| && slots[i] == x && slots[j] == u && TypedSlots(plans, slots)
    ensures slots[..i] == SampleSlots(plans)[..i]
    ensures forall y: Slot | TypedSlot(plans[i], y) :: slots[i := y] == SampleSlots(plans)[i := y][j := u]
    ensures slots == SampleSlots(plans)[i := x][j := u]
  {
    TwoFieldsTyped(plans, i, x, j, u);
    With(plans, i, x)[j := u]
  }

  lemma {:induction false} TwoFieldsTyped(plans: seq<Plan>, i: nat, x: Slot, j: nat, u: Slot)
    requires i < |plans| && j < |plans| && (forall p | p in plans :: WFPlan(p))
    requires TypedSlot(plans[i], x) && TypedSlot(plans[j], u)
    ensures TypedSlots(plans, With(plans, i, x)[j := u])
  {
    var slots := With(plans, i, x);
    WithTyped(plans, i, x);
    forall k | 0 <= k < |plans| ensures TypedSlot(plans[k], slots[j := u][k]) {
      if k != j {
        TypedAt(plans, slots, k);
      }
    }
    TypedAll(plans, slots[j := u]);
  }

  lemma {:induction false} EntangledIn(p: Plan) returns (w: Slot, x: Slot, y: Slot, z: Slot)
    requires WFPlan(p) && InterleavedIn(p)
    ensures DisagreeIn(p, w, x, y, z)
    decreases p
  {
    hide Disagree, DisagreeIn, WF, Interleaved;
    match p.shape {
      case Repeated(t) => w, x, y, z := EntangledLists(p, t);
      case OneOf(_, arms) =>
        var k :| 0 <= k < |arms| && Interleaved(arms[k].t);
        assert arms[k] in arms;
        var a, b, c, d := Entangled(arms[k].t);
        CasesDisagree(p, k, a, b, c, d);
        w, x, y, z := Case(k, a), Case(k, b), Case(k, c), Case(k, d);
      case _ =>
        var a, b, c, d := Entangled(p.shape.t);
        SinglesDisagree(p, p.shape.t, a, b, c, d);
        w, x, y, z := Single(a), Single(b), Single(c), Single(d);
    }
  }

  lemma SinglesDisagree(p: Plan, t: Type, a: Datum, b: Datum, c: Datum, d: Datum)
    requires (p.shape == Required(t) || p.shape == Optional(t)) && Disagree(t, a, b, c, d)
    ensures DisagreeIn(p, Single(a), Single(b), Single(c), Single(d))
  {
    hide Typed, Erase, Cmp;
  }

  lemma CasesDisagree(p: Plan, k: nat, a: Datum, b: Datum, c: Datum, d: Datum)
    requires p.shape.OneOf? && k < |p.shape.arms| && Disagree(p.shape.arms[k].t, a, b, c, d)
    ensures DisagreeIn(p, Case(k, a), Case(k, b), Case(k, c), Case(k, d))
  {
    hide Typed, Erase, Cmp;
  }

  /** One element against two of the same content: the first element's metadata
      is compared before the lengths. The lists are themselves in order. */
  lemma {:induction false} EntangledLists(p: Plan, t: Type) returns (w: Slot, x: Slot, y: Slot, z: Slot)
    requires WFPlan(p) && p.shape == Repeated(t) && MetadataVaries(t)
    ensures DisagreeIn(p, w, x, y, z)
  {
    hide Typed, Erase, Cmp, WF, EraseMany, CmpMany, MetadataVaries;
    var a, b := TwoMetadata(t);
    CmpEqual(t, a, b);
    CmpFlip(t, a, b);
    ListsErased(t, a, b);
    ListsCompared(t, a, b);
    w, x, y, z := Many([a]), Many([b, b]), Many([b]), Many([a, b]);
  }

  lemma {:induction false} ListsErased(t: Type, a: Datum, b: Datum)
    requires Erase(t, a) == Erase(t, b)
    ensures EraseMany(t, [a]) == EraseMany(t, [b]) && EraseMany(t, [b, b]) == EraseMany(t, [a, b])
    ensures EraseMany(t, [a]) != EraseMany(t, [b, b])
  {
    hide Erase, EraseMany;
    assert |EraseMany(t, [a])| != |EraseMany(t, [b, b])|;
  }

  lemma {:induction false} ListsCompared(t: Type, a: Datum, b: Datum)
    requires Cmp(t, a, b) != Equal && Cmp(t, b, a) != Equal
    ensures CmpMany(t, [a], [b, b]) == Cmp(t, a, b) && CmpMany(t, [b], [a, b]) == Cmp(t, b, a)
  {
    hide Cmp;
  }

  // --- The exact conditions ---

  /** The order of elements follows their content exactly for schemas in which
      nothing that varies in metadata alone is compared before content. */
  lemma {:induction false} OrderFollowsContentExactly(t: Type)
    requires WF(t)
    ensures OrderFollowsContent(t) <==> !Interleaved(t)
  {
    if Interleaved(t) {
      var a, b, c, d := Entangled(t);
    } else {
      forall a, b, c, d |
        && Typed(t, a) && Typed(t, b) && Typed(t, c) && Typed(t, d)
        && Erase(t, a) == Erase(t, c) && Erase(t, b) == Erase(t, d) && Erase(t, a) != Erase(t, b)
        ensures Cmp(t, a, b) == Cmp(t, c, d)
      {
        OrderKept(t, a, b, c, d);
      }
    }
  }

  /** Hence the source's promise of sorting, at the schemas it holds for. */
  lemma {:induction false} SortingKeepsContentExactly(t: Type)
    requires WF(t)
    ensures SortIgnoresMetadata(t) <==> !Interleaved(t)
  {
    SortIgnoresMetadataExactly(t);
    OrderFollowsContentExactly(t);
  }

  /** No visible sorted field's element is interleaved. */
  predicate SortedFieldsApart(plans: seq<Plan>) {
    forall p | p in plans && !p.metadata && p.sortable && p.shape.Repeated? :: !Interleaved(p.shape.t)
  }

  function Stream(plans: seq<Plan>, slots: seq<Slot>): seq<byte>
    requires WFPlans(plans) && TypedSlots(plans, slots)
  {
    CanonicalTyped(plans, slots);
    DatumBytes(Message(plans), DMessage(CanonicalSlots(plans, slots)))
  }

  /** Constructed messages feed equal streams exactly when they have the same
      visible content. */
  ghost predicate HashIsContent(plans: seq<Plan>)
    requires WFPlans(plans)
  {
    forall a, b | TypedSlots(plans, a) && TypedSlots(plans, b) ::
      SameContent(plans, a, b) <==> Stream(plans, a) == Stream(plans, b)
  }

  lemma {:induction false} HashFollows(plans: seq<Plan>)
    requires WFPlans(plans) && SortedFieldsApart(plans)
    ensures HashIsContent(plans)
  {
    forall p | p in plans && !p.metadata && p.sortable && p.shape.Repeated? ensures OrderFollowsContent(p.shape.t) {
      assert WFPlan(p);
      OrderFollowsContentExactly(p.shape.t);
    }
    forall a, b | TypedSlots(plans, a) && TypedSlots(plans, b)
      ensures SameContent(plans, a, b) <==> Stream(plans, a) == Stream(plans, b)
    {
      ContentHashExact(plans, a, b);
    }
  }

  lemma SameItself(p: Plan, s: Slot)
    ensures SameField(p, s, s)
  {
  }

  lemma {:induction false} EntangledElements(p: Plan) returns (w: Datum, x: Datum, y: Datum, z: Datum)
    requires WFPlan(p) && p.shape.Repeated? && Interleaved(p.shape.t)
    ensures TypedSlot(p, Many([x, w])) && TypedSlot(p, Many([z, y]))
    ensures multiset(EraseMany(p.shape.t, [x, w])) == multiset(EraseMany(p.shape.t, [z, y]))
    ensures EraseMany(p.shape.t, SortBy(p.shape.t, [x, w])) != EraseMany(p.shape.t, SortBy(p.shape.t, [z, y]))
  {
    var t := p.shape.t;
    w, x, y, z := Entangled(t);
    PairsSortApart(t, w, x, y, z);
    hide Typed, Cmp, SortBy, EraseMany, Interleaved;
  }

  /** Two messages of the same content and different streams. */
  lemma {:induction false} HashMoves(plans: seq<Plan>, i: nat) returns (a: seq<Slot>, b: seq<Slot>)
    requires WFPlans(plans) && i < |plans| && !plans[i].metadata && plans[i].sortable
    requires plans[i].shape.Repeated? && Interleaved(plans[i].shape.t)
    ensures TypedSlots(plans, a) && TypedSlots(plans, b)
    ensures SameContent(plans, a, b) && Stream(plans, a) != Stream(plans, b)
  {
    hide Typed, TypedSlot, TypedSlots, EraseMany, SameField, Cmp, SortBy, Interleaved, WFPlan, Disagree, With, Stream;
    assert WFPlan(plans[i]);
    var t := plans[i].shape.t;
    var w, x, y, z := EntangledElements(plans[i]);
    var (s, r) := (Many([x, w]), Many([z, y]));
    WithTyped(plans, i, s);
    WithTyped(plans, i, r);
    WithBoth(plans, i, s, r);
    a, b := With(plans, i, s), With(plans, i, r);
    SortedApart(plans[i], [x, w], [z, y]);
    forall k | 0 <= k < |plans| && !plans[k].metadata ensures SameField(plans[k], a[k], b[k]) {
      if k != i {
        SameItself(plans[k], a[k]);
      }
    }
    FieldMoves(plans, i, a, b);
  }

  /** A visible field whose canonical contents differ moves the stream. */
  lemma {:induction false} FieldMoves(plans: seq<Plan>, i: nat, a: seq<Slot>, b: seq<Slot>)
    requires WFPlans(plans) && TypedSlots(plans, a) && TypedSlots(plans, b) && i < |plans| && !plans[i].metadata
    requires EraseSlot(plans[i], CanonicalSlot(plans[i], a[i])) != EraseSlot(plans[i], CanonicalSlot(plans[i], b[i]))
    ensures Stream(plans, a) != Stream(plans, b)
  {
    hide EraseSlot, EraseSlots, CanonicalSlot, DatumBytes;
    var (ca, cb) := (CanonicalSlots(plans, a), CanonicalSlots(plans, b));
    CanonicalTyped(plans, a);
    CanonicalTyped(plans, b);
    ErasedPointwise(plans, ca, cb);
    UnfoldMessage(plans, ca, cb);
    assert ca[i] == CanonicalSlot(plans[i], a[i]) && cb[i] == CanonicalSlot(plans[i], b[i]);
    hide TypedSlots, Typed, Erase;
    StreamIsContent(Message(plans), DMessage(ca), DMessage(cb));
  }

  /** Sorting the two pairs leaves their contents in different orders. */
  lemma {:induction false} PairsSortApart(t: Type, a: Datum, b: Datum, c: Datum, d: Datum)
    requires WF(t) && Disagree(t, a, b, c, d)
    ensures multiset(EraseMany(t, [b, a])) == multiset(EraseMany(t, [d, c]))
    ensures EraseMany(t, SortBy(t, [b, a])) != EraseMany(t, SortBy(t, [d, c]))
  {
    SortPair(t, b, a);
    SortPair(t, d, c);
    CmpEqual(t, a, b);
    CmpEqual(t, c, d);
    PairErased(t, b, a);
    PairErased(t, d, c);
    PairErased(t, a, b);
    PairErased(t, c, d);
    hide Erase, Typed, Cmp, SortBy, EraseMany;
    assert [Erase(t, a), Erase(t, b)][0] != [Erase(t, b), Erase(t, a)][0];
  }

  /** A message's content hash ignores arrival order and metadata exactly when the
      elements of its sorted visible fields are not interleaved. */
  lemma {:induction false} HashIsContentExactly(plans: seq<Plan>)
    requires WFPlans(plans)
    ensures HashIsContent(plans) <==> SortedFieldsApart(plans)
  {
    if SortedFieldsApart(plans) {
      HashFollows(plans);
    } else {
      var i :| 0 <= i < |plans| && !plans[i].metadata && plans[i].sortable && plans[i].shape.Repeated?
          && Interleaved(plans[i].shape.t);
      var a, b := HashMoves(plans, i);
    }
  }

  // --- The least case ---

  /** One sorted field of elements with metadata inside an earlier field. */
  function NestedPlans(): seq<Plan> { [Plan(1, false, true, Repeated(NestedElement()), UNLIMITED)] }

  /** The two elements read twice, the metadata exchanged: the same content, and
      different bytes to the hasher. */
  lemma {:induction false} NestedMetadataMovesTheHash()
    ensures WFPlans(NestedPlans()) && Interleaved(NestedElement())
    ensures var a := [Many([Nested(1, 1), Nested(2, 2)])];
            var b := [Many([Nested(2, 1), Nested(1, 2)])];
            && TypedSlots(NestedPlans(), a) && TypedSlots(NestedPlans(), b)
            && SameContent(NestedPlans(), a, b)
            && Stream(NestedPlans(), a) != Stream(NestedPlans(), b)
  {
    NestedDisagree();
    NestedIsInterleaved();
    NestedIsOne();
    NestedPlansMove(NestedPlans(), NestedPlans()[0]);
  }

  lemma {:induction false} NestedPlansMove(plans: seq<Plan>, p: Plan)
    requires plans == [p] && p == Plan(1, false, true, Repeated(NestedElement()), UNLIMITED) && WF(NestedElement())
    requires Disagree(NestedElement(), Nested(2, 2), Nested(1, 1), Nested(1, 2), Nested(2, 1))
    ensures WFPlans(plans)
    ensures var a := [Many([Nested(1, 1), Nested(2, 2)])];
            var b := [Many([Nested(2, 1), Nested(1, 2)])];
            && TypedSlots(plans, a) && TypedSlots(plans, b)
            && SameContent(plans, a, b) && Stream(plans, a) != Stream(plans, b)
  {
    hide NestedElement, Nested, WF, Disagree, Stream, SameContent, TypedSlots, WFPlans;
    assert WFPlan(p);
    DisagreeMoves(p, Nested(2, 2), Nested(1, 1), Nested(1, 2), Nested(2, 1));
  }

  lemma {:induction false} NestedIsOne()
    ensures |NestedPlans()| == 1 && NestedPlans() == [NestedPlans()[0]]
    ensures NestedPlans()[0] == Plan(1, false, true, Repeated(NestedElement()), UNLIMITED)
  {
  }

  lemma {:induction false} DisagreeMoves(p: Plan, a: Datum, b: Datum, c: Datum, d: Datum)
    requires WFPlan(p) && !p.metadata && p.sortable && p.shape.Repeated? && Disagree(p.shape.t, a, b, c, d)
    ensures WFPlans([p]) && TypedSlots([p], [Many([b, a])]) && TypedSlots([p], [Many([d, c])])
    ensures SameContent([p], [Many([b, a])], [Many([d, c])])
            && Stream([p], [Many([b, a])]) != Stream([p], [Many([d, c])])
  {
    PairsSortApart(p.shape.t, a, b, c, d);
    assert TypedSlot(p, Many([b, a])) && TypedSlot(p, Many([d, c]));
    hide Typed, Cmp, Erase, SortBy, EraseMany, TypedSlot, WFPlan;
    OneFieldMoves(p, [b, a], [d, c]);
  }

  lemma {:induction false} NestedDisagree()
    ensures WF(NestedElement())
    ensures Disagree(NestedElement(), Nested(2, 2), Nested(1, 1), Nested(1, 2), Nested(2, 1))
  {
    hide NestedElement, Nested, WF, Typed, Erase, Cmp, DirectMetadata;
    NestedSchema();
    NestedFacts(2, 2, 1, 1);
    NestedFacts(1, 2, 2, 1);
    NestedFacts(2, 2, 1, 2);
    NestedFacts(1, 1, 2, 1);
  }

  /** One sorted field of the same contents, sorted apart, moves the stream. */
  lemma {:induction false} OneFieldMoves(p: Plan, xs: seq<Datum>, ys: seq<Datum>)
    requires WFPlan(p) && !p.metadata && p.sortable && p.shape.Repeated?
    requires TypedSlot(p, Many(xs)) && TypedSlot(p, Many(ys))
    requires multiset(EraseMany(p.shape.t, xs)) == multiset(EraseMany(p.shape.t, ys))
    requires EraseMany(p.shape.t, SortBy(p.shape.t, xs)) != EraseMany(p.shape.t, SortBy(p.shape.t, ys))
    ensures WFPlans([p]) && TypedSlots([p], [Many(xs)]) && TypedSlots([p], [Many(ys)])
    ensures SameContent([p], [Many(xs)], [Many(ys)]) && Stream([p], [Many(xs)]) != Stream([p], [Many(ys)])
  {
    hide EraseSlot, EraseMany, CanonicalSlot, SameField, Typed, TypedSlot, TypedSlots, WFPlan, WFPlans, SortBy, Stream;
    var (plans, a, b) := ([p], [Many(xs)], [Many(ys)]);
    OneField(p, Many(xs));
    OneField(p, Many(ys));
    SortedApart(p, xs, ys);
    assert SameContent(plans, a, b);
    FieldMoves(plans, 0, a, b);
  }

  lemma SortedApart(p: Plan, xs: seq<Datum>, ys: seq<Datum>)
    requires p.sortable && p.shape.Repeated?
    ensures SameField(p, Many(xs), Many(ys)) <==>
            multiset(EraseMany(p.shape.t, xs)) == multiset(EraseMany(p.shape.t, ys))
    ensures EraseSlot(p, CanonicalSlot(p, Many(xs))) == EraseSlot(p, CanonicalSlot(p, Many(ys))) <==>
            EraseMany(p.shape.t, SortBy(p.shape.t, xs)) == EraseMany(p.shape.t, SortBy(p.shape.t, ys))
  {
    hide EraseMany, SortBy;
  }

  lemma {:induction false} OneField(p: Plan, s: Slot)
    requires WFPlan(p) && TypedSlot(p, s)
    ensures WFPlans([p]) && TypedSlots([p], [s])
  {
    hide WFPlan, TypedSlot;
    assert [p][1..] == [] && [s][1..] == [];
  }

  lemma {:induction false} NestedIsInterleaved()
    ensures Interleaved(NestedElement())
  {
    var (inner, outer) := (NestedInner().plans, NestedElement().plans);
    assert inner[0].metadata && ContentVariesIn(inner[0]);
    assert MetadataVaries(NestedInner());
    assert MetadataVariesIn(outer[0]) && ContentVaries(Leaf(L.TU64)) && ContentVariesIn(outer[1]);
    assert FieldsInterleaved(outer);
  }

  /** Metadata on the element itself is the case the contract uses. */
  lemma {:induction false} DirectMetadataIsApart(t: Type)
    requires WF(t) && DirectMetadata(t)
    ensures !Interleaved(t)
  {
    DirectMetadataSuffices(t);
    OrderFollowsContentExactly(t);
  }
}
