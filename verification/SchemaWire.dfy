/** Direct wire encoding of messages: field numbers ascending, metadata in place,
    lengths first; byte for byte the specification encoding of the rebuilt wire
    tree, which decodes, converts, canonicalizes and checks back to the message. */
module SchemaWire {
  import opened Bytes
  import opened Records
  import opened Schemas
  import VW = ValueWire
  import L = Leaves

  // --- The wire tree ---

  datatype WDatum = WLeafDatum(w: L.WLeaf) | WMessage(slots: seq<WSlot>)

  datatype WSlot = WSingle(o: Option<WDatum>) | WMany(ds: seq<WDatum>) | WCase(c: Option<(nat, WDatum)>)

  function IntoWire(t: Type, d: Datum): WDatum
    decreases t, 1
  {
    match (t, d)
    case (Leaf(_), DLeaf(x)) => WLeafDatum(L.IntoWire(x))
    case (Message(plans), DMessage(slots)) => WMessage(SlotsIntoWire(plans, slots))
    case _ => WMessage([])
  }

  function SlotsIntoWire(plans: seq<Plan>, slots: seq<Slot>): seq<WSlot>
    decreases plans, 0
  {
    if plans == [] || slots == [] then []
    else [SlotIntoWire(plans[0], slots[0])] + SlotsIntoWire(plans[1..], slots[1..])
  }

  function SlotIntoWire(p: Plan, s: Slot): WSlot
    decreases p
  {
    match (p.shape, s)
    case (Required(t), Single(d)) => WSingle(Some(IntoWire(t, d)))
    case (Optional(t), Single(d)) => WSingle(Some(IntoWire(t, d)))
    case (Repeated(t), Many(ds)) => WMany(ManyIntoWire(t, ds))
    case (OneOf(_, arms), Case(k, d)) => if k < |arms| then WCase(Some((k, IntoWire(arms[k].t, d)))) else WCase(None)
    case _ => DefaultSlot(p)
  }

  function ManyIntoWire(t: Type, ds: seq<Datum>): seq<WDatum>
    decreases t, 2, |ds|
  {
    if ds == [] then [] else [IntoWire(t, ds[0])] + ManyIntoWire(t, ds[1..])
  }

  /** A field nothing was decoded for. */
  function DefaultSlot(p: Plan): WSlot {
    match p.shape
    case Repeated(_) => WMany([])
    case OneOf(_, _) => WCase(None)
    case _ => WSingle(None)
  }

  // --- The emitter, two passes ---

  /** A field as `nested` or a scalar encoder writes it: key, length, body. */
  function EmitField(number: nat, t: Type, d: Datum): seq<byte>
    decreases t, 2, 0
  {
    if d.DLeaf? then L.Emit(number, d.x) else VW.Prefixed(number, Len(t, d), Emit(t, d))
  }

  function FieldLen(number: nat, t: Type, d: Datum): nat
    decreases t, 2, 0
  {
    if d.DLeaf? then L.Len(number, d.x) else VW.PrefixedLen(number, Len(t, d))
  }

  function Emit(t: Type, d: Datum): seq<byte>
    decreases t, 1
  {
    match (t, d)
    case (Message(plans), DMessage(slots)) => EmitSlots(plans, slots)
    case _ => []
  }

  function Len(t: Type, d: Datum): nat
    decreases t, 1
  {
    match (t, d)
    case (Message(plans), DMessage(slots)) => SlotsLen(plans, slots)
    case _ => 0
  }

  function EmitSlots(plans: seq<Plan>, slots: seq<Slot>): seq<byte>
    decreases plans, 0
  {
    if plans == [] || slots == [] then [] else EmitSlot(plans[0], slots[0]) + EmitSlots(plans[1..], slots[1..])
  }

  function SlotsLen(plans: seq<Plan>, slots: seq<Slot>): nat
    decreases plans, 0
  {
    if plans == [] || slots == [] then 0 else SlotLen(plans[0], slots[0]) + SlotsLen(plans[1..], slots[1..])
  }

  function EmitSlot(p: Plan, s: Slot): seq<byte>
    decreases p
  {
    match (p.shape, s)
    case (Required(t), Single(d)) => EmitField(p.number, t, d)
    case (Optional(t), Single(d)) => EmitField(p.number, t, d)
    case (Repeated(t), Many(ds)) => EmitMany(p.number, t, ds)
    case (OneOf(_, arms), Case(k, d)) => if k < |arms| then EmitField(arms[k].number, arms[k].t, d) else []
    case _ => []
  }

  function SlotLen(p: Plan, s: Slot): nat
    decreases p
  {
    match (p.shape, s)
    case (Required(t), Single(d)) => FieldLen(p.number, t, d)
    case (Optional(t), Single(d)) => FieldLen(p.number, t, d)
    case (Repeated(t), Many(ds)) => ManyLen(p.number, t, ds)
    case (OneOf(_, arms), Case(k, d)) => if k < |arms| then FieldLen(arms[k].number, arms[k].t, d) else 0
    case _ => 0
  }

  function EmitMany(number: nat, t: Type, ds: seq<Datum>): seq<byte>
    decreases t, 3, |ds|
  {
    if ds == [] then [] else EmitField(number, t, ds[0]) + EmitMany(number, t, ds[1..])
  }

  function ManyLen(number: nat, t: Type, ds: seq<Datum>): nat
    decreases t, 3, |ds|
  {
    if ds == [] then 0 else FieldLen(number, t, ds[0]) + ManyLen(number, t, ds[1..])
  }

  // --- The specification encoder: records in field order ---

  function FieldRec(number: nat, t: Type, w: WDatum): Rec
    decreases t, 2, 0
  {
    match w
    case WLeafDatum(x) => Rec(number, L.WirePayload(x))
    case WMessage(_) => Rec(number, Delimited(Ser(DatumRecs(t, w))))
  }

  function DatumRecs(t: Type, w: WDatum): seq<Rec>
    decreases t, 1
  {
    match (t, w)
    case (Message(plans), WMessage(slots)) => SlotsRecs(plans, slots)
    case _ => []
  }

  function SlotsRecs(plans: seq<Plan>, slots: seq<WSlot>): seq<Rec>
    decreases plans, 0
  {
    if plans == [] || slots == [] then [] else SlotRecs(plans[0], slots[0]) + SlotsRecs(plans[1..], slots[1..])
  }

  function SlotRecs(p: Plan, s: WSlot): seq<Rec>
    decreases p
  {
    match (p.shape, s)
    case (Required(t), WSingle(Some(w))) => [FieldRec(p.number, t, w)]
    case (Optional(t), WSingle(Some(w))) => [FieldRec(p.number, t, w)]
    case (Repeated(t), WMany(ws)) => ManyRecs(p.number, t, ws)
    case (OneOf(_, arms), WCase(Some(kw))) =>
      if kw.0 < |arms| then [FieldRec(arms[kw.0].number, arms[kw.0].t, kw.1)] else []
    case _ => []
  }

  function ManyRecs(number: nat, t: Type, ws: seq<WDatum>): seq<Rec>
    decreases t, 3, |ws|
  {
    if ws == [] then [] else [FieldRec(number, t, ws[0])] + ManyRecs(number, t, ws[1..])
  }

  // --- The emitter is the specification encoder ---

  lemma {:induction false} EmitFieldExact(number: nat, t: Type, d: Datum)
    requires Typed(t, d)
    ensures EmitField(number, t, d) == RecSer(FieldRec(number, t, IntoWire(t, d)))
    ensures |EmitField(number, t, d)| == FieldLen(number, t, d)
    decreases t, 2, 0
  {
    hide RecSer, VW.Prefixed, VW.PrefixedLen, L.Emit, L.Len;
    match d {
      case DLeaf(x) => L.EmitExact(number, x);
      case DMessage(_) =>
        EmitExact(t, d);
        VW.PrefixedExact(number, Emit(t, d));
    }
  }

  lemma {:induction false} EmitExact(t: Type, d: Datum)
    requires Typed(t, d) && t.Message?
    ensures Emit(t, d) == Ser(DatumRecs(t, IntoWire(t, d))) && |Emit(t, d)| == Len(t, d)
    decreases t, 1
  {
    EmitSlotsExact(t.plans, d.slots);
  }

  lemma {:induction false} EmitSlotsExact(plans: seq<Plan>, slots: seq<Slot>)
    requires TypedSlots(plans, slots)
    ensures EmitSlots(plans, slots) == Ser(SlotsRecs(plans, SlotsIntoWire(plans, slots)))
    ensures |EmitSlots(plans, slots)| == SlotsLen(plans, slots)
    decreases plans, 0
  {
    hide Ser, SlotRecs, SlotIntoWire, EmitSlot, SlotLen;
    if plans == [] {
      SerEmpty();
    } else {
      EmitSlotExact(plans[0], slots[0]);
      EmitSlotsExact(plans[1..], slots[1..]);
      var ws := SlotsIntoWire(plans, slots);
      assert ws[1..] == SlotsIntoWire(plans[1..], slots[1..]);
      SerConcat(SlotRecs(plans[0], ws[0]), SlotsRecs(plans[1..], ws[1..]));
    }
  }

  lemma SerEmpty()
    ensures Ser([]) == []
  {
  }

  lemma {:induction false} EmitSlotExact(p: Plan, s: Slot)
    requires TypedSlot(p, s)
    ensures EmitSlot(p, s) == Ser(SlotRecs(p, SlotIntoWire(p, s))) && |EmitSlot(p, s)| == SlotLen(p, s)
    decreases p
  {
    hide Ser, RecSer, FieldRec, EmitField, FieldLen;
    SerEmpty();
    match (p.shape, s) {
      case (Repeated(t), Many(ds)) => EmitManyExact(p.number, t, ds);
      case (OneOf(_, arms), Case(k, d)) =>
        EmitFieldExact(arms[k].number, arms[k].t, d);
        SerOne(FieldRec(arms[k].number, arms[k].t, IntoWire(arms[k].t, d)));
      case (Required(t), Single(d)) =>
        EmitFieldExact(p.number, t, d);
        SerOne(FieldRec(p.number, t, IntoWire(t, d)));
      case (Optional(t), Single(d)) =>
        EmitFieldExact(p.number, t, d);
        SerOne(FieldRec(p.number, t, IntoWire(t, d)));
      case _ =>
    }
  }

  // --- The bytes themselves ---

  /** A field is its leaf's bytes, or a nested message delimited; a list is each
      element's field in turn, a case its arm's field, and what is absent nothing. A
      message is its fields in the schema's order. */
  lemma EmitsLiterally(p: Plan, s: Slot, plans: seq<Plan>, slots: seq<Slot>)
    requires TypedSlot(p, s)
    ensures s == Absent ==> EmitSlot(p, s) == []
    ensures s.Single? && s.d.DLeaf? ==> EmitSlot(p, s) == L.Emit(p.number, s.d.x)
    ensures s.Single? && s.d.DMessage? ==>
              p.shape.t.Message?
              && EmitSlot(p, s) == L.Delimits(p.number, EmitSlots(p.shape.t.plans, s.d.slots))
    ensures s.Case? ==>
              && s.arm < |p.shape.arms| && var a := p.shape.arms[s.arm];
              && (s.d.DLeaf? ==> EmitSlot(p, s) == L.Emit(a.number, s.d.x))
              && (s.d.DMessage? ==>
                    a.t.Message? && EmitSlot(p, s) == L.Delimits(a.number, EmitSlots(a.t.plans, s.d.slots)))
    ensures s.Many? && s.ds == [] ==> EmitSlot(p, s) == []
    ensures s.Many? && s.ds != [] ==>
              EmitSlot(p, s) == EmitSlot(Plan(p.number, false, false, Required(p.shape.t), p.limits), Single(s.ds[0]))
                                + EmitSlot(p, Many(s.ds[1..]))
    ensures EmitSlots([p] + plans, [s] + slots) == EmitSlot(p, s) + EmitSlots(plans, slots)
  {
    hide L.Emit, L.Delimits, EmitSlots;
    if s.Single? && s.d.DMessage? {
      NestedIsDelimited(p.number, p.shape.t, s.d);
    }
    if s.Case? && s.d.DMessage? {
      NestedIsDelimited(p.shape.arms[s.arm].number, p.shape.arms[s.arm].t, s.d);
    }
    MessageGoesOn(p, s, plans, slots);
  }

  lemma NestedIsDelimited(number: nat, t: Type, d: Datum)
    requires Typed(t, d) && d.DMessage?
    ensures t.Message? && EmitField(number, t, d) == L.Delimits(number, EmitSlots(t.plans, d.slots))
  {
    EmitExact(t, d);
    L.PrefixedDelimits(number, Emit(t, d));
    hide L.Delimits, EmitSlots, VW.Prefixed;
  }

  lemma MessageGoesOn(p: Plan, s: Slot, plans: seq<Plan>, slots: seq<Slot>)
    ensures EmitSlots([p] + plans, [s] + slots) == EmitSlot(p, s) + EmitSlots(plans, slots)
  {
    assert ([p] + plans)[1..] == plans && ([s] + slots)[1..] == slots;
  }

  lemma {:induction false} EmitManyExact(number: nat, t: Type, ds: seq<Datum>)
    requires forall d | d in ds :: Typed(t, d)
    ensures EmitMany(number, t, ds) == Ser(ManyRecs(number, t, ManyIntoWire(t, ds)))
    ensures |EmitMany(number, t, ds)| == ManyLen(number, t, ds)
    decreases t, 3, |ds|
  {
    hide Ser, RecSer, FieldRec, EmitField, FieldLen, IntoWire, Typed;
    if ds == [] {
      SerEmpty();
    } else {
      EmitFieldExact(number, t, ds[0]);
      EmitManyExact(number, t, ds[1..]);
      var ws := ManyIntoWire(t, ds);
      assert ws[1..] == ManyIntoWire(t, ds[1..]);
      ConsSer(FieldRec(number, t, ws[0]), ManyRecs(number, t, ws[1..]));
    }
  }

  // --- Decoding: records in any order, last one wins, unknown fields skipped ---

  /** The plan and arm a field number belongs to. */
  function FindArm(arms: seq<Arm>, field: nat): Option<nat> {
    if arms == [] then None
    else if arms[0].number == field then Some(0)
    else match FindArm(arms[1..], field)
      case None => None
      case Some(k) => Some(k + 1)
  }

  function Find(plans: seq<Plan>, field: nat): (r: Option<nat>)
    ensures r.Some? ==> r.value < |plans|
  {
    if plans == [] then None
    else if field in Tags(plans[0]) then Some(0)
    else match Find(plans[1..], field)
      case None => None
      case Some(i) => Some(i + 1)
  }

  function DecodeDatum(t: Type, p: Payload): Option<WDatum>
    decreases t, 2
  {
    match t
    case Leaf(l) => (match L.Decode(l, p) case None => None case Some(w) => Some(WLeafDatum(w)))
    case Message(plans) => if p.Delimited? then DecodeMessage(plans, p.s) else None
  }

  function DecodeMessage(plans: seq<Plan>, s: seq<byte>): Option<WDatum>
    decreases plans, 1
  {
    match ParseRecs(s)
    case None => None
    case Some(rs) =>
      match FoldRecs(plans, rs, Defaults(plans))
      case None => None
      case Some(slots) => Some(WMessage(slots))
  }

  function Defaults(plans: seq<Plan>): (r: seq<WSlot>)
    ensures |r| == |plans|
    ensures forall i | 0 <= i < |plans| :: r[i] == DefaultSlot(plans[i])
  {
    seq(|plans|, i requires 0 <= i < |plans| => DefaultSlot(plans[i]))
  }

  function FoldRecs(plans: seq<Plan>, rs: seq<Rec>, slots: seq<WSlot>): Option<seq<WSlot>>
    requires |slots| == |plans|
    decreases plans, 0, |rs|
  {
    if rs == [] then Some(slots) else
    match Find(plans, rs[0].field)
    case None => FoldRecs(plans, rs[1..], slots)
    case Some(i) =>
      match MergeSlot(plans[i], rs[0], slots[i])
      case None => None
      case Some(s) => FoldRecs(plans, rs[1..], slots[i := s])
  }

  function MergeSlot(p: Plan, r: Rec, s: WSlot): Option<WSlot>
    decreases p
  {
    match p.shape
    case Required(t) => (match DecodeDatum(t, r.payload) case None => None case Some(w) => Some(WSingle(Some(w))))
    case Optional(t) => (match DecodeDatum(t, r.payload) case None => None case Some(w) => Some(WSingle(Some(w))))
    case Repeated(t) =>
      (match DecodeDatum(t, r.payload)
       case None => None
       case Some(w) => if s.WMany? then Some(WMany(s.ds + [w])) else None)
    case OneOf(_, arms) =>
      match FindArm(arms, r.field)
      case None => None
      case Some(k) =>
        if k >= |arms| then None else
        match DecodeDatum(arms[k].t, r.payload)
        case None => None
        case Some(w) => Some(WCase(Some((k, w))))
  }

  // --- Decoding inverts the specification encoder ---

  predicate WTyped(t: Type, w: WDatum)
    decreases t, 1
  {
    match (t, w)
    case (Leaf(l), WLeafDatum(x)) => L.WTyped(l, x)
    case (Message(plans), WMessage(slots)) => WTypedSlots(plans, slots)
    case _ => false
  }

  predicate WTypedSlots(plans: seq<Plan>, slots: seq<WSlot>)
    decreases plans, 0
  {
    && |plans| == |slots|
    && (plans != [] ==> WTypedSlot(plans[0], slots[0]) && WTypedSlots(plans[1..], slots[1..]))
  }

  predicate WTypedSlot(p: Plan, s: WSlot)
    decreases p
  {
    match (p.shape, s)
    case (Required(t), WSingle(o)) => o.Some? ==> WTyped(t, o.value)
    case (Optional(t), WSingle(o)) => o.Some? ==> WTyped(t, o.value)
    case (Repeated(t), WMany(ws)) => forall w | w in ws :: WTyped(t, w)
    case (OneOf(_, arms), WCase(c)) => c.Some? ==> c.value.0 < |arms| && WTyped(arms[c.value.0].t, c.value.1)
    case _ => false
  }

  lemma {:induction false} FieldRecDecodes(number: nat, t: Type, w: WDatum)
    requires WF(t) && WTyped(t, w)
    ensures DecodeDatum(t, FieldRec(number, t, w).payload) == Some(w)
    ensures FieldRec(number, t, w).field == number
    decreases t, 2
  {
    match t {
      case Leaf(l) => L.DecodeInverts(l, w.w);
      case Message(plans) =>
        var rs := SlotsRecs(plans, w.slots);
        SlotsRecsNumbered(plans, w.slots);
        ParseSer(rs);
        FoldInverts(plans, w.slots);
    }
  }

  lemma {:induction false} SlotsRecsNumbered(plans: seq<Plan>, slots: seq<WSlot>)
    requires WFPlans(plans) && WTypedSlots(plans, slots)
    ensures forall r | r in SlotsRecs(plans, slots) :: r.field >= 1
  {
    if plans != [] {
      var p := plans[0];
      assert WFPlan(p);
      SlotsRecsNumbered(plans[1..], slots[1..]);
      SlotRecsTagged(p, slots[0]);
    }
  }

  lemma SlotRecsTagged(p: Plan, s: WSlot)
    requires WTypedSlot(p, s)
    ensures forall r | r in SlotRecs(p, s) :: r.field in Tags(p)
  {
    match (p.shape, s) {
      case (Repeated(t), WMany(ws)) => ManyRecsNumber(p.number, t, ws);
      case (OneOf(_, arms), WCase(Some(kw))) => assert arms[kw.0] in arms;
      case _ =>
    }
  }

  lemma {:induction false} ManyRecsNumber(number: nat, t: Type, ws: seq<WDatum>)
    ensures forall r | r in ManyRecs(number, t, ws) :: r.field == number
  {
    if ws != [] {
      ManyRecsNumber(number, t, ws[1..]);
    }
  }

  lemma {:induction false} FindExact(plans: seq<Plan>, i: nat, field: nat)
    requires TagsApart(plans) && i < |plans| && field in Tags(plans[i])
    ensures Find(plans, field) == Some(i)
  {
    if i > 0 {
      assert Tags(plans[0]) !! Tags(plans[i]);
      assert plans[1..][i - 1] == plans[i];
      FindExact(plans[1..], i - 1, field);
    }
  }

  lemma {:induction false} FindArmExact(arms: seq<Arm>, k: nat)
    requires DistinctArms(arms) && k < |arms|
    ensures FindArm(arms, arms[k].number) == Some(k)
  {
    if k > 0 {
      assert arms[1..][k - 1] == arms[k];
      FindArmExact(arms[1..], k - 1);
    }
  }

  lemma {:induction false} FoldConcat(plans: seq<Plan>, rs: seq<Rec>, qs: seq<Rec>, slots: seq<WSlot>)
    requires |slots| == |plans|
    ensures FoldRecs(plans, rs + qs, slots) ==
            match FoldRecs(plans, rs, slots)
            case None => None
            case Some(mid) => if |mid| == |plans| then FoldRecs(plans, qs, mid) else None
    ensures FoldRecs(plans, rs, slots).Some? ==> |FoldRecs(plans, rs, slots).value| == |plans|
    decreases |rs|
  {
    if rs == [] {
      assert rs + qs == qs;
    } else {
      assert (rs + qs)[1..] == rs[1..] + qs;
      match Find(plans, rs[0].field) {
        case None => FoldConcat(plans, rs[1..], qs, slots);
        case Some(i) =>
          match MergeSlot(plans[i], rs[0], slots[i]) {
            case None =>
            case Some(s) => FoldConcat(plans, rs[1..], qs, slots[i := s]);
          }
      }
    }
  }

  /** One field's records fill its slot and touch no other. */
  lemma {:induction false} FoldSlot(plans: seq<Plan>, i: nat, s: WSlot, slots: seq<WSlot>)
    requires WFPlans(plans) && i < |plans| == |slots| && WTypedSlot(plans[i], s)
    requires slots[i] == DefaultSlot(plans[i])
    ensures FoldRecs(plans, SlotRecs(plans[i], s), slots) == Some(slots[i := s])
    decreases plans, 1
  {
    var p := plans[i];
    assert WFPlan(p) && p in plans;
    if p.shape.Repeated? {
      FoldMany(plans, i, [], s.ds, slots);
      assert [] + s.ds == s.ds;
    } else if p.shape.OneOf? {
      if s.c.Some? {
        var (k, w) := s.c.value;
        var arm := p.shape.arms[k];
        assert arm in p.shape.arms && arm.number in Tags(p);
        assert arm.t < arm && p.shape < p;
        FindArmExact(p.shape.arms, k);
        FieldRecDecodes(arm.number, arm.t, w);
        FoldOne(plans, i, FieldRec(arm.number, arm.t, w), s, slots);
      } else {
        assert slots[i := s] == slots;
      }
    } else if s.o.Some? {
      var t := p.shape.t;
      assert p.number in Tags(p);
      assert t < p.shape < p;
      FieldRecDecodes(p.number, t, s.o.value);
      FoldOne(plans, i, FieldRec(p.number, t, s.o.value), s, slots);
    } else {
      assert slots[i := s] == slots;
    }
  }

  lemma FoldOne(plans: seq<Plan>, i: nat, r: Rec, s: WSlot, slots: seq<WSlot>)
    requires WFPlans(plans) && i < |plans| == |slots| && r.field in Tags(plans[i])
    requires MergeSlot(plans[i], r, slots[i]) == Some(s)
    ensures FoldRecs(plans, [r], slots) == Some(slots[i := s])
  {
    FindExact(plans, i, r.field);
    assert [r][1..] == [];
  }

  lemma {:induction false} FoldMany(plans: seq<Plan>, i: nat, done: seq<WDatum>, ws: seq<WDatum>, slots: seq<WSlot>)
    requires WFPlans(plans) && i < |plans| == |slots| && plans[i].shape.Repeated?
    requires WTypedSlot(plans[i], WMany(ws)) && slots[i] == WMany(done)
    ensures FoldRecs(plans, ManyRecs(plans[i].number, plans[i].shape.t, ws), slots) ==
            Some(slots[i := WMany(done + ws)])
    decreases plans, 0, |ws|
  {
    hide FieldRec, DecodeDatum;
    var p := plans[i];
    var t := p.shape.t;
    assert WFPlan(p) && p in plans && p.number in Tags(p);
    if ws == [] {
      assert done + ws == done && slots[i := WMany(done)] == slots;
    } else {
      assert t < p.shape < p;
      FieldRecDecodes(p.number, t, ws[0]);
      FindExact(plans, i, p.number);
      var rs := ManyRecs(p.number, t, ws);
      var next := slots[i := WMany(done + [ws[0]])];
      assert rs[0] == FieldRec(p.number, t, ws[0]) && rs[1..] == ManyRecs(p.number, t, ws[1..]);
      FoldMany(plans, i, done + [ws[0]], ws[1..], next);
      assert (done + [ws[0]]) + ws[1..] == done + ws;
      assert next[i := WMany(done + ws)] == slots[i := WMany(done + ws)];
    }
  }

  /** Fields from the k-th on, folded over a message whose earlier fields are
      already in place. */
  lemma {:induction false} FoldFrom(plans: seq<Plan>, ws: seq<WSlot>, k: nat)
    requires WFPlans(plans) && WTypedSlots(plans, ws) && k <= |plans|
    ensures FoldRecs(plans, SlotsRecs(plans[k..], ws[k..]), ws[..k] + Defaults(plans)[k..]) == Some(ws)
    decreases plans, 2, |plans| - k
  {
    hide SlotRecs, WFPlans, WTypedSlot, DefaultSlot;
    var state := ws[..k] + Defaults(plans)[k..];
    if k == |plans| {
      assert state == ws;
    } else {
      WTypedAt(plans, ws, k);
      FoldSlot(plans, k, ws[k], state);
      assert state[k := ws[k]] == ws[..k + 1] + Defaults(plans)[k + 1..];
      assert plans[k..][1..] == plans[k + 1..] && ws[k..][1..] == ws[k + 1..];
      FoldConcat(plans, SlotRecs(plans[k], ws[k]), SlotsRecs(plans[k + 1..], ws[k + 1..]), state);
      FoldFrom(plans, ws, k + 1);
    }
  }

  lemma {:induction false} WTypedAt(plans: seq<Plan>, ws: seq<WSlot>, i: nat)
    requires WTypedSlots(plans, ws) && i < |plans|
    ensures WTypedSlot(plans[i], ws[i])
  {
    if i > 0 {
      WTypedAt(plans[1..], ws[1..], i - 1);
    }
  }

  lemma FoldInverts(plans: seq<Plan>, ws: seq<WSlot>)
    requires WFPlans(plans) && WTypedSlots(plans, ws)
    ensures FoldRecs(plans, SlotsRecs(plans, ws), Defaults(plans)) == Some(ws)
    decreases plans, 3
  {
    FoldFrom(plans, ws, 0);
    assert plans[0..] == plans && ws[0..] == ws;
    assert ws[..0] + Defaults(plans)[0..] == Defaults(plans);
  }
}
