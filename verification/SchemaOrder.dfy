/** The canonical order over messages is total, and its `Equal` is identity:
    what sorting, uniqueness scans and binary searches rely on. */
module SchemaOrder {
  import opened Orders
  import opened Schemas
  import L = Leaves

  /** The two messages agree on every field of one phase. */
  ghost predicate SamePhase(plans: seq<Plan>, a: seq<Slot>, b: seq<Slot>, phase: bool) {
    && |a| == |b| == |plans|
    && forall i | 0 <= i < |plans| && plans[i].metadata == phase :: a[i] == b[i]
  }

  // --- Equal is identity ---

  lemma {:induction false} CmpEqual(t: Type, a: Datum, b: Datum)
    requires WF(t) && Typed(t, a) && Typed(t, b)
    ensures Cmp(t, a, b) == Equal <==> a == b
    decreases t, 1
  {
    match t {
      case Leaf(l) => L.CmpEqual(l, a.x, b.x);
      case Message(plans) =>
        CmpPhaseEqual(plans, a.slots, b.slots, false);
        CmpPhaseEqual(plans, a.slots, b.slots, true);
        if Cmp(t, a, b) == Equal {
          assert a.slots == b.slots;
        }
    }
  }

  lemma {:induction false} CmpPhaseEqual(plans: seq<Plan>, a: seq<Slot>, b: seq<Slot>, phase: bool)
    requires WFPlans(plans) && TypedSlots(plans, a) && TypedSlots(plans, b)
    ensures CmpPhase(plans, a, b, phase) == Equal <==> SamePhase(plans, a, b, phase)
    decreases plans, 0
  {
    if plans != [] {
      assert WFPlan(plans[0]);
      CmpSlotEqual(plans[0], a[0], b[0]);
      CmpPhaseEqual(plans[1..], a[1..], b[1..], phase);
      SamePhaseStep(plans, a, b, phase);
    }
  }

  lemma SamePhaseStep(plans: seq<Plan>, a: seq<Slot>, b: seq<Slot>, phase: bool)
    requires plans != [] && |plans| == |a| == |b|
    ensures SamePhase(plans, a, b, phase) <==>
            (plans[0].metadata == phase ==> a[0] == b[0]) && SamePhase(plans[1..], a[1..], b[1..], phase)
  {
    if SamePhase(plans[1..], a[1..], b[1..], phase) && (plans[0].metadata == phase ==> a[0] == b[0]) {
      forall i | 0 <= i < |plans| && plans[i].metadata == phase ensures a[i] == b[i] {
        if i > 0 {
          assert plans[1..][i - 1] == plans[i];
        }
      }
    }
  }

  lemma {:induction false} CmpSlotEqual(p: Plan, a: Slot, b: Slot)
    requires WFPlan(p) && TypedSlot(p, a) && TypedSlot(p, b)
    ensures CmpSlot(p, a, b) == Equal <==> a == b
    decreases p
  {
    match (p.shape, a, b) {
      case (Required(t), Single(x), Single(y)) => CmpEqual(t, x, y);
      case (Optional(t), Single(x), Single(y)) => CmpEqual(t, x, y);
      case (Repeated(t), Many(xs), Many(ys)) => CmpManyEqual(t, xs, ys);
      case (OneOf(_, arms), Case(i, x), Case(j, y)) =>
        if i == j {
          assert arms[i] in arms;
          CmpEqual(arms[i].t, x, y);
        }
      case _ =>
    }
  }

  lemma {:induction false} CmpManyEqual(t: Type, a: seq<Datum>, b: seq<Datum>)
    requires WF(t)
    requires forall d | d in a :: Typed(t, d)
    requires forall d | d in b :: Typed(t, d)
    ensures CmpMany(t, a, b) == Equal <==> a == b
    decreases t, 2, |a|
  {
    if a != [] && b != [] {
      CmpEqual(t, a[0], b[0]);
      CmpManyEqual(t, a[1..], b[1..]);
      assert a == [a[0]] + a[1..] && b == [b[0]] + b[1..];
    }
  }

  // --- Swapping the operands reverses the answer ---

  lemma {:induction false} CmpFlip(t: Type, a: Datum, b: Datum)
    ensures Cmp(t, b, a) == Cmp(t, a, b).Reverse()
    decreases t, 1
  {
    match (t, a, b) {
      case (Leaf(_), DLeaf(x), DLeaf(y)) => L.CmpFlip(x, y);
      case (Message(plans), DMessage(x), DMessage(y)) =>
        CmpPhaseFlip(plans, x, y, false);
        CmpPhaseFlip(plans, x, y, true);
      case _ =>
    }
  }

  lemma {:induction false} CmpPhaseFlip(plans: seq<Plan>, a: seq<Slot>, b: seq<Slot>, phase: bool)
    ensures CmpPhase(plans, b, a, phase) == CmpPhase(plans, a, b, phase).Reverse()
    decreases plans, 0
  {
    if plans != [] && a != [] && b != [] {
      CmpSlotFlip(plans[0], a[0], b[0]);
      CmpPhaseFlip(plans[1..], a[1..], b[1..], phase);
    }
  }

  lemma {:induction false} CmpSlotFlip(p: Plan, a: Slot, b: Slot)
    ensures CmpSlot(p, b, a) == CmpSlot(p, a, b).Reverse()
    decreases p
  {
    match (p.shape, a, b) {
      case (Required(t), Single(x), Single(y)) => CmpFlip(t, x, y);
      case (Optional(t), Single(x), Single(y)) => CmpFlip(t, x, y);
      case (Repeated(t), Many(xs), Many(ys)) => CmpManyFlip(t, xs, ys);
      case (OneOf(_, arms), Case(i, x), Case(j, y)) =>
        if i == j && i < |arms| {
          assert arms[i] in arms;
          CmpFlip(arms[i].t, x, y);
        }
      case _ =>
    }
  }

  lemma {:induction false} CmpManyFlip(t: Type, a: seq<Datum>, b: seq<Datum>)
    ensures CmpMany(t, b, a) == CmpMany(t, a, b).Reverse()
    decreases t, 2, |a|
  {
    if a != [] && b != [] {
      CmpFlip(t, a[0], b[0]);
      CmpManyFlip(t, a[1..], b[1..]);
    }
  }

  // --- Transitivity ---

  lemma {:induction false} CmpTransitive(t: Type, a: Datum, b: Datum, c: Datum)
    requires WF(t) && Typed(t, a) && Typed(t, b) && Typed(t, c)
    requires Cmp(t, a, b) == Less && Cmp(t, b, c) == Less
    ensures Cmp(t, a, c) == Less
    decreases t, 1
  {
    match t {
      case Leaf(l) => L.CmpTransitive(l, a.x, b.x, c.x);
      case Message(plans) =>
        PhaseChain(plans, a.slots, b.slots, c.slots, false);
        PhaseChain(plans, a.slots, b.slots, c.slots, true);
    }
  }

  /** One phase composes: strict steps chain, and an equal step is transparent. */
  lemma {:induction false} PhaseChain(plans: seq<Plan>, a: seq<Slot>, b: seq<Slot>, c: seq<Slot>, phase: bool)
    requires WFPlans(plans) && TypedSlots(plans, a) && TypedSlots(plans, b) && TypedSlots(plans, c)
    ensures CmpPhase(plans, a, b, phase) == Less && CmpPhase(plans, b, c, phase) == Less
            ==> CmpPhase(plans, a, c, phase) == Less
    ensures CmpPhase(plans, a, b, phase) == Equal ==> CmpPhase(plans, a, c, phase) == CmpPhase(plans, b, c, phase)
    ensures CmpPhase(plans, b, c, phase) == Equal ==> CmpPhase(plans, a, c, phase) == CmpPhase(plans, a, b, phase)
    decreases plans, 0
  {
    if plans != [] {
      var p := plans[0];
      assert WFPlan(p);
      PhaseChain(plans[1..], a[1..], b[1..], c[1..], phase);
      if p.metadata == phase {
        CmpSlotEqual(p, a[0], b[0]);
        CmpSlotEqual(p, b[0], c[0]);
        if CmpSlot(p, a[0], b[0]) == Less && CmpSlot(p, b[0], c[0]) == Less {
          CmpSlotTransitive(p, a[0], b[0], c[0]);
        }
      }
    }
  }

  lemma {:induction false} CmpSlotTransitive(p: Plan, a: Slot, b: Slot, c: Slot)
    requires WFPlan(p) && TypedSlot(p, a) && TypedSlot(p, b) && TypedSlot(p, c)
    requires CmpSlot(p, a, b) == Less && CmpSlot(p, b, c) == Less
    ensures CmpSlot(p, a, c) == Less
    decreases p
  {
    match (p.shape, a, b) {
      case (Required(t), Single(x), Single(y)) => CmpTransitive(t, x, y, c.d);
      case (Optional(t), Single(x), Single(y)) => CmpTransitive(t, x, y, c.d);
      case (Repeated(t), Many(xs), Many(ys)) => CmpManyTransitive(t, xs, ys, c.ds);
      case (OneOf(_, arms), Case(i, x), Case(j, y)) =>
        if i == j == c.arm {
          assert arms[i] in arms;
          CmpTransitive(arms[i].t, x, y, c.d);
        }
      case _ =>
    }
  }

  lemma {:induction false} CmpManyTransitive(t: Type, a: seq<Datum>, b: seq<Datum>, c: seq<Datum>)
    requires WF(t)
    requires forall d | d in a :: Typed(t, d)
    requires forall d | d in b :: Typed(t, d)
    requires forall d | d in c :: Typed(t, d)
    requires CmpMany(t, a, b) == Less && CmpMany(t, b, c) == Less
    ensures CmpMany(t, a, c) == Less
    decreases t, 2, |a|
  {
    if a != [] {
      CmpEqual(t, a[0], b[0]);
      CmpEqual(t, b[0], c[0]);
      if Cmp(t, a[0], b[0]) == Less && Cmp(t, b[0], c[0]) == Less {
        CmpTransitive(t, a[0], b[0], c[0]);
      } else if a[0] == b[0] == c[0] {
        CmpManyTransitive(t, a[1..], b[1..], c[1..]);
      }
    }
  }

  /** `a` does not come after `b`. */
  predicate Le(t: Type, a: Datum, b: Datum) { Cmp(t, a, b) != Greater }

  lemma LeTransitive(t: Type, a: Datum, b: Datum, c: Datum)
    requires WF(t) && Typed(t, a) && Typed(t, b) && Typed(t, c)
    requires Le(t, a, b) && Le(t, b, c)
    ensures Le(t, a, c)
  {
    CmpEqual(t, a, b);
    CmpEqual(t, b, c);
    if Cmp(t, a, b) == Less && Cmp(t, b, c) == Less {
      CmpTransitive(t, a, b, c);
    }
  }

  // --- Which order it is ---

  /** The first message is less at its `i`th field, and agrees with the other on
      every field of the same kind, visible or metadata, before it. */
  ghost predicate LessAt(plans: seq<Plan>, a: seq<Slot>, b: seq<Slot>, phase: bool, i: nat)
    requires |plans| == |a| == |b|
  {
    && i < |plans| && plans[i].metadata == phase && CmpSlot(plans[i], a[i], b[i]) == Less
    && forall j | 0 <= j < i && plans[j].metadata == phase :: CmpSlot(plans[j], a[j], b[j]) == Equal
  }

  ghost predicate Agree(plans: seq<Plan>, a: seq<Slot>, b: seq<Slot>, phase: bool)
    requires |plans| == |a| == |b|
  {
    forall j | 0 <= j < |plans| && plans[j].metadata == phase :: CmpSlot(plans[j], a[j], b[j]) == Equal
  }

  lemma {:induction false} PhaseOrder(plans: seq<Plan>, a: seq<Slot>, b: seq<Slot>, phase: bool)
    requires |plans| == |a| == |b|
    ensures CmpPhase(plans, a, b, phase) == Less <==> exists i :: LessAt(plans, a, b, phase, i)
    ensures CmpPhase(plans, a, b, phase) == Equal <==> Agree(plans, a, b, phase)
  {
    hide CmpSlot;
    if plans != [] {
      var (ps, x, y) := (plans[1..], a[1..], b[1..]);
      PhaseOrder(ps, x, y, phase);
      assert forall j | 1 <= j < |plans| :: ps[j - 1] == plans[j] && x[j - 1] == a[j] && y[j - 1] == b[j];
      if plans[0].metadata == phase && CmpSlot(plans[0], a[0], b[0]) != Equal {
        assert CmpSlot(plans[0], a[0], b[0]) == Less ==> LessAt(plans, a, b, phase, 0);
      } else {
        if i: nat :| LessAt(ps, x, y, phase, i) {
          assert LessAt(plans, a, b, phase, i + 1);
        }
        if i: nat :| LessAt(plans, a, b, phase, i) {
          assert LessAt(ps, x, y, phase, i - 1);
        }
        if Agree(plans, a, b, phase) {
          forall j | 0 <= j < |ps| && ps[j].metadata == phase ensures CmpSlot(ps[j], x[j], y[j]) == Equal {
            assert ps[j] == plans[j + 1];
          }
        }
      }
    }
  }

  /** Messages are ordered by the first visible field that differs, in number order,
      and only when none does by the first metadata field that differs. */
  lemma MessageOrder(plans: seq<Plan>, a: seq<Slot>, b: seq<Slot>)
    requires |plans| == |a| == |b|
    ensures Cmp(Message(plans), DMessage(a), DMessage(b)) == Less <==>
            || (exists i :: LessAt(plans, a, b, false, i))
            || (Agree(plans, a, b, false) && exists i :: LessAt(plans, a, b, true, i))
  {
    PhaseOrder(plans, a, b, false);
    PhaseOrder(plans, a, b, true);
    hide CmpPhase, Agree, LessAt;
  }

  ghost predicate ManyFirstAt(t: Type, a: seq<Datum>, b: seq<Datum>, k: nat) {
    && k <= |a| && k < |b| && (forall i | 0 <= i < k :: Cmp(t, a[i], b[i]) == Equal)
    && (k == |a| || Cmp(t, a[k], b[k]) == Less)
  }

  lemma {:induction false} ManyOrder(t: Type, a: seq<Datum>, b: seq<Datum>)
    ensures CmpMany(t, a, b) == Less <==> exists k :: ManyFirstAt(t, a, b, k)
  {
    hide Cmp;
    if a == [] || b == [] {
      assert b != [] ==> ManyFirstAt(t, a, b, 0);
    } else if Cmp(t, a[0], b[0]) != Equal {
      assert Cmp(t, a[0], b[0]) == Less ==> ManyFirstAt(t, a, b, 0);
    } else {
      ManyOrder(t, a[1..], b[1..]);
      if k: nat :| ManyFirstAt(t, a[1..], b[1..], k) {
        forall i | 0 <= i < k + 1 ensures Cmp(t, a[i], b[i]) == Equal {
          assert i > 0 ==> a[i] == a[1..][i - 1] && b[i] == b[1..][i - 1];
        }
        assert ManyFirstAt(t, a, b, k + 1);
      }
      if k: nat :| ManyFirstAt(t, a, b, k) {
        assert ManyFirstAt(t, a[1..], b[1..], k - 1);
      }
    }
  }

  /** One field: absent before present, a list where it ends or is less first, and
      different arms of a oneof by field number. */
  lemma SlotOrder(p: Plan, a: Slot, b: Slot)
    requires TypedSlot(p, a) && TypedSlot(p, b)
    ensures a == Absent || b == Absent ==> (CmpSlot(p, a, b) == Less <==> b != Absent)
    ensures a.Single? && b.Single? ==> CmpSlot(p, a, b) == Cmp(p.shape.t, a.d, b.d)
    ensures a.Many? && b.Many? ==>
              (CmpSlot(p, a, b) == Less <==> exists k :: ManyFirstAt(p.shape.t, a.ds, b.ds, k))
    ensures a.Case? && b.Case? ==>
              (CmpSlot(p, a, b) == Less <==>
                 if a.arm == b.arm then Cmp(p.shape.arms[a.arm].t, a.d, b.d) == Less
                 else p.shape.arms[a.arm].number < p.shape.arms[b.arm].number)
  {
    hide Cmp, CmpMany;
    if a.Many? && b.Many? {
      ManyOrder(p.shape.t, a.ds, b.ds);
    }
  }

  // --- Short messages, field by field ---

  lemma PhaseStep(plans: seq<Plan>, a: seq<Slot>, b: seq<Slot>, i: nat)
    requires |plans| == |a| == |b| && i <= |plans| && forall p | p in plans :: !p.metadata
    ensures CmpPhase(plans[i..], a[i..], b[i..], true) == Equal
    ensures i == |plans| ==> CmpPhase(plans[i..], a[i..], b[i..], false) == Equal
    ensures i < |plans| ==> CmpPhase(plans[i..], a[i..], b[i..], false) ==
                            CmpSlot(plans[i], a[i], b[i]).Then(CmpPhase(plans[i + 1..], a[i + 1..], b[i + 1..], false))
    ensures i == 0 ==> plans[i..] == plans && a[i..] == a && b[i..] == b
    decreases |plans| - i
  {
    if i < |plans| {
      assert plans[i..][1..] == plans[i + 1..] && a[i..][1..] == a[i + 1..] && b[i..][1..] == b[i + 1..];
      PhaseStep(plans, a, b, i + 1);
      assert plans[i] in plans;
    }
  }

  lemma CmpTwo(plans: seq<Plan>, x: seq<Slot>, y: seq<Slot>)
    requires |plans| == |x| == |y| == 2 && !plans[0].metadata && !plans[1].metadata
    ensures Cmp(Message(plans), DMessage(x), DMessage(y)) ==
            CmpSlot(plans[0], x[0], y[0]).Then(CmpSlot(plans[1], x[1], y[1]))
  {
    hide CmpSlot, CmpPhase;
    PhaseStep(plans, x, y, 0);
    PhaseStep(plans, x, y, 1);
    PhaseStep(plans, x, y, 2);
  }

  lemma CmpThree(plans: seq<Plan>, x: seq<Slot>, y: seq<Slot>)
    requires |plans| == |x| == |y| == 3 && !plans[0].metadata && !plans[1].metadata && !plans[2].metadata
    ensures Cmp(Message(plans), DMessage(x), DMessage(y)) ==
            CmpSlot(plans[0], x[0], y[0]).Then(CmpSlot(plans[1], x[1], y[1])).Then(CmpSlot(plans[2], x[2], y[2]))
  {
    hide CmpSlot, CmpPhase;
    PhaseStep(plans, x, y, 0);
    PhaseStep(plans, x, y, 1);
    PhaseStep(plans, x, y, 2);
    PhaseStep(plans, x, y, 3);
  }
}
