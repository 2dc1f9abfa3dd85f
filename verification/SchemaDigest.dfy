/** The content stream of messages is a prefix-free code for visible content:
    through nested messages, optional fields, oneofs, lists and maps, the bytes
    of a message determine its visible content and where they end. */
module SchemaDigest {
  import opened Bytes
  import opened Schemas
  import L = Leaves
  import VD = ValueDigest

  /** Some plan of the list can write this tag. */
  ghost predicate TagOf(plans: seq<Plan>, f: nat) {
    exists i :: 0 <= i < |plans| && f in Tags(plans[i])
  }

  /** A present field's bytes start with one of its tags. */
  lemma SlotTag(p: Plan, s: Slot, x: seq<byte>) returns (f: u32, rest: seq<byte>)
    requires WFPlan(p) && TypedSlot(p, s) && s != Absent
    ensures SlotBytes(p, s) + x == VD.Tag(f) + rest && f in Tags(p) && f >= 1
  {
    match s {
      case Single(d) =>
        assert p.number in Tags(p);
        f, rest := p.number, DatumBytes(p.shape.t, d) + x;
        Assoc(VD.Tag(f), DatumBytes(p.shape.t, d), x);
      case Many(ds) =>
        assert p.number in Tags(p);
        var body := VD.Count(|ds|) + ManyBytes(p.shape.t, ds);
        f, rest := p.number, body + x;
        Assoc(VD.Tag(f), body, x);
      case Case(k, d) =>
        var arm := p.shape.arms[k];
        assert arm in p.shape.arms && arm.number in Tags(p);
        f, rest := arm.number, DatumBytes(arm.t, d) + x;
        Assoc(VD.Tag(f), DatumBytes(arm.t, d), x);
    }
  }

  /** What follows a field list's beginning is the tag of one of its fields, or
      the closing zero. */
  lemma {:induction false} FieldsTag(plans: seq<Plan>, slots: seq<Slot>, x: seq<byte>)
    returns (f: u32, rest: seq<byte>)
    requires WFPlans(plans) && TypedSlots(plans, slots)
    ensures FieldsBytes(plans, slots) + (VD.End() + x) == VD.Tag(f) + rest
    ensures f == 0 || TagOf(plans, f)
  {
    if plans == [] {
      f, rest := 0, x;
      assert FieldsBytes(plans, slots) + (VD.End() + x) == VD.End() + x;
    } else {
      var p := plans[0];
      assert WFPlan(p);
      var tail := FieldsBytes(plans[1..], slots[1..]);
      if p.metadata || slots[0] == Absent {
        f, rest := FieldsTag(plans[1..], slots[1..], x);
        FieldSkipped(plans, slots);
        hide FieldsBytes, WFPlans, TypedSlots, SlotBytes;
        if f != 0 {
          var i :| 0 <= i < |plans[1..]| && f in Tags(plans[1..][i]);
          assert plans[i + 1] == plans[1..][i];
        }
      } else {
        f, rest := SlotTag(p, slots[0], tail + (VD.End() + x));
        Assoc(SlotBytes(p, slots[0]), tail, VD.End() + x);
      }
    }
  }

  lemma FieldSkipped(plans: seq<Plan>, slots: seq<Slot>)
    requires WFPlans(plans) && TypedSlots(plans, slots) && plans != [] && (plans[0].metadata || slots[0] == Absent)
    ensures WFPlans(plans[1..]) && TypedSlots(plans[1..], slots[1..])
    ensures FieldsBytes(plans, slots) == FieldsBytes(plans[1..], slots[1..])
  {
    assert WFPlan(plans[0]);
    TailReady(plans, slots);
    hide WFPlans;
    assert [] + FieldsBytes(plans[1..], slots[1..]) == FieldsBytes(plans[1..], slots[1..]);
  }

  // --- The bytes themselves ---

  /** A present field is its number and then its value, a list its count and then
      its elements, and a message its visible fields and then a zero. */
  lemma StreamsLiterally(p: Plan, s: Slot)
    requires WFPlan(p) && TypedSlot(p, s)
    ensures match s
            case Absent => SlotBytes(p, s) == []
            case Single(d) =>
              && p.number in Tags(p) && SlotBytes(p, s) == LE(p.number, 4) + DatumBytes(p.shape.t, d)
              && (d.DMessage? ==> DatumBytes(p.shape.t, d) == FieldsBytes(p.shape.t.plans, d.slots) + [0, 0, 0, 0])
            case Many(ds) =>
              p.number in Tags(p) && SlotBytes(p, s) == LE(p.number, 4) + (LE(|ds|, 8) + ManyBytes(p.shape.t, ds))
            case Case(k, d) =>
              && p.shape.arms[k] in p.shape.arms && p.shape.arms[k].number in Tags(p)
              && SlotBytes(p, s) == LE(p.shape.arms[k].number, 4) + DatumBytes(p.shape.arms[k].t, d)
  {
    VD.SmallTag(0);
    if s.Case? {
      assert p.shape.arms[s.arm] in p.shape.arms;
    }
  }

  function Without<T>(s: seq<T>, i: nat): seq<T>
    requires i < |s|
  {
    s[..i] + s[i + 1..]
  }

  /** A field that is absent or metadata contributes nothing at all: the stream is
      that of the schema without the field, so a revision that adds one moves no
      hash of data that does not use it. */
  lemma {:induction false} UnusedMovesNothing(plans: seq<Plan>, slots: seq<Slot>, i: nat)
    requires WFPlans(plans) && TypedSlots(plans, slots) && i < |plans|
    requires plans[i].metadata || (i < |slots| && slots[i] == Absent)
    ensures |slots| == |plans|
    ensures WFPlans(Without(plans, i)) && TypedSlots(Without(plans, i), Without(slots, i))
    ensures FieldsBytes(plans, slots) == FieldsBytes(Without(plans, i), Without(slots, i))
    decreases i
  {
    assert WFPlan(plans[0]);
    WithoutWF(plans, i);
    if i == 0 {
      assert Without(plans, 0) == plans[1..] && Without(slots, 0) == slots[1..];
      assert [] + FieldsBytes(plans[1..], slots[1..]) == FieldsBytes(plans[1..], slots[1..]);
    } else {
      TailReady(plans, slots);
      hide WFPlans, SlotBytes, TypedSlot;
      UnusedMovesNothing(plans[1..], slots[1..], i - 1);
      WithoutTail(plans, i);
      WithoutTail(slots, i);
    }
  }

  lemma WithoutTail<T>(s: seq<T>, i: nat)
    requires 0 < i < |s|
    ensures Without(s, i)[0] == s[0] && Without(s, i)[1..] == Without(s[1..], i - 1)
  {
  }

  lemma WithoutWF(plans: seq<Plan>, i: nat)
    requires WFPlans(plans) && i < |plans|
    ensures WFPlans(Without(plans, i))
  {
    var ps := Without(plans, i);
    assert forall j | 0 <= j < |ps| :: ps[j] == plans[if j < i then j else j + 1];
    forall p | p in ps ensures WFPlan(p) {
      assert p in plans;
    }
  }

  lemma {:induction false} DatumPrefixFree(t: Type, a: Datum, x: seq<byte>, b: Datum, y: seq<byte>)
    requires WF(t) && Typed(t, a) && Typed(t, b)
    requires DatumBytes(t, a) + x == DatumBytes(t, b) + y
    ensures Erase(t, a) == Erase(t, b) && x == y
    decreases t, 1
  {
    match t {
      case Leaf(l) => L.PrefixFree(l, a.x, x, b.x, y);
      case Message(plans) =>
        Assoc(FieldsBytes(plans, a.slots), VD.End(), x);
        Assoc(FieldsBytes(plans, b.slots), VD.End(), y);
        FieldsPrefixFree(plans, a.slots, x, b.slots, y);
    }
  }

  lemma {:induction false} FieldsPrefixFree(plans: seq<Plan>, a: seq<Slot>, x: seq<byte>, b: seq<Slot>, y: seq<byte>)
    requires WFPlans(plans) && TypedSlots(plans, a) && TypedSlots(plans, b)
    requires FieldsBytes(plans, a) + (VD.End() + x) == FieldsBytes(plans, b) + (VD.End() + y)
    ensures EraseSlots(plans, a) == EraseSlots(plans, b) && x == y
    decreases plans, 0
  {
    hide DatumBytes;
    if plans == [] {
      assert [] + (VD.End() + x) == VD.End() + x && [] + (VD.End() + y) == VD.End() + y;
      SplitStream(VD.End(), x, VD.End(), y);
    } else {
      var p := plans[0];
      assert WFPlan(p);
      var (ta, tb) := (FieldsBytes(plans[1..], a[1..]), FieldsBytes(plans[1..], b[1..]));
      var (ra, rb) := (ta + (VD.End() + x), tb + (VD.End() + y));
      if !p.metadata {
        Assoc(SlotBytes(p, a[0]), ta, VD.End() + x);
        Assoc(SlotBytes(p, b[0]), tb, VD.End() + y);
        SlotPresence(plans, a, x, b, y);
        SlotPresence(plans, b, y, a, x);
        SlotPrefixFree(p, a[0], ra, b[0], rb);
      } else {
        assert [] + ta == ta && [] + tb == tb;
      }
      FieldsPrefixFree(plans[1..], a[1..], x, b[1..], y);
    }
  }

  lemma TagsOfTail(plans: seq<Plan>, g: nat)
    requires plans != [] && TagsApart(plans) && TagOf(plans[1..], g)
    ensures g !in Tags(plans[0])
  {
    var i :| 0 <= i < |plans[1..]| && g in Tags(plans[1..][i]);
    assert plans[1..][i] == plans[i + 1];
  }

  lemma TailReady(plans: seq<Plan>, slots: seq<Slot>)
    requires WFPlans(plans) && TypedSlots(plans, slots) && plans != []
    ensures |slots| == |plans| && WFPlans(plans[1..]) && TypedSlots(plans[1..], slots[1..])
    ensures TagsApart(plans) && WFPlan(plans[0]) && TypedSlot(plans[0], slots[0])
  {
  }

  lemma AbsentSays(p: Plan, s: seq<byte>)
    requires WFPlan(p) && TypedSlot(p, Absent)
    ensures SlotBytes(p, Absent) + s == s
  {
  }

  /** A field present on one side cannot be absent on the other: its tag is
      neither zero nor any later field's. */
  lemma SlotPresence(plans: seq<Plan>, a: seq<Slot>, x: seq<byte>, b: seq<Slot>, y: seq<byte>)
    requires WFPlans(plans) && TypedSlots(plans, a) && TypedSlots(plans, b) && plans != []
    requires !plans[0].metadata && WFPlan(plans[0])
    requires SlotBytes(plans[0], a[0]) + (FieldsBytes(plans[1..], a[1..]) + (VD.End() + x))
          == SlotBytes(plans[0], b[0]) + (FieldsBytes(plans[1..], b[1..]) + (VD.End() + y))
    ensures a[0] != Absent ==> b[0] != Absent
  {
    hide DatumBytes, FieldsBytes, SlotBytes, TypedSlots, TypedSlot, WFPlan, WFPlans, Tags;
    TailReady(plans, a);
    TailReady(plans, b);
    if a[0] != Absent && b[0] == Absent {
      var f, rest := SlotTag(plans[0], a[0], FieldsBytes(plans[1..], a[1..]) + (VD.End() + x));
      var g, rest' := FieldsTag(plans[1..], b[1..], y);
      AbsentSays(plans[0], FieldsBytes(plans[1..], b[1..]) + (VD.End() + y));
      VD.TagSplit(f, rest, g, rest');
      if g != 0 {
        TagsOfTail(plans, g);
      }
    }
  }

  lemma {:induction false} SlotPrefixFree(p: Plan, a: Slot, x: seq<byte>, b: Slot, y: seq<byte>)
    requires WFPlan(p) && TypedSlot(p, a) && TypedSlot(p, b)
    requires a == Absent <==> b == Absent
    requires SlotBytes(p, a) + x == SlotBytes(p, b) + y
    ensures EraseSlot(p, a) == EraseSlot(p, b) && x == y
    decreases p
  {
    match (a, b) {
      case (Absent, Absent) => assert [] + x == x && [] + y == y;
      case (Single(d), Single(e)) =>
        var t := p.shape.t;
        assert p.number in Tags(p);
        Assoc(VD.Tag(p.number), DatumBytes(t, d), x);
        Assoc(VD.Tag(p.number), DatumBytes(t, e), y);
        VD.TagSplit(p.number, DatumBytes(t, d) + x, p.number, DatumBytes(t, e) + y);
        DatumPrefixFree(t, d, x, e, y);
      case (Many(ds), Many(es)) => ManySlotPrefixFree(p, ds, x, es, y);
      case (Case(i, d), Case(j, e)) =>
        var (r, s) := (p.shape.arms[i], p.shape.arms[j]);
        assert r in p.shape.arms && s in p.shape.arms;
        assert r.number in Tags(p) && s.number in Tags(p);
        Assoc(VD.Tag(r.number), DatumBytes(r.t, d), x);
        Assoc(VD.Tag(s.number), DatumBytes(s.t, e), y);
        VD.TagSplit(r.number, DatumBytes(r.t, d) + x, s.number, DatumBytes(s.t, e) + y);
        assert i == j;
        DatumPrefixFree(r.t, d, x, e, y);
    }
  }

  lemma ManySlotPrefixFree(p: Plan, a: seq<Datum>, x: seq<byte>, b: seq<Datum>, y: seq<byte>)
    requires WFPlan(p) && TypedSlot(p, Many(a)) && TypedSlot(p, Many(b))
    requires SlotBytes(p, Many(a)) + x == SlotBytes(p, Many(b)) + y
    ensures EraseMany(p.shape.t, a) == EraseMany(p.shape.t, b) && x == y
    decreases p, 0
  {
    var t := p.shape.t;
    assert p.number in Tags(p);
    var (ma, mb) := (ManyBytes(t, a), ManyBytes(t, b));
    Assoc(VD.Tag(p.number), VD.Count(|a|) + ma, x);
    Assoc(VD.Tag(p.number), VD.Count(|b|) + mb, y);
    Assoc(VD.Count(|a|), ma, x);
    Assoc(VD.Count(|b|), mb, y);
    VD.TagSplit(p.number, VD.Count(|a|) + (ma + x), p.number, VD.Count(|b|) + (mb + y));
    VD.CountSplit(|a|, ma + x, |b|, mb + y);
    ManyPrefixFree(t, a, x, b, y);
  }

  lemma {:induction false} ManyPrefixFree(t: Type, a: seq<Datum>, x: seq<byte>, b: seq<Datum>, y: seq<byte>)
    requires WF(t) && |a| == |b|
    requires forall d | d in a :: Typed(t, d)
    requires forall d | d in b :: Typed(t, d)
    requires ManyBytes(t, a) + x == ManyBytes(t, b) + y
    ensures EraseMany(t, a) == EraseMany(t, b) && x == y
    decreases t, 2, |a|
  {
    if a == [] {
      assert [] + x == x && [] + y == y;
    } else {
      Assoc(DatumBytes(t, a[0]), ManyBytes(t, a[1..]), x);
      Assoc(DatumBytes(t, b[0]), ManyBytes(t, b[1..]), y);
      DatumPrefixFree(t, a[0], ManyBytes(t, a[1..]) + x, b[0], ManyBytes(t, b[1..]) + y);
      ManyPrefixFree(t, a[1..], x, b[1..], y);
    }
  }

  // --- And visible content determines the bytes ---

  lemma {:induction false} SameContentSameBytes(t: Type, a: Datum, b: Datum)
    requires WF(t) && Typed(t, a) && Typed(t, b)
    requires Erase(t, a) == Erase(t, b)
    ensures DatumBytes(t, a) == DatumBytes(t, b)
    decreases t, 1
  {
    if t.Message? {
      SameFieldsSameBytes(t.plans, a.slots, b.slots);
    }
  }

  lemma {:induction false} SameFieldsSameBytes(plans: seq<Plan>, a: seq<Slot>, b: seq<Slot>)
    requires WFPlans(plans) && TypedSlots(plans, a) && TypedSlots(plans, b)
    requires EraseSlots(plans, a) == EraseSlots(plans, b)
    ensures FieldsBytes(plans, a) == FieldsBytes(plans, b)
    decreases plans, 0
  {
    if plans != [] {
      assert WFPlan(plans[0]);
      assert EraseSlots(plans, a)[0] == EraseSlots(plans, b)[0];
      assert EraseSlots(plans, a)[1..] == EraseSlots(plans, b)[1..];
      if !plans[0].metadata {
        SameSlotSameBytes(plans[0], a[0], b[0]);
      }
      SameFieldsSameBytes(plans[1..], a[1..], b[1..]);
    }
  }

  lemma {:induction false} SameSlotSameBytes(p: Plan, a: Slot, b: Slot)
    requires WFPlan(p) && TypedSlot(p, a) && TypedSlot(p, b)
    requires EraseSlot(p, a) == EraseSlot(p, b)
    ensures SlotBytes(p, a) == SlotBytes(p, b)
    decreases p
  {
    match (a, b) {
      case (Single(d), Single(e)) => SameContentSameBytes(p.shape.t, d, e);
      case (Many(ds), Many(es)) => SameManySameBytes(p.shape.t, ds, es);
      case (Case(i, d), Case(j, e)) =>
        assert p.shape.arms[i] in p.shape.arms;
        SameContentSameBytes(p.shape.arms[i].t, d, e);
      case _ =>
    }
  }

  lemma {:induction false} SameManySameBytes(t: Type, a: seq<Datum>, b: seq<Datum>)
    requires WF(t)
    requires forall d | d in a :: Typed(t, d)
    requires forall d | d in b :: Typed(t, d)
    requires EraseMany(t, a) == EraseMany(t, b)
    ensures ManyBytes(t, a) == ManyBytes(t, b)
    decreases t, 2, |a|
  {
    assert |a| == |b|;
    if a != [] {
      assert EraseMany(t, a)[0] == EraseMany(t, b)[0];
      assert EraseMany(t, a)[1..] == EraseMany(t, b)[1..];
      SameContentSameBytes(t, a[0], b[0]);
      SameManySameBytes(t, a[1..], b[1..]);
    }
  }

  /** Two messages of one schema feed a hasher the same bytes exactly when they
      have the same visible content. */
  lemma StreamIsContent(t: Type, a: Datum, b: Datum)
    requires WF(t) && Typed(t, a) && Typed(t, b)
    ensures DatumBytes(t, a) == DatumBytes(t, b) <==> Erase(t, a) == Erase(t, b)
  {
    if DatumBytes(t, a) == DatumBytes(t, b) {
      DatumPrefixFree(t, a, [], b, []);
    }
    if Erase(t, a) == Erase(t, b) {
      SameContentSameBytes(t, a, b);
    }
  }
}
