/** What construction accepts (`codegen/src/wrapper/mod.rs`, the generated
    `TryFrom` and `check`), stated of the wire tree, and what it forgets of it: the
    arrival order of every unordered list, at every level. */
module MessageReading {
  import opened Schemas
  import opened SchemaOrder
  import opened Canonicalization
  import opened AdjacentScan
  import opened SchemaWire
  import opened SchemaReading
  import L = Leaves

  // --- Acceptance, declaratively ---

  predicate WTextOk(limits: Limits, w: WDatum) {
    w.WLeafDatum? && w.w.WLText? ==>
      && (limits.nonEmpty ==> w.w.s != [])
      && (limits.maxLen.Some? ==> |w.w.s| <= limits.maxLen.value)
  }

  // What a wire tree says, read off it part by part, each list in its canonical
  // order; parts that say nothing acceptable are given some value or other.

  function DenotedLeaf(l: L.LeafType, w: L.WLeaf): L.LeafValue {
    match L.TryLeaf(l, w)
    case Ok(x) => x
    case Err(_) => L.LBool(false)
  }

  function Denoted(t: Type, w: WDatum): Datum
    decreases t, 1
  {
    match (t, w)
    case (Leaf(l), WLeafDatum(x)) => DLeaf(DenotedLeaf(l, x))
    case (Message(plans), WMessage(ws)) => DMessage(CanonicalSlots(plans, DenotedSlots(plans, ws)))
    case _ => DMessage([])
  }

  function DenotedSlots(plans: seq<Plan>, ws: seq<WSlot>): (slots: seq<Slot>)
    ensures |slots| == |plans|
    decreases plans, 0
  {
    if plans == [] then []
    else if ws == [] then [Absent] + DenotedSlots(plans[1..], [])
    else [DenotedSlot(plans[0], ws[0])] + DenotedSlots(plans[1..], ws[1..])
  }

  function DenotedSlot(p: Plan, w: WSlot): Slot
    decreases p
  {
    match (p.shape, w)
    case (Required(t), WSingle(Some(x))) => Single(Denoted(t, x))
    case (Optional(t), WSingle(Some(x))) => Single(Denoted(t, x))
    case (Repeated(t), WMany(xs)) => Many(DenotedMany(t, xs))
    case (OneOf(_, arms), WCase(Some(kx))) =>
      if kx.0 < |arms| then Case(kx.0, Denoted(arms[kx.0].t, kx.1)) else Absent
    case _ => Absent
  }

  function DenotedMany(t: Type, ws: seq<WDatum>): (ds: seq<Datum>)
    ensures |ds| == |ws| && forall i | 0 <= i < |ws| :: ds[i] == Denoted(t, ws[i])
    decreases t, 2, |ws|
  {
    if ws == [] then [] else [Denoted(t, ws[0])] + DenotedMany(t, ws[1..])
  }

  /** Every required part present and acceptable, every field within its limits, no
      key repeated, and the message's own rule kept by what the parts denote. */
  ghost predicate Acceptable(rule: Rule, t: Type, w: WDatum)
    decreases t, 1
  {
    match (t, w)
    case (Leaf(l), WLeafDatum(x)) => L.Accepts(l, x)
    case (Message(plans), WMessage(ws)) =>
      AcceptableSlots(rule, plans, ws) && rule(plans, CanonicalSlots(plans, DenotedSlots(plans, ws)))
    case _ => false
  }

  ghost predicate AcceptableSlots(rule: Rule, plans: seq<Plan>, ws: seq<WSlot>)
    decreases plans, 0
  {
    plans == [] ||
    (ws != [] && AcceptableSlot(rule, plans[0], ws[0]) && AcceptableSlots(rule, plans[1..], ws[1..]))
  }

  ghost predicate AcceptableSlot(rule: Rule, p: Plan, w: WSlot)
    decreases p
  {
    match (p.shape, w)
    case (Required(t), WSingle(Some(x))) => Acceptable(rule, t, x) && WTextOk(p.limits, x)
    case (Optional(t), WSingle(Some(x))) => Acceptable(rule, t, x) && WTextOk(p.limits, x)
    case (Optional(_), WSingle(None)) => true
    case (Repeated(t), WMany(xs)) =>
      && (forall x | x in xs :: Acceptable(rule, t, x) && WTextOk(p.limits, x))
      && (p.limits.maxItems.Some? ==> |xs| <= p.limits.maxItems.value)
      && (p.limits.uniqueBy != [] && t.Message? ==> KeysApart(t.plans, p.limits.uniqueBy, DenotedMany(t, xs)))
    case (OneOf(_, arms), WCase(Some(kx))) => kx.0 < |arms| && Acceptable(rule, arms[kx.0].t, kx.1)
    case (OneOf(required, _), WCase(None)) => !required
    case _ => false
  }

  // --- Construction accepts exactly that ---

  lemma {:induction false} FromWireExactly(rule: Rule, t: Type, w: WDatum)
    ensures FromWire(rule, t, w).Ok? <==> Acceptable(rule, t, w)
    ensures FromWire(rule, t, w).Ok? ==> FromWire(rule, t, w).value == Denoted(t, w)
    decreases t, 1
  {
    match (t, w) {
      case (Leaf(l), WLeafDatum(x)) => L.TryLeafExactly(l, x);
      case (Message(plans), WMessage(ws)) => SlotsFromWireExactly(rule, plans, ws);
      case _ =>
    }
  }

  /** The slots read and pass their checks exactly when each is acceptable. */
  lemma {:induction false} SlotsFromWireExactly(rule: Rule, plans: seq<Plan>, ws: seq<WSlot>)
    ensures SlotsFromWire(rule, plans, ws).Ok?
            && Checks(plans, CanonicalSlots(plans, SlotsFromWire(rule, plans, ws).value))
            <==> AcceptableSlots(rule, plans, ws)
    ensures AcceptableSlots(rule, plans, ws) ==> SlotsFromWire(rule, plans, ws).value == DenotedSlots(plans, ws)
    decreases plans, 0
  {
    hide SlotFromWire, AcceptableSlot, SlotChecks, CanonicalSlot, DenotedSlot;
    if plans != [] && ws != [] {
      SlotFromWireExactly(rule, plans[0], ws[0]);
      SlotsFromWireExactly(rule, plans[1..], ws[1..]);
      if SlotsFromWire(rule, plans, ws).Ok? {
        var slots := SlotsFromWire(rule, plans, ws).value;
        var (s, rest) := (SlotFromWire(rule, plans[0], ws[0]).value, SlotsFromWire(rule, plans[1..], ws[1..]).value);
        assert slots == [s] + rest;
        ChecksStep(plans, slots);
      }
    }
  }

  lemma {:induction false} ChecksStep(plans: seq<Plan>, slots: seq<Slot>)
    requires plans != [] && |plans| == |slots|
    ensures Checks(plans, CanonicalSlots(plans, slots)) <==>
            SlotChecks(plans[0], CanonicalSlot(plans[0], slots[0]))
                && Checks(plans[1..], CanonicalSlots(plans[1..], slots[1..]))
  {
    hide SlotChecks, CanonicalSlot;
    var (all, rest) := (CanonicalSlots(plans, slots), CanonicalSlots(plans[1..], slots[1..]));
    assert forall i | 0 <= i < |rest| :: rest[i] == all[i + 1] && plans[1..][i] == plans[i + 1];
    if SlotChecks(plans[0], all[0]) && Checks(plans[1..], rest) {
      forall i | 0 <= i < |plans| ensures SlotChecks(plans[i], all[i]) {
        if i > 0 {
          assert SlotChecks(plans[1..][i - 1], rest[i - 1]);
        }
      }
    }
    if Checks(plans, all) {
      forall i | 0 <= i < |rest| ensures SlotChecks(plans[1..][i], rest[i]) {
        assert SlotChecks(plans[i + 1], all[i + 1]);
      }
    }
  }

  lemma {:induction false} SlotFromWireExactly(rule: Rule, p: Plan, w: WSlot)
    ensures SlotFromWire(rule, p, w).Ok? && SlotChecks(p, CanonicalSlot(p, SlotFromWire(rule, p, w).value))
            <==> AcceptableSlot(rule, p, w)
    ensures AcceptableSlot(rule, p, w) ==> SlotFromWire(rule, p, w).value == DenotedSlot(p, w)
    decreases p
  {
    hide FromWire, Acceptable, Denoted, DenotedMany, ManyFromWire, KeysApart, TextOk, WTextOk;
    match (p.shape, w) {
      case (Required(t), WSingle(Some(x))) =>
        FromWireExactly(rule, t, x);
        if FromWire(rule, t, x).Ok? {
          TextAlike(rule, t, x, p.limits);
        }
      case (Optional(t), WSingle(Some(x))) =>
        FromWireExactly(rule, t, x);
        if FromWire(rule, t, x).Ok? {
          TextAlike(rule, t, x, p.limits);
        }
      case (Repeated(t), WMany(xs)) =>
        ManyFromWireExactly(rule, t, xs);
        if ManyFromWire(rule, t, xs).Ok? {
          ListChecks(rule, p, t, xs);
        }
      case (OneOf(_, arms), WCase(Some(kx))) =>
        if kx.0 < |arms| {
          assert arms[kx.0] in arms;
          FromWireExactly(rule, arms[kx.0].t, kx.1);
        }
      case _ =>
    }
  }

  lemma {:induction false} TextAlike(rule: Rule, t: Type, w: WDatum, limits: Limits)
    requires FromWire(rule, t, w).Ok?
    ensures TextOk(limits, FromWire(rule, t, w).value) <==> WTextOk(limits, w)
  {
  }

  lemma {:induction false} ManyReads(rule: Rule, t: Type, ws: seq<WDatum>)
    ensures ManyFromWire(rule, t, ws).Ok? <==> forall i | 0 <= i < |ws| :: FromWire(rule, t, ws[i]).Ok?
    ensures ManyFromWire(rule, t, ws).Ok? ==>
              var ds := ManyFromWire(rule, t, ws).value;
              |ds| == |ws| && forall i | 0 <= i < |ws| :: ds[i] == FromWire(rule, t, ws[i]).value
  {
    hide FromWire;
    if ws != [] {
      ManyReads(rule, t, ws[1..]);
      assert forall i | 0 <= i < |ws| - 1 :: ws[1..][i] == ws[i + 1];
      if forall i | 0 <= i < |ws| :: FromWire(rule, t, ws[i]).Ok? {
        assert FromWire(rule, t, ws[0]).Ok?;
        assert forall i | 0 <= i < |ws| - 1 :: FromWire(rule, t, ws[1..][i]).Ok?;
      }
      if ManyFromWire(rule, t, ws).Ok? {
        forall i | 0 <= i < |ws| ensures FromWire(rule, t, ws[i]).Ok? {
          assert i > 0 ==> FromWire(rule, t, ws[1..][i - 1]).Ok?;
        }
      }
    }
  }

  lemma {:induction false} ManyFromWireExactly(rule: Rule, t: Type, ws: seq<WDatum>)
    ensures ManyFromWire(rule, t, ws).Ok? <==> forall w | w in ws :: Acceptable(rule, t, w)
    ensures ManyFromWire(rule, t, ws).Ok? ==>
              && ManyFromWire(rule, t, ws).value == DenotedMany(t, ws)
              && forall w | w in ws :: FromWire(rule, t, w).Ok?
    decreases t, 2
  {
    ManyReads(rule, t, ws);
    forall w | w in ws
      ensures FromWire(rule, t, w).Ok? <==> Acceptable(rule, t, w)
      ensures FromWire(rule, t, w).Ok? ==> FromWire(rule, t, w).value == Denoted(t, w)
    {
      FromWireExactly(rule, t, w);
    }
    hide FromWire, Acceptable, ManyFromWire, Denoted;
    assert forall i | 0 <= i < |ws| :: ws[i] in ws;
    if ManyFromWire(rule, t, ws).Ok? {
      assert forall i | 0 <= i < |ws| :: FromWire(rule, t, ws[i]).Ok?;
    }
  }

  /** A list's checks do not depend on its having been sorted. */
  lemma {:induction false} ListChecks(rule: Rule, p: Plan, t: Type, xs: seq<WDatum>)
    requires p.shape == Repeated(t) && ManyFromWire(rule, t, xs).Ok?
    ensures SlotChecks(p, CanonicalSlot(p, Many(ManyFromWire(rule, t, xs).value))) <==>
            && (forall x | x in xs :: WTextOk(p.limits, x))
            && (p.limits.maxItems.Some? ==> |xs| <= p.limits.maxItems.value)
            && (p.limits.uniqueBy != [] && t.Message?
                ==> KeysApart(t.plans, p.limits.uniqueBy, DenotedMany(t, xs)))
    decreases t, 4
  {
    hide SortBy, FromWire, ManyFromWire, Denoted, TextOk, WTextOk, KeysDistinct, KeysApart, Acceptable;
    ManyFromWireExactly(rule, t, xs);
    var ds := DenotedMany(t, xs);
    ListTexts(rule, p.limits, t, xs);
    SortCount(t, ds);
    ListKeys(t, p.limits.uniqueBy, ds);
  }

  lemma {:induction false} ListTexts(rule: Rule, limits: Limits, t: Type, xs: seq<WDatum>)
    requires ManyFromWire(rule, t, xs).Ok?
    ensures (forall d | d in DenotedMany(t, xs) :: TextOk(limits, d)) <==> (forall x | x in xs :: WTextOk(limits, x))
    decreases t, 3
  {
    ManyFromWireExactly(rule, t, xs);
    var ds := DenotedMany(t, xs);
    hide FromWire, ManyFromWire, TextOk, WTextOk, Acceptable, Denoted, DenotedMany;
    forall i | 0 <= i < |xs| ensures TextOk(limits, ds[i]) <==> WTextOk(limits, xs[i]) {
      assert xs[i] in xs;
      FromWireExactly(rule, t, xs[i]);
      TextAlike(rule, t, xs[i], limits);
    }
  }

  lemma {:induction false} ListKeys(t: Type, keys: seq<nat>, ds: seq<Datum>)
    ensures KeysDistinct(t, keys, SortBy(t, ds)) <==> KeysDistinct(t, keys, ds)
    ensures KeysDistinct(t, keys, ds) <==> (t.Message? ==> KeysApart(t.plans, keys, ds))
  {
    hide SortBy, KeysApart, IsFirstRepeat;
    if t.Message? {
      SortApart(t, t.plans, keys, ds);
      NoRepeatIsApart(t.plans, keys, ds);
      NoRepeatIsApart(t.plans, keys, SortBy(t, ds));
    }
  }

  lemma {:induction false} SortCount(t: Type, ds: seq<Datum>)
    ensures |SortBy(t, ds)| == |ds| && forall d :: d in SortBy(t, ds) <==> d in ds
  {
    hide InsertBy;
    if ds != [] {
      SortCount(t, ds[..|ds| - 1]);
      InsertByContents(t, SortBy(t, ds[..|ds| - 1]), ds[|ds| - 1]);
      assert ds == ds[..|ds| - 1] + [ds[|ds| - 1]];
    }
  }

  // --- Arrival order ---

  /** The trees agree but for the order of unordered lists, at any level. */
  ghost predicate Rearranged(t: Type, w: WDatum, v: WDatum)
    decreases t, 1
  {
    match (t, w, v)
    case (Message(plans), WMessage(ws), WMessage(vs)) => RearrangedSlots(plans, ws, vs)
    case _ => w == v
  }

  ghost predicate RearrangedSlots(plans: seq<Plan>, ws: seq<WSlot>, vs: seq<WSlot>)
    decreases plans, 0
  {
    if plans == [] then true
    else ws != [] && vs != [] && RearrangedSlot(plans[0], ws[0], vs[0]) && RearrangedSlots(plans[1..], ws[1..], vs[1..])
  }

  ghost predicate RearrangedSlot(p: Plan, w: WSlot, v: WSlot)
    decreases p
  {
    match (p.shape, w, v)
    case (Required(t), WSingle(Some(x)), WSingle(Some(y))) => Rearranged(t, x, y)
    case (Optional(t), WSingle(Some(x)), WSingle(Some(y))) => Rearranged(t, x, y)
    case (Repeated(t), WMany(xs), WMany(ys)) =>
      if p.sortable then exists zs: seq<WDatum> ::
        multiset(zs) == multiset(ys) && |zs| == |xs| && forall i | 0 <= i < |xs| :: Rearranged(t, xs[i], zs[i])
      else |ys| == |xs| && forall i | 0 <= i < |xs| :: Rearranged(t, xs[i], ys[i])
    case (OneOf(_, arms), WCase(Some(kx)), WCase(Some(ky))) =>
      kx.0 == ky.0 && (if kx.0 < |arms| then Rearranged(arms[kx.0].t, kx.1, ky.1) else kx.1 == ky.1)
    case _ => w == v
  }

  lemma {:induction false} SortedHead(t: Type, xs: seq<Datum>, ys: seq<Datum>)
    requires WF(t) && AllTyped(t, xs) && AllTyped(t, ys) && Sorted(t, xs) && Sorted(t, ys)
    requires multiset(xs) == multiset(ys) && xs != [] && ys != []
    ensures xs[0] == ys[0]
  {
    hide Typed, Cmp, WF;
    SameMembers(xs, ys);
    var (x, y) := (xs[0], ys[0]);
    assert x in ys && y in xs;
    if x != y {
      var i :| 0 < i < |xs| && xs[i] == y;
      var j :| 0 < j < |ys| && ys[j] == x;
      assert Le(t, x, y) && Le(t, y, x);
      CmpFlip(t, x, y);
      CmpEqual(t, x, y);
    }
  }

  /** Sorted lists of one multiset are one list: equal in the order is identical. */
  lemma {:induction false} SortedUnique(t: Type, xs: seq<Datum>, ys: seq<Datum>)
    requires WF(t) && AllTyped(t, xs) && AllTyped(t, ys) && Sorted(t, xs) && Sorted(t, ys)
    requires multiset(xs) == multiset(ys)
    ensures xs == ys
    decreases |xs|
  {
    hide AllTyped, Sorted, WF;
    SameMembers(xs, ys);
    if xs != [] {
      SortedHead(t, xs, ys);
      TailTyped(t, xs);
      TailTyped(t, ys);
      assert xs == [xs[0]] + xs[1..] && ys == [xs[0]] + ys[1..];
      ConsMultiset(xs[0], xs[1..]);
      ConsMultiset(xs[0], ys[1..]);
      SortedUnique(t, xs[1..], ys[1..]);
    }
  }

  lemma {:induction false} SortForgets(t: Type, xs: seq<Datum>, ys: seq<Datum>)
    requires WF(t) && AllTyped(t, xs) && AllTyped(t, ys) && multiset(xs) == multiset(ys)
    ensures SortBy(t, xs) == SortBy(t, ys)
  {
    SortByExact(t, xs);
    SortByExact(t, ys);
    SortedUnique(t, SortBy(t, xs), SortBy(t, ys));
  }

  /** Reading a rearranged list gives a rearranged list. */
  lemma {:induction false} ManyRearranged(rule: Rule, t: Type, zs: seq<WDatum>, ys: seq<WDatum>)
    requires multiset(zs) == multiset(ys) && ManyFromWire(rule, t, zs).Ok?
    ensures ManyFromWire(rule, t, ys).Ok?
    ensures multiset(ManyFromWire(rule, t, ys).value) == multiset(ManyFromWire(rule, t, zs).value)
    decreases |zs|
  {
    hide FromWire;
    if zs == [] {
      assert |multiset(zs)| == |multiset(ys)| && |multiset(ys)| == |ys|;
    } else {
      var i := Partner(zs, ys);
      assert zs == [zs[0]] + zs[1..];
      ManyRearranged(rule, t, zs[1..], ys[..i] + ys[i + 1..]);
      ManyInserted(rule, t, ys, i);
    }
  }

  lemma {:induction false} Partner<T>(zs: seq<T>, ys: seq<T>) returns (i: nat)
    requires multiset(zs) == multiset(ys) && zs != []
    ensures i < |ys| && ys[i] == zs[0] && multiset(zs[1..]) == multiset(ys[..i] + ys[i + 1..])
  {
    assert zs[0] in multiset(ys);
    i :| 0 <= i < |ys| && ys[i] == zs[0];
    var x := zs[0];
    assert multiset(zs) == multiset{x} + multiset(zs[1..]) by { assert zs == [x] + zs[1..]; }
    assert multiset(ys) == multiset(ys[..i]) + multiset{x} + multiset(ys[i + 1..]) by {
      assert ys == ys[..i] + [x] + ys[i + 1..];
    }
    assert multiset(ys[..i] + ys[i + 1..]) == multiset(ys[..i]) + multiset(ys[i + 1..]);
    assert multiset(zs[1..]) == multiset(zs) - multiset{x};
    assert multiset(ys[..i] + ys[i + 1..]) == multiset(ys) - multiset{x};
  }

  lemma {:induction false} ManyInserted(rule: Rule, t: Type, ys: seq<WDatum>, i: nat)
    requires i < |ys| && ManyFromWire(rule, t, ys[..i] + ys[i + 1..]).Ok? && FromWire(rule, t, ys[i]).Ok?
    ensures ManyFromWire(rule, t, ys).Ok?
    ensures multiset(ManyFromWire(rule, t, ys).value) ==
            multiset{FromWire(rule, t, ys[i]).value} + multiset(ManyFromWire(rule, t, ys[..i] + ys[i + 1..]).value)
    decreases i
  {
    hide FromWire;
    var rest := ys[..i] + ys[i + 1..];
    if i == 0 {
      assert rest == ys[1..];
    } else {
      assert rest[0] == ys[0] && rest[1..] == ys[1..][..i - 1] + ys[1..][i..];
      ManyInserted(rule, t, ys[1..], i - 1);
      assert ys[1..][i - 1] == ys[i];
    }
  }

  lemma {:induction false} ManyPairwise(rule: Rule, t: Type, xs: seq<WDatum>, zs: seq<WDatum>)
    requires |xs| == |zs| && ManyFromWire(rule, t, xs).Ok?
    requires forall i | 0 <= i < |xs| ::
               FromWire(rule, t, xs[i]).Ok? ==> FromWire(rule, t, zs[i]) == FromWire(rule, t, xs[i])
    ensures ManyFromWire(rule, t, zs) == ManyFromWire(rule, t, xs)
  {
    hide FromWire;
    if xs != [] {
      assert forall i | 0 <= i < |xs| - 1 :: xs[1..][i] == xs[i + 1] && zs[1..][i] == zs[i + 1];
      ManyPairwise(rule, t, xs[1..], zs[1..]);
    }
  }

  /** Construction forgets arrival order: two trees that differ only in the order of
      unordered lists, at any level, build the same message. */
  lemma {:induction false} OrderForgotten(rule: Rule, t: Type, w: WDatum, v: WDatum)
    requires WF(t) && Countable(w) && Rearranged(t, w, v) && FromWire(rule, t, w).Ok?
    ensures FromWire(rule, t, v) == FromWire(rule, t, w)
    decreases t, 1
  {
    match (t, w, v) {
      case (Message(plans), WMessage(ws), WMessage(vs)) =>
        var slots := SlotsFromWire(rule, plans, ws).value;
        SlotsForgotten(rule, plans, ws, vs);
      case _ =>
    }
  }

  lemma {:induction false} SlotsForgotten(rule: Rule, plans: seq<Plan>, ws: seq<WSlot>, vs: seq<WSlot>)
    requires (forall p | p in plans :: WFPlan(p)) && (forall s | s in ws :: CountableSlot(s))
    requires RearrangedSlots(plans, ws, vs) && SlotsFromWire(rule, plans, ws).Ok?
    ensures SlotsFromWire(rule, plans, vs).Ok?
    ensures CanonicalSlots(plans, SlotsFromWire(rule, plans, vs).value) ==
            CanonicalSlots(plans, SlotsFromWire(rule, plans, ws).value)
    decreases plans, 0
  {
    hide SlotFromWire, RearrangedSlot, CanonicalSlot, CountableSlot;
    if plans != [] {
      assert WFPlan(plans[0]) && ws[0] in ws;
      SlotForgotten(rule, plans[0], ws[0], vs[0]);
      SlotsForgotten(rule, plans[1..], ws[1..], vs[1..]);
      var (a, b) := (SlotsFromWire(rule, plans, ws).value, SlotsFromWire(rule, plans, vs).value);
      CanonicalCons(plans, a);
      CanonicalCons(plans, b);
      assert a[1..] == SlotsFromWire(rule, plans[1..], ws[1..]).value;
      assert b[1..] == SlotsFromWire(rule, plans[1..], vs[1..]).value;
    }
  }

  lemma {:induction false} CanonicalCons(plans: seq<Plan>, slots: seq<Slot>)
    requires plans != [] && |plans| == |slots|
    ensures CanonicalSlots(plans, slots) == [CanonicalSlot(plans[0], slots[0])] + CanonicalSlots(plans[1..], slots[1..])
  {
    hide CanonicalSlot;
  }

  lemma {:induction false} SlotForgotten(rule: Rule, p: Plan, w: WSlot, v: WSlot)
    requires WFPlan(p) && CountableSlot(w) && RearrangedSlot(p, w, v) && SlotFromWire(rule, p, w).Ok?
    ensures SlotFromWire(rule, p, v).Ok?
    ensures CanonicalSlot(p, SlotFromWire(rule, p, v).value) == CanonicalSlot(p, SlotFromWire(rule, p, w).value)
    decreases p
  {
    match (p.shape, w, v) {
      case (Required(t), WSingle(Some(x)), WSingle(Some(y))) => OrderForgotten(rule, t, x, y);
      case (Optional(t), WSingle(Some(x)), WSingle(Some(y))) => OrderForgotten(rule, t, x, y);
      case (Repeated(t), WMany(xs), WMany(ys)) =>
        var zs: seq<WDatum> := ys;
        if p.sortable {
          zs :| multiset(zs) == multiset(ys) && |zs| == |xs| && forall i | 0 <= i < |xs| :: Rearranged(t, xs[i], zs[i]);
        }
        forall i | 0 <= i < |xs| && FromWire(rule, t, xs[i]).Ok?
          ensures FromWire(rule, t, zs[i]) == FromWire(rule, t, xs[i])
        {
          assert xs[i] in xs;
          OrderForgotten(rule, t, xs[i], zs[i]);
        }
        ManyPairwise(rule, t, xs, zs);
        if p.sortable {
          ListForgotten(rule, p, t, xs, zs, ys);
        }
      case (OneOf(_, arms), WCase(Some(kx)), WCase(Some(ky))) =>
        assert arms[kx.0] in arms;
        OrderForgotten(rule, arms[kx.0].t, kx.1, ky.1);
      case _ =>
    }
  }

  lemma {:induction false} ListForgotten(rule: Rule, p: Plan, t: Type, xs: seq<WDatum>, zs: seq<WDatum>,
      ys: seq<WDatum>)
    requires WF(t) && p.sortable && p.shape == Repeated(t) && multiset(zs) == multiset(ys)
    requires ManyFromWire(rule, t, xs).Ok? && ManyFromWire(rule, t, zs) == ManyFromWire(rule, t, xs)
    requires forall x | x in xs :: Countable(x)
    ensures ManyFromWire(rule, t, ys).Ok?
    ensures CanonicalSlot(p, Many(ManyFromWire(rule, t, ys).value)) ==
            CanonicalSlot(p, Many(ManyFromWire(rule, t, xs).value))
  {
    ManyRearranged(rule, t, zs, ys);
    var (a, b) := (ManyFromWire(rule, t, xs).value, ManyFromWire(rule, t, ys).value);
    ManyFromWireValid(rule, t, xs);
    forall d | d in a ensures Typed(t, d) { ValidIsTyped(rule, t, d); }
    assert forall d :: d in b <==> d in multiset(b);
    assert forall d :: d in a <==> d in multiset(a);
    hide Typed, FromWire, SortBy, Countable;
    SortForgets(t, a, b);
  }

  /** Hence their content streams are equal too, bytes and all. */
  lemma StreamForgetsOrder(rule: Rule, t: Type, w: WDatum, v: WDatum)
    requires WF(t) && Countable(w) && Rearranged(t, w, v) && FromWire(rule, t, w).Ok?
    ensures FromWire(rule, t, v).Ok? && Typed(t, FromWire(rule, t, w).value) && Typed(t, FromWire(rule, t, v).value)
    ensures DatumBytes(t, FromWire(rule, t, v).value) == DatumBytes(t, FromWire(rule, t, w).value)
  {
    OrderForgotten(rule, t, w, v);
    FromWireValid(rule, t, w);
    ValidIsTyped(rule, t, FromWire(rule, t, w).value);
  }
}
