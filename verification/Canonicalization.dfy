/** Canonicalization (`codegen/src/wrapper/mod.rs`, the generated
    `canonicalize`): sorting what the schema calls unordered, and what it means
    for the content hash. */
module Canonicalization {
  import opened Bytes
  import opened Orders
  import opened Schemas
  import opened SchemaOrder
  import opened SchemaDigest
  import L = Leaves

  ghost predicate AllTyped(t: Type, ds: seq<Datum>) {
    forall d | d in ds :: Typed(t, d)
  }

  ghost predicate Sorted(t: Type, ds: seq<Datum>) {
    forall i, j | 0 <= i < j < |ds| :: Le(t, ds[i], ds[j])
  }

  /** A stable sort by the canonical order. */
  function InsertBy(t: Type, ds: seq<Datum>, d: Datum): seq<Datum> {
    if ds == [] then [d]
    else if Cmp(t, d, ds[0]) == Less then [d] + ds
    else [ds[0]] + InsertBy(t, ds[1..], d)
  }

  function SortBy(t: Type, ds: seq<Datum>): seq<Datum> {
    if ds == [] then [] else InsertBy(t, SortBy(t, ds[..|ds| - 1]), ds[|ds| - 1])
  }

  lemma {:induction false} InsertByContents(t: Type, ds: seq<Datum>, d: Datum)
    ensures multiset(InsertBy(t, ds, d)) == multiset(ds) + multiset{d}
    ensures forall x :: x in InsertBy(t, ds, d) <==> x in ds || x == d
    ensures |InsertBy(t, ds, d)| == |ds| + 1
  {
    hide Cmp;
    if ds != [] {
      assert ds == [ds[0]] + ds[1..];
      InsertByContents(t, ds[1..], d);
    }
  }

  lemma ConsSorted(t: Type, d: Datum, ds: seq<Datum>)
    requires Sorted(t, ds) && forall x | x in ds :: Le(t, d, x)
    ensures Sorted(t, [d] + ds)
  {
  }

  lemma {:induction false} InsertBySorted(t: Type, ds: seq<Datum>, d: Datum)
    requires WF(t) && AllTyped(t, ds) && Typed(t, d) && Sorted(t, ds)
    ensures Sorted(t, InsertBy(t, ds, d))
  {
    hide WF, Typed, Cmp;
    if ds != [] {
      var (first, rest) := (ds[0], ds[1..]);
      assert first in ds && forall x | x in rest :: x in ds && Le(t, first, x);
      if Cmp(t, d, first) == Less {
        forall x | x in ds ensures Le(t, d, x) {
          if x != first {
            LeTransitive(t, d, first, x);
          }
        }
        ConsSorted(t, d, ds);
      } else {
        CmpFlip(t, d, first);
        InsertBySorted(t, rest, d);
        InsertByContents(t, rest, d);
        ConsSorted(t, first, InsertBy(t, rest, d));
      }
    }
  }

  lemma {:induction false} SortByExact(t: Type, ds: seq<Datum>)
    requires WF(t) && AllTyped(t, ds)
    ensures Sorted(t, SortBy(t, ds)) && multiset(SortBy(t, ds)) == multiset(ds)
    ensures AllTyped(t, SortBy(t, ds)) && |SortBy(t, ds)| == |ds|
  {
    if ds != [] {
      var (init, last) := (ds[..|ds| - 1], ds[|ds| - 1]);
      assert ds == init + [last];
      SortByExact(t, init);
      InsertByContents(t, SortBy(t, init), last);
      InsertBySorted(t, SortBy(t, init), last);
      SameMembers(SortBy(t, ds), ds);
    }
  }

  lemma SameMembers(a: seq<Datum>, b: seq<Datum>)
    requires multiset(a) == multiset(b)
    ensures forall x :: x in a <==> x in b
    ensures |a| == |b|
  {
    assert forall x :: x in a <==> x in multiset(a);
    assert forall x :: x in b <==> x in multiset(b);
    assert |multiset(a)| == |a| && |multiset(b)| == |b|;
  }

  // --- The sorted form of a multiset is unique, up to what the order ignores ---

  /** The order of two elements of different content depends on content alone. */
  ghost predicate OrderFollowsContent(t: Type) {
    forall a, b, c, d |
      && Typed(t, a) && Typed(t, b) && Typed(t, c) && Typed(t, d)
      && Erase(t, a) == Erase(t, c) && Erase(t, b) == Erase(t, d) && Erase(t, a) != Erase(t, b) ::
      Cmp(t, a, b) == Cmp(t, c, d)
  }

  /** Sorting lists of the same content gives the same content in the same
      order, whatever their arrival order and metadata. */
  ghost predicate SortIgnoresMetadata(t: Type) {
    forall xs, ys |
      AllTyped(t, xs) && AllTyped(t, ys) && multiset(EraseMany(t, xs)) == multiset(EraseMany(t, ys)) ::
      EraseMany(t, SortBy(t, xs)) == EraseMany(t, SortBy(t, ys))
  }

  lemma {:induction false} InsertByErased(t: Type, ds: seq<Datum>, d: Datum)
    ensures multiset(EraseMany(t, InsertBy(t, ds, d))) == multiset(EraseMany(t, ds)) + multiset{Erase(t, d)}
  {
    hide Erase, EraseMany, Cmp;
    if ds != [] && Cmp(t, d, ds[0]) != Less {
      InsertByErased(t, ds[1..], d);
      EraseCons(t, ds[0], ds[1..]);
      EraseCons(t, ds[0], InsertBy(t, ds[1..], d));
      assert ds == [ds[0]] + ds[1..];
    } else {
      EraseCons(t, d, ds);
      assert [d] + ds == if ds == [] then [d] else [d] + ds;
    }
  }

  lemma EraseCons(t: Type, d: Datum, ds: seq<Datum>)
    ensures EraseMany(t, [d] + ds) == [Erase(t, d)] + EraseMany(t, ds)
  {
    assert ([d] + ds)[1..] == ds;
  }

  lemma {:induction false} EraseInit(t: Type, ds: seq<Datum>)
    requires ds != []
    ensures EraseMany(t, ds) == EraseMany(t, ds[..|ds| - 1]) + [Erase(t, ds[|ds| - 1])]
  {
    hide Erase;
  }

  /** Sorting permutes the contents. */
  lemma {:induction false} SortByErased(t: Type, ds: seq<Datum>)
    ensures multiset(EraseMany(t, SortBy(t, ds))) == multiset(EraseMany(t, ds))
  {
    hide Erase, InsertBy;
    if ds != [] {
      var (init, last) := (ds[..|ds| - 1], ds[|ds| - 1]);
      SortByErased(t, init);
      InsertByErased(t, SortBy(t, init), last);
      EraseInit(t, ds);
    }
  }

  /** Two sorted lists of the same content start with the same content. */
  lemma HeadsAgree(t: Type, xs: seq<Datum>, ys: seq<Datum>)
    requires WF(t) && OrderFollowsContent(t) && AllTyped(t, xs) && AllTyped(t, ys)
    requires Sorted(t, xs) && Sorted(t, ys) && xs != [] && ys != []
    requires multiset(EraseMany(t, xs)) == multiset(EraseMany(t, ys))
    ensures Erase(t, xs[0]) == Erase(t, ys[0])
  {
    hide Erase, Typed, Cmp;
    var (ex, ey) := (EraseMany(t, xs), EraseMany(t, ys));
    SameMembers(ex, ey);
    assert ex[0] in ey && ey[0] in ex;
    var j :| 0 <= j < |ey| && ey[j] == ex[0];
    var i :| 0 <= i < |ex| && ex[i] == ey[0];
    if ex[0] != ey[0] {
      assert xs[0] in xs && xs[i] in xs && ys[0] in ys && ys[j] in ys;
      assert Cmp(t, xs[0], xs[i]) == Cmp(t, ys[j], ys[0]);
      assert Le(t, xs[0], xs[i]) && Le(t, ys[0], ys[j]);
      CmpFlip(t, ys[0], ys[j]);
      CmpEqual(t, ys[0], ys[j]);
    }
  }

  lemma TailTyped(t: Type, xs: seq<Datum>)
    requires AllTyped(t, xs) && Sorted(t, xs) && xs != []
    ensures AllTyped(t, xs[1..]) && Sorted(t, xs[1..])
  {
    hide Typed, Le;
  }

  lemma ConsMultiset<T>(x: T, xs: seq<T>)
    ensures multiset(xs) == multiset([x] + xs) - multiset{x}
  {
  }

  lemma TailErased(t: Type, xs: seq<Datum>)
    requires xs != []
    ensures EraseMany(t, xs) == [Erase(t, xs[0])] + EraseMany(t, xs[1..])
    ensures multiset(EraseMany(t, xs[1..])) == multiset(EraseMany(t, xs)) - multiset{Erase(t, xs[0])}
  {
    hide Erase;
    ConsMultiset(Erase(t, xs[0]), EraseMany(t, xs[1..]));
  }

  lemma {:induction false} SortedContentUnique(t: Type, xs: seq<Datum>, ys: seq<Datum>)
    requires WF(t) && OrderFollowsContent(t) && AllTyped(t, xs) && AllTyped(t, ys)
    requires Sorted(t, xs) && Sorted(t, ys)
    requires multiset(EraseMany(t, xs)) == multiset(EraseMany(t, ys))
    ensures EraseMany(t, xs) == EraseMany(t, ys)
    decreases |xs|
  {
    hide Erase, EraseMany, Sorted, AllTyped, OrderFollowsContent, WF;
    SameMembers(EraseMany(t, xs), EraseMany(t, ys));
    assert |xs| == |EraseMany(t, xs)| && |ys| == |EraseMany(t, ys)|;
    if xs == [] {
      assert EraseMany(t, xs) == [] == EraseMany(t, ys);
    } else {
      HeadsAgree(t, xs, ys);
      TailTyped(t, xs);
      TailTyped(t, ys);
      TailErased(t, xs);
      TailErased(t, ys);
      SortedContentUnique(t, xs[1..], ys[1..]);
    }
  }

  /** The exact condition: sorting cannot move a content hash if and only if the
      order between elements of different content is decided by content. */
  lemma SortIgnoresMetadataExactly(t: Type)
    requires WF(t)
    ensures SortIgnoresMetadata(t) <==> OrderFollowsContent(t)
  {
    if OrderFollowsContent(t) {
      forall xs, ys |
        AllTyped(t, xs) && AllTyped(t, ys) && multiset(EraseMany(t, xs)) == multiset(EraseMany(t, ys))
        ensures EraseMany(t, SortBy(t, xs)) == EraseMany(t, SortBy(t, ys))
      {
        SortByExact(t, xs);
        SortByExact(t, ys);
        SortByErased(t, xs);
        SortByErased(t, ys);
        SortedContentUnique(t, SortBy(t, xs), SortBy(t, ys));
      }
    }
    if SortIgnoresMetadata(t) {
      forall a, b, c, d |
        && Typed(t, a) && Typed(t, b) && Typed(t, c) && Typed(t, d)
        && Erase(t, a) == Erase(t, c) && Erase(t, b) == Erase(t, d) && Erase(t, a) != Erase(t, b)
        ensures Cmp(t, a, b) == Cmp(t, c, d)
      {
        PairOrder(t, a, b, c, d);
      }
    }
  }

  lemma PairOrder(t: Type, a: Datum, b: Datum, c: Datum, d: Datum)
    requires WF(t) && SortIgnoresMetadata(t)
    requires Typed(t, a) && Typed(t, b) && Typed(t, c) && Typed(t, d)
    requires Erase(t, a) == Erase(t, c) && Erase(t, b) == Erase(t, d) && Erase(t, a) != Erase(t, b)
    ensures Cmp(t, a, b) == Cmp(t, c, d)
  {
    hide Erase, Typed, Cmp, WF, SortBy, EraseMany;
    SortPair(t, b, a);
    SortPair(t, d, c);
    CmpEqual(t, a, b);
    CmpEqual(t, c, d);
    PairErased(t, b, a);
    PairErased(t, d, c);
    PairErased(t, a, b);
    PairErased(t, c, d);
    assert AllTyped(t, [b, a]) && AllTyped(t, [d, c]);
    assert EraseMany(t, SortBy(t, [b, a])) == EraseMany(t, SortBy(t, [d, c]));
    assert EraseMany(t, SortBy(t, [b, a]))[0] == EraseMany(t, SortBy(t, [d, c]))[0];
  }

  lemma PairErased(t: Type, x: Datum, y: Datum)
    ensures EraseMany(t, [x, y]) == [Erase(t, x), Erase(t, y)]
  {
  }

  lemma SortPair(t: Type, b: Datum, a: Datum)
    ensures SortBy(t, [b, a]) == if Cmp(t, a, b) == Less then [a, b] else [b, a]
  {
    assert [b, a][..1] == [b] && [b][..0] == [];
    assert SortBy(t, []) == [];
    assert InsertBy(t, [], b) == [b];
    assert SortBy(t, [b]) == InsertBy(t, SortBy(t, [b][..0]), b) == [b];
    assert [b][1..] == [];
    assert InsertBy(t, [b], a) == if Cmp(t, a, b) == Less then [a] + [b] else [b] + InsertBy(t, [], a);
  }

  // --- A checkable condition: metadata directly on the sorted element ---

  predicate NoMetadata(t: Type)
    decreases t
  {
    t.Message? ==> forall p | p in t.plans :: NoMetadataPlan(p)
  }

  predicate NoMetadataPlan(p: Plan)
    decreases p
  {
    && !p.metadata
    && match p.shape
       case OneOf(_, arms) => forall a | a in arms :: NoMetadata(a.t)
       case _ => NoMetadata(p.shape.t)
  }

  /** Metadata sits only on the element itself: no visible field contains any. */
  predicate DirectMetadata(t: Type) {
    t.Message? ==> forall p | p in t.plans :: p.metadata || NoMetadataPlan(p)
  }

  lemma {:induction false} EraseNothing(t: Type, d: Datum)
    requires NoMetadata(t)
    ensures Erase(t, d) == d
    decreases t, 1
  {
    if t.Message? && d.DMessage? {
      EraseNoSlots(t.plans, d.slots);
    }
  }

  lemma {:induction false} EraseNoSlots(plans: seq<Plan>, slots: seq<Slot>)
    requires forall p | p in plans :: NoMetadataPlan(p)
    ensures EraseSlots(plans, slots) == slots
    decreases plans, 0
  {
    if plans != [] && slots != [] {
      assert NoMetadataPlan(plans[0]);
      EraseNoSlot(plans[0], slots[0]);
      EraseNoSlots(plans[1..], slots[1..]);
      assert slots == [slots[0]] + slots[1..];
    }
  }

  lemma {:induction false} EraseNoSlot(p: Plan, s: Slot)
    requires NoMetadataPlan(p)
    ensures EraseSlot(p, s) == s
    decreases p
  {
    match (p.shape, s) {
      case (Required(t), Single(d)) => EraseNothing(t, d);
      case (Optional(t), Single(d)) => EraseNothing(t, d);
      case (Repeated(t), Many(ds)) => EraseNoMany(t, ds);
      case (OneOf(_, arms), Case(k, d)) =>
        if k < |arms| {
          assert arms[k] in arms;
          EraseNothing(arms[k].t, d);
        }
      case _ =>
    }
  }

  lemma {:induction false} EraseNoMany(t: Type, ds: seq<Datum>)
    requires NoMetadata(t)
    ensures EraseMany(t, ds) == ds
    decreases t, 2, |ds|
  {
    if ds != [] {
      EraseNothing(t, ds[0]);
      EraseNoMany(t, ds[1..]);
    }
  }

  lemma {:induction false} ErasedFieldsAgree(plans: seq<Plan>, a: seq<Slot>, b: seq<Slot>)
    requires |plans| == |a| == |b|
    requires forall p | p in plans :: p.metadata || NoMetadataPlan(p)
    ensures EraseSlots(plans, a) == EraseSlots(plans, b) <==> SamePhase(plans, a, b, false)
  {
    if plans != [] {
      ErasedFieldsAgree(plans[1..], a[1..], b[1..]);
      SamePhaseStep(plans, a, b, false);
      if !plans[0].metadata {
        assert NoMetadataPlan(plans[0]);
        EraseNoSlot(plans[0], a[0]);
        EraseNoSlot(plans[0], b[0]);
      }
      var (ea, eb) := (EraseSlots(plans, a), EraseSlots(plans, b));
      assert ea == [ea[0]] + ea[1..] && eb == [eb[0]] + eb[1..];
    }
  }

  lemma DirectMetadataSuffices(t: Type)
    requires WF(t) && DirectMetadata(t)
    ensures OrderFollowsContent(t)
  {
    forall a, b, c, d |
      && Typed(t, a) && Typed(t, b) && Typed(t, c) && Typed(t, d)
      && Erase(t, a) == Erase(t, c) && Erase(t, b) == Erase(t, d) && Erase(t, a) != Erase(t, b)
      ensures Cmp(t, a, b) == Cmp(t, c, d)
    {
      if t.Message? {
        var plans := t.plans;
        assert TypedSlots(plans, a.slots) && TypedSlots(plans, b.slots);
        assert TypedSlots(plans, c.slots) && TypedSlots(plans, d.slots);
        ErasedFieldsAgree(plans, a.slots, c.slots);
        ErasedFieldsAgree(plans, b.slots, d.slots);
        ErasedFieldsAgree(plans, a.slots, b.slots);
        CmpPhaseEqual(plans, a.slots, c.slots, false);
        CmpPhaseEqual(plans, b.slots, d.slots, false);
        CmpPhaseEqual(plans, a.slots, b.slots, false);
        PhaseChain(plans, a.slots, c.slots, d.slots, false);
        PhaseChain(plans, a.slots, b.slots, d.slots, false);
      }
    }
  }

  // --- Construction and the content hash ---

  /** Construction's canonical form of one message's fields: every sortable
      field sorted, the rest as given. */
  function CanonicalSlot(p: Plan, s: Slot): Slot {
    if p.sortable && p.shape.Repeated? && s.Many? then Many(SortBy(p.shape.t, s.ds)) else s
  }

  function CanonicalSlots(plans: seq<Plan>, slots: seq<Slot>): (r: seq<Slot>)
    requires |plans| == |slots|
    ensures |r| == |slots|
    ensures forall i | 0 <= i < |slots| :: r[i] == CanonicalSlot(plans[i], slots[i])
  {
    seq(|slots|, i requires 0 <= i < |slots| => CanonicalSlot(plans[i], slots[i]))
  }

  lemma CanonicalTyped(plans: seq<Plan>, slots: seq<Slot>)
    requires WFPlans(plans) && TypedSlots(plans, slots)
    ensures TypedSlots(plans, CanonicalSlots(plans, slots))
  {
    forall i | 0 <= i < |plans| ensures TypedSlot(plans[i], CanonicalSlots(plans, slots)[i]) {
      TypedAt(plans, slots, i);
      assert WFPlan(plans[i]);
      if plans[i].sortable {
        SortByExact(plans[i].shape.t, slots[i].ds);
      }
    }
    TypedAll(plans, CanonicalSlots(plans, slots));
  }

  /** One visible field says the same in two messages: a sortable field as a
      multiset of contents, any other exactly. */
  ghost predicate SameField(p: Plan, a: Slot, b: Slot) {
    if p.sortable && p.shape.Repeated? && a.Many? && b.Many?
    then multiset(EraseMany(p.shape.t, a.ds)) == multiset(EraseMany(p.shape.t, b.ds))
    else EraseSlot(p, a) == EraseSlot(p, b)
  }

  ghost predicate SameContent(plans: seq<Plan>, a: seq<Slot>, b: seq<Slot>)
    requires |plans| == |a| == |b|
  {
    forall i | 0 <= i < |plans| && !plans[i].metadata :: SameField(plans[i], a[i], b[i])
  }

  /** Every sorted visible field's elements are ordered by content. */
  ghost predicate HashStable(plans: seq<Plan>) {
    forall p | p in plans && !p.metadata && p.sortable && p.shape.Repeated? :: OrderFollowsContent(p.shape.t)
  }

  lemma CanonicalFieldAgrees(p: Plan, a: Slot, b: Slot)
    requires WFPlan(p) && TypedSlot(p, a) && TypedSlot(p, b)
    requires p.sortable && p.shape.Repeated? ==> OrderFollowsContent(p.shape.t)
    ensures EraseSlot(p, CanonicalSlot(p, a)) == EraseSlot(p, CanonicalSlot(p, b)) <==> SameField(p, a, b)
  {
    if p.sortable && p.shape.Repeated? {
      CanonicalListAgrees(p.shape.t, a.ds, b.ds);
      hide SortBy, EraseMany, Typed, OrderFollowsContent;
    }
  }

  lemma CanonicalListAgrees(t: Type, xs: seq<Datum>, ys: seq<Datum>)
    requires WF(t) && AllTyped(t, xs) && AllTyped(t, ys) && OrderFollowsContent(t)
    ensures EraseMany(t, SortBy(t, xs)) == EraseMany(t, SortBy(t, ys)) <==>
            multiset(EraseMany(t, xs)) == multiset(EraseMany(t, ys))
  {
    SortByExact(t, xs);
    SortByExact(t, ys);
    SortByErased(t, xs);
    SortByErased(t, ys);
    hide SortBy, EraseMany, OrderFollowsContent, WF, Typed;
    if multiset(EraseMany(t, xs)) == multiset(EraseMany(t, ys)) {
      SortedContentUnique(t, SortBy(t, xs), SortBy(t, ys));
    }
  }

  lemma {:induction false} ErasedSlotsAgree(plans: seq<Plan>, a: seq<Slot>, b: seq<Slot>)
    requires |plans| == |a| == |b|
    ensures EraseSlots(plans, a) == EraseSlots(plans, b) <==>
            forall i | 0 <= i < |plans| && !plans[i].metadata :: EraseSlot(plans[i], a[i]) == EraseSlot(plans[i], b[i])
  {
    if plans != [] {
      ErasedSlotsAgree(plans[1..], a[1..], b[1..]);
      var (ea, eb) := (EraseSlots(plans, a), EraseSlots(plans, b));
      assert ea == [ea[0]] + ea[1..] && eb == [eb[0]] + eb[1..];
      if forall i | 0 <= i < |plans[1..]| && !plans[1..][i].metadata ::
          EraseSlot(plans[1..][i], a[1..][i]) == EraseSlot(plans[1..][i], b[1..][i]) {
        forall i | 0 < i < |plans| && !plans[i].metadata
            ensures EraseSlot(plans[i], a[i]) == EraseSlot(plans[i], b[i]) {
          assert plans[1..][i - 1] == plans[i];
        }
      }
    }
  }

  /** The content hash of constructed messages: equal byte streams if and only
      if equal content, element-level metadata and arrival order aside. */
  lemma ContentHashExact(plans: seq<Plan>, a: seq<Slot>, b: seq<Slot>)
    requires WFPlans(plans) && WF(Message(plans)) && TypedSlots(plans, a) && TypedSlots(plans, b)
    requires HashStable(plans)
    ensures TypedSlots(plans, CanonicalSlots(plans, a)) && TypedSlots(plans, CanonicalSlots(plans, b))
    ensures SameContent(plans, a, b) <==>
            (DatumBytes(Message(plans), DMessage(CanonicalSlots(plans, a))) ==
             DatumBytes(Message(plans), DMessage(CanonicalSlots(plans, b))))
  {
    CanonicalTyped(plans, a);
    CanonicalTyped(plans, b);
    var (ca, cb) := (CanonicalSlots(plans, a), CanonicalSlots(plans, b));
    StreamIsContent(Message(plans), DMessage(ca), DMessage(cb));
    ErasedSlotsAgree(plans, ca, cb);
    forall i | 0 <= i < |plans| && !plans[i].metadata
      ensures EraseSlot(plans[i], ca[i]) == EraseSlot(plans[i], cb[i]) <==> SameField(plans[i], a[i], b[i])
    {
      TypedAt(plans, a, i);
      TypedAt(plans, b, i);
      assert plans[i] in plans && WFPlan(plans[i]);
      CanonicalFieldAgrees(plans[i], a[i], b[i]);
    }
  }

  // --- Nested metadata: where the claim stops ---

  /** An element whose first visible field is a message with metadata in it. */
  function NestedInner(): Type {
    Message([Plan(1, true, false, Optional(Leaf(L.TU64)), UNLIMITED)])
  }

  function NestedElement(): Type {
    Message([Plan(1, false, false, Required(NestedInner()), UNLIMITED),
             Plan(2, false, false, Required(Leaf(L.TU64)), UNLIMITED)])
  }

  function Nested(meta: u64, content: u64): Datum {
    DMessage([Single(DMessage([Single(DLeaf(L.LU64(meta)))])), Single(DLeaf(L.LU64(content)))])
  }

  lemma NestedSchema()
    ensures WF(NestedElement()) && !DirectMetadata(NestedElement())
  {
    var (inner, outer) := (NestedInner().plans, NestedElement().plans);
    assert WF(Leaf(L.TU64));
    assert WFPlan(inner[0]);
    assert WF(NestedInner());
    assert WFPlan(outer[0]) && WFPlan(outer[1]);
    assert outer[0] in outer && inner[0] in inner && !NoMetadataPlan(inner[0]);
    assert !NoMetadata(NestedInner());
    assert !NoMetadataPlan(outer[0]);
  }

  lemma InnerFacts(m: u64, n: u64)
    ensures var (p, q) := (DMessage([Single(DLeaf(L.LU64(m)))]), DMessage([Single(DLeaf(L.LU64(n)))]));
            && Typed(NestedInner(), p) && Typed(NestedInner(), q)
            && Erase(NestedInner(), p) == DMessage([Absent]) && Cmp(NestedInner(), p, q) == CmpInt(m, n)
  {
    var inner := NestedInner().plans;
    var (p, q) := ([Single(DLeaf(L.LU64(m)))], [Single(DLeaf(L.LU64(n)))]);
    assert inner[1..] == [] && p[1..] == [] && q[1..] == [];
    assert TypedSlots(inner, p) && TypedSlots(inner, q);
    assert EraseSlots(inner, p) == [Absent];
  }

  lemma NumberContent(p: Plan, x: u64)
    requires p.shape == Required(Leaf(L.TU64)) && !p.metadata
    ensures var a := [Single(DLeaf(L.LU64(x)))]; TypedSlots([p], a) && EraseSlots([p], a) == a
  {
    var a := [Single(DLeaf(L.LU64(x)))];
    assert [p][1..] == [] && a[1..] == [];
    assert Erase(Leaf(L.TU64), DLeaf(L.LU64(x))) == DLeaf(L.LU64(x));
    assert EraseSlot(p, a[0]) == a[0];
  }

  lemma NestedContent(m: u64, x: u64)
    ensures Typed(NestedElement(), Nested(m, x))
    ensures Erase(NestedElement(), Nested(m, x)) == DMessage([Single(DMessage([Absent])), Single(DLeaf(L.LU64(x)))])
  {
    var (outer, a) := (NestedElement().plans, Nested(m, x).slots);
    InnerFacts(m, m);
    NumberContent(outer[1], x);
    hide NestedInner;
    assert outer[1..] == [outer[1]] && a[1..] == [a[1]];
    assert EraseSlots(outer, a) == [Single(DMessage([Absent])), a[1]];
  }

  lemma NestedFacts(m: u64, x: u64, n: u64, y: u64)
    ensures Typed(NestedElement(), Nested(m, x)) && Typed(NestedElement(), Nested(n, y))
    ensures Erase(NestedElement(), Nested(m, x)) == Erase(NestedElement(), Nested(n, y)) <==> x == y
    ensures Cmp(NestedElement(), Nested(m, x), Nested(n, y)) == CmpInt(m, n).Then(CmpInt(x, y))
  {
    NestedContent(m, x);
    NestedContent(n, y);
    InnerFacts(m, n);
    hide Typed, Erase, NestedInner;
    var (outer, a, b) := (NestedElement().plans, Nested(m, x).slots, Nested(n, y).slots);
    assert CmpSlot(outer[1], a[1], b[1]) == CmpInt(x, y);
    CmpTwo(outer, a, b);
    hide Cmp;
    if x != y {
      assert [Single(DMessage([Absent])), Single(DLeaf(L.LU64(x)))][1]
          != [Single(DMessage([Absent])), Single(DLeaf(L.LU64(y)))][1];
    }
  }
}
