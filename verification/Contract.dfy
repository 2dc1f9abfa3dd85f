/** The contract's own identities and its hashed graph, as instances of the
    generic schema (`schema/proto/nv/telemetry/v1/subject.proto`, `graph.proto`). */
module Contract {
  import opened Bytes
  import opened Orders
  import opened Schemas
  import opened SchemaOrder
  import opened Canonicalization
  import opened AdjacentScan
  import L = Leaves
  import V = Values

  function Text(limits: Limits, required: bool, number: nat, metadata: bool): Plan {
    Plan(number, metadata, false, if required then Required(Leaf(L.TText)) else Optional(Leaf(L.TText)), limits)
  }

  function Bounded(maxLen: nat): Limits { Limits(true, Some(maxLen), None, []) }

  function SubjectPlans(): seq<Plan> {
    [Text(Bounded(128), true, 1, false),
     Plan(2, false, false, Repeated(Leaf(L.TText)), Limits(true, Some(256), Some(16), [])),
     Text(Bounded(256), true, 3, false)]
  }

  function SignalKeyPlans(): seq<Plan> {
    [Plan(1, false, false, Required(Message(SubjectPlans())), UNLIMITED), Text(Bounded(128), false, 2, false)]
  }

  function UnresolvedPlans(): seq<Plan> {
    [Text(Bounded(1024), true, 1, false), Text(Bounded(256), false, 2, false)]
  }

  /** Fields 4 and 5 are collection metadata, directly on the resource. */
  function ResourcePlans(): seq<Plan> {
    [Plan(1, false, false, Required(Message(SubjectPlans())), UNLIMITED),
     Text(Bounded(1024), true, 2, false),
     Text(Bounded(256), false, 3, false),
     Text(Bounded(256), false, 4, true),
     Plan(5, true, false, Optional(Leaf(L.TTime)), UNLIMITED),
     Plan(6, false, false, Optional(Leaf(L.TMap)), UNLIMITED),
     Plan(7, false, false, Required(Leaf(L.TBool)), UNLIMITED),
     Plan(8, false, true, Repeated(Message(UnresolvedPlans())), Limits(false, None, Some(1024), []))]
  }

  function RelationPlans(): seq<Plan> {
    [Plan(1, false, false, Required(Message(SubjectPlans())), UNLIMITED),
     Plan(2, false, false, Required(Message(SubjectPlans())), UNLIMITED),
     Text(Bounded(128), true, 3, false)]
  }

  function GraphPlans(): seq<Plan> {
    [Plan(1, false, true, Repeated(Message(ResourcePlans())), Limits(false, None, Some(65536), [1])),
     Plan(2, false, true, Repeated(Message(RelationPlans())), Limits(false, None, Some(131072), [1, 2, 3]))]
  }

  function RangePlans(): seq<Plan> {
    [Plan(1, false, false, Optional(Leaf(L.TNumeric)), UNLIMITED),
     Plan(2, false, false, Optional(Leaf(L.TNumeric)), UNLIMITED)]
  }

  function DescriptorPlans(): seq<Plan> {
    [Plan(1, false, false, Required(Message(SignalKeyPlans())), UNLIMITED),
     Text(Bounded(128), false, 2, false),
     Text(Bounded(64), false, 3, false),
     Plan(4, false, false, Optional(Message(RangePlans())), UNLIMITED)]
  }

  function ReadingPlans(): seq<Plan> {
    [Plan(1, false, false, Required(Message(SignalKeyPlans())), UNLIMITED),
     Plan(2, false, false, Required(Leaf(L.TNumeric)), UNLIMITED),
     Plan(3, false, false, Optional(Leaf(L.TTime)), UNLIMITED)]
  }

  // --- Plain schemas: no oneofs, numbers ascending, metadata direct ---

  predicate PlainPlan(p: Plan, number: nat) {
    && p.number == number && !p.shape.OneOf? && WF(p.shape.t)
    && (p.sortable ==> p.shape.Repeated?)
    && (p.metadata || NoMetadata(p.shape.t))
  }

  ghost predicate Plain(plans: seq<Plan>) {
    |plans| < 16 && forall i | 0 <= i < |plans| :: PlainPlan(plans[i], i + 1)
  }

  lemma PlainStep(plans: seq<Plan>, k: nat)
    requires k < |plans| < 16 && Plain(plans[..k]) && PlainPlan(plans[k], k + 1)
    ensures Plain(plans[..k + 1])
    ensures k + 1 == |plans| ==> Plain(plans)
  {
    hide PlainPlan;
    var head := plans[..k + 1];
    forall i | 0 <= i < |head| ensures PlainPlan(head[i], i + 1) {
      if i < k {
        assert plans[..k][i] == head[i];
      }
    }
    if k + 1 == |plans| {
      assert plans[..k + 1] == plans;
    }
  }

  lemma PlainIsWF(plans: seq<Plan>)
    requires Plain(plans)
    ensures WF(Message(plans)) && WFPlans(plans) && InFieldOrder(plans) && DirectMetadata(Message(plans))
    ensures (forall p | p in plans :: !p.metadata) ==> NoMetadata(Message(plans))
  {
    forall i, j | 0 <= i < j < |plans| ensures Tags(plans[i]) !! Tags(plans[j]) {
      assert PlainPlan(plans[i], i + 1) && PlainPlan(plans[j], j + 1);
      assert Tags(plans[i]) == {i + 1} && Tags(plans[j]) == {j + 1};
    }
    forall p | p in plans ensures WFPlan(p) && p.number in Tags(p) && (p.metadata || NoMetadataPlan(p)) {
      var i :| 0 <= i < |plans| && plans[i] == p;
      assert PlainPlan(p, i + 1) && Tags(p) == {i + 1};
    }
  }

  lemma LeafSchemas()
    ensures WF(Leaf(L.TText)) && WF(Leaf(L.TTime)) && WF(Leaf(L.TMap)) && WF(Leaf(L.TBool))
    ensures NoMetadata(Leaf(L.TText)) && NoMetadata(Leaf(L.TMap)) && NoMetadata(Leaf(L.TBool))
  {
  }

  lemma SubjectSchema()
    ensures WF(Message(SubjectPlans())) && WFPlans(SubjectPlans()) && NoMetadata(Message(SubjectPlans()))
  {
    LeafSchemas();
    hide Plain, WF, NoMetadata;
    var s := SubjectPlans();
    PlainNone(s); PlainStep(s, 0); PlainStep(s, 1); PlainStep(s, 2);
    PlainIsWF(s);
  }

  lemma UnresolvedSchema()
    ensures WF(Message(UnresolvedPlans())) && NoMetadata(Message(UnresolvedPlans()))
  {
    LeafSchemas();
    hide Plain, WF, NoMetadata;
    var s := UnresolvedPlans();
    PlainNone(s); PlainStep(s, 0); PlainStep(s, 1);
    PlainIsWF(s);
  }

  lemma PlainNone(plans: seq<Plan>)
    ensures Plain(plans[..0])
  {
  }

  lemma SignalKeySchema()
    ensures WF(Message(SignalKeyPlans())) && NoMetadata(Message(SignalKeyPlans()))
  {
    LeafSchemas();
    SubjectSchema();
    hide Plain, WF, NoMetadata, SubjectPlans;
    var s := SignalKeyPlans();
    PlainNone(s); PlainStep(s, 0); PlainStep(s, 1);
    PlainIsWF(s);
  }

  lemma RangeSchema()
    ensures WF(Message(RangePlans())) && NoMetadata(Message(RangePlans()))
  {
    assert WF(Leaf(L.TNumeric)) && NoMetadata(Leaf(L.TNumeric));
    hide Plain, WF, NoMetadata;
    var s := RangePlans();
    PlainNone(s); PlainStep(s, 0); PlainStep(s, 1);
    PlainIsWF(s);
  }

  lemma DescriptorSchema()
    ensures WF(Message(DescriptorPlans())) && InFieldOrder(DescriptorPlans()) && KeysNameFields(DescriptorPlans(), [1])
  {
    LeafSchemas();
    SignalKeySchema();
    RangeSchema();
    hide Plain, WF, NoMetadata, SignalKeyPlans, RangePlans, InFieldOrder, DirectMetadata;
    var s := DescriptorPlans();
    PlainNone(s); PlainStep(s, 0); PlainStep(s, 1); PlainStep(s, 2); PlainStep(s, 3);
    PlainIsWF(s);
    assert s[0] in s;
  }

  lemma ResourceSchema()
    ensures WF(Message(ResourcePlans())) && InFieldOrder(ResourcePlans()) && DirectMetadata(Message(ResourcePlans()))
  {
    LeafSchemas();
    SubjectSchema();
    UnresolvedSchema();
    hide Plain, WF, NoMetadata, SubjectPlans, UnresolvedPlans, InFieldOrder, DirectMetadata;
    var s := ResourcePlans();
    PlainNone(s);
    PlainStep(s, 0); PlainStep(s, 1); PlainStep(s, 2); PlainStep(s, 3);
    PlainStep(s, 4); PlainStep(s, 5); PlainStep(s, 6); PlainStep(s, 7);
    PlainIsWF(s);
  }

  lemma RelationSchema()
    ensures WF(Message(RelationPlans())) && InFieldOrder(RelationPlans()) && NoMetadata(Message(RelationPlans()))
    ensures DirectMetadata(Message(RelationPlans()))
  {
    LeafSchemas();
    SubjectSchema();
    hide Plain, WF, NoMetadata, SubjectPlans, InFieldOrder, DirectMetadata;
    var s := RelationPlans();
    PlainNone(s); PlainStep(s, 0); PlainStep(s, 1); PlainStep(s, 2);
    PlainIsWF(s);
  }

  lemma GraphSchema()
    ensures WF(Message(GraphPlans())) && WFPlans(GraphPlans()) && HashStable(GraphPlans())
  {
    hide ResourcePlans, RelationPlans, WF, WFPlans, OrderFollowsContent, InFieldOrder, NoMetadata, DirectMetadata;
    ResourceSchema();
    RelationSchema();
    DirectMetadataSuffices(Message(ResourcePlans()));
    DirectMetadataSuffices(Message(RelationPlans()));
    GraphPlansWF();
    var plans := GraphPlans();
    assert forall p | p in plans :: p == plans[0] || p == plans[1];
  }

  lemma GraphPlansWF()
    ensures WF(Message(GraphPlans())) && WFPlans(GraphPlans())
  {
    ResourceSchema();
    RelationSchema();
    hide ResourcePlans, RelationPlans;
    var plans := GraphPlans();
    assert Tags(plans[0]) == {1} && Tags(plans[1]) == {2};
    assert WFPlan(plans[0]) && WFPlan(plans[1]);
  }

  // --- The graph's content hash ---

  function Graph(resources: seq<Datum>, relations: seq<Datum>): seq<Slot> { [Many(resources), Many(relations)] }

  ghost predicate GraphTyped(resources: seq<Datum>, relations: seq<Datum>) {
    && |resources| < TWO64 && AllTyped(Message(ResourcePlans()), resources)
    && |relations| < TWO64 && AllTyped(Message(RelationPlans()), relations)
  }

  lemma GraphSlotsTyped(resources: seq<Datum>, relations: seq<Datum>)
    requires GraphTyped(resources, relations)
    ensures TypedSlots(GraphPlans(), Graph(resources, relations))
  {
    hide ResourcePlans, RelationPlans, Typed;
    var (plans, slots) := (GraphPlans(), Graph(resources, relations));
    assert TypedSlot(plans[0], slots[0]) && TypedSlot(plans[1], slots[1]);
    TypedAll(plans, slots);
  }

  /** What a graph feeds `content_hash`, construction having sorted it. */
  function GraphStream(resources: seq<Datum>, relations: seq<Datum>): seq<byte>
    requires GraphTyped(resources, relations)
  {
    GraphSchema();
    GraphSlotsTyped(resources, relations);
    CanonicalTyped(GraphPlans(), Graph(resources, relations));
    DatumBytes(Message(GraphPlans()), DMessage(CanonicalSlots(GraphPlans(), Graph(resources, relations))))
  }

  /** Two graphs feed equal streams if and only if their resources are equal as
      multisets once entity tag and read time are erased, and their relations are
      equal as multisets. */
  lemma GraphHashExact(ra: seq<Datum>, la: seq<Datum>, rb: seq<Datum>, lb: seq<Datum>)
    requires GraphTyped(ra, la) && GraphTyped(rb, lb)
    ensures GraphStream(ra, la) == GraphStream(rb, lb) <==>
            && multiset(EraseMany(Message(ResourcePlans()), ra)) == multiset(EraseMany(Message(ResourcePlans()), rb))
            && multiset(la) == multiset(lb)
  {
    GraphSchema();
    GraphSlotsTyped(ra, la);
    GraphSlotsTyped(rb, lb);
    var plans := GraphPlans();
    GraphContent(ra, la, rb, lb);
    hide TypedSlots, WFPlans, WF, HashStable, SameContent, CanonicalSlots, DatumBytes, GraphPlans, EraseMany;
    ContentHashExact(plans, Graph(ra, la), Graph(rb, lb));
  }

  lemma GraphContent(ra: seq<Datum>, la: seq<Datum>, rb: seq<Datum>, lb: seq<Datum>)
    ensures SameContent(GraphPlans(), Graph(ra, la), Graph(rb, lb)) <==>
            && multiset(EraseMany(Message(ResourcePlans()), ra)) == multiset(EraseMany(Message(ResourcePlans()), rb))
            && multiset(la) == multiset(lb)
  {
    RelationSchema();
    EraseNoMany(Message(RelationPlans()), la);
    EraseNoMany(Message(RelationPlans()), lb);
    SameList(GraphPlans()[0], Message(ResourcePlans()), ra, rb);
    SameList(GraphPlans()[1], Message(RelationPlans()), la, lb);
    hide ResourcePlans, RelationPlans, WF, NoMetadata, DirectMetadata, EraseMany, SameContent, SameField;
    SameContentTwo(GraphPlans(), Graph(ra, la), Graph(rb, lb));
  }

  lemma SameList(p: Plan, t: Type, xs: seq<Datum>, ys: seq<Datum>)
    requires p.sortable && p.shape == Repeated(t)
    ensures SameField(p, Many(xs), Many(ys)) <==> multiset(EraseMany(t, xs)) == multiset(EraseMany(t, ys))
  {
  }

  lemma SameContentTwo(plans: seq<Plan>, a: seq<Slot>, b: seq<Slot>)
    requires |plans| == |a| == |b| == 2 && !plans[0].metadata && !plans[1].metadata
    ensures SameContent(plans, a, b) <==> SameField(plans[0], a[0], b[0]) && SameField(plans[1], a[1], b[1])
  {
    hide SameField;
  }

  /** The graph's uniqueness keys lead their elements' order, so the generated
      check is the neighbour scan. */
  lemma ResourceScanSound()
    ensures ScanSound(ResourcePlans(), true, [1]) && KeysNameFields(ResourcePlans(), [1])
  {
    hide VisibleNumbers, SubjectPlans, UnresolvedPlans, SortInts;
    VisibleResource();
    SortAscending([1, 2, 3, 6, 7, 8]);
    SortAscending([1]);
    FirstNames(ResourcePlans(), 1);
    hide ResourcePlans, KeysNameFields;
    assert [1, 2, 3, 6, 7, 8][..1] == [1];
  }

  lemma FirstNames(plans: seq<Plan>, number: nat)
    requires plans != [] && plans[0].number == number && !plans[0].metadata && !plans[0].shape.OneOf?
    ensures KeysNameFields(plans, [number])
  {
    assert plans[0] in plans;
  }

  lemma RelationScanSound()
    ensures ScanSound(RelationPlans(), true, [1, 2, 3]) && KeysNameFields(RelationPlans(), [1, 2, 3])
  {
    VisibleRelation();
    SortAscending([1, 2, 3]);
    hide VisibleNumbers, SubjectPlans, SortInts;
    assert [1, 2, 3][..3] == [1, 2, 3];
    var l := RelationPlans();
    assert l[0] in l && l[1] in l && l[2] in l;
  }

  lemma VisibleResource()
    ensures VisibleNumbers(ResourcePlans()) == [1, 2, 3, 6, 7, 8]
  {
    hide VisibleNumbers, SubjectPlans, UnresolvedPlans;
    var r := ResourcePlans();
    VisibleTail(r, 8); VisibleTail(r, 7); VisibleTail(r, 6); VisibleTail(r, 5);
    assert VisibleNumbers(r[5..]) == [6] + ([7] + ([8] + [])) == [6, 7, 8];
    VisibleTail(r, 4); VisibleTail(r, 3);
    assert [] + ([] + [6, 7, 8]) == [6, 7, 8];
    VisibleTail(r, 2); VisibleTail(r, 1); VisibleTail(r, 0);
    assert VisibleNumbers(r) == [1] + ([2] + ([3] + [6, 7, 8])) == [1, 2, 3, 6, 7, 8];
  }

  lemma VisibleRelation()
    ensures VisibleNumbers(RelationPlans()) == [1, 2, 3]
  {
    hide VisibleNumbers, SubjectPlans;
    var l := RelationPlans();
    VisibleTail(l, 3); VisibleTail(l, 2); VisibleTail(l, 1); VisibleTail(l, 0);
    assert VisibleNumbers(l) == [1] + ([2] + ([3] + [])) == [1, 2, 3];
  }

  lemma VisibleTail(plans: seq<Plan>, i: nat)
    requires i <= |plans|
    ensures i == |plans| ==> VisibleNumbers(plans[i..]) == []
    ensures i < |plans| ==> VisibleNumbers(plans[i..]) ==
                            (if plans[i].metadata then [] else FieldNumbers(plans[i])) + VisibleNumbers(plans[i + 1..])
    ensures i == 0 ==> plans[i..] == plans
  {
    if i < |plans| {
      assert plans[i..][1..] == plans[i + 1..];
    }
  }

  lemma {:induction false} SortAscending(s: seq<nat>)
    requires Ascending(s)
    ensures SortInts(s) == s
  {
    if s != [] {
      SortAscending(s[1..]);
      if |s| > 1 {
        assert s[0] <= s[1];
      }
    }
  }

  // --- Identities as structs: the derived order ---

  type Str = seq<byte>

  datatype Subject = Subject(kind: Str, scope: seq<Str>, id: Str)

  datatype SignalKey = SignalKey(subject: Subject, facet: Option<Str>)

  datatype ValueRange = ValueRange(min: Option<V.NumericValue>, max: Option<V.NumericValue>)

  datatype SignalDescriptor =
    SignalDescriptor(key: SignalKey, kind: Option<Str>, unit: Option<Str>, range: Option<ValueRange>)

  datatype SampleReading = SampleReading(key: SignalKey, value: V.NumericValue, at: Option<V.Timestamp>)

  function CmpStrs(a: seq<Str>, b: seq<Str>): Ordering {
    if a == [] || b == [] then CmpInt(|a|, |b|) else CmpInts(a[0], b[0]).Then(CmpStrs(a[1..], b[1..]))
  }

  /** Derived `Ord`: fields in declaration order. */
  function DerivedCmp(a: Subject, b: Subject): Ordering {
    CmpInts(a.kind, b.kind).Then(CmpStrs(a.scope, b.scope)).Then(CmpInts(a.id, b.id))
  }

  function DerivedCmpKey(a: SignalKey, b: SignalKey): Ordering {
    DerivedCmp(a.subject, b.subject).Then(
      match (a.facet, b.facet)
      case (None, None) => Equal
      case (None, Some(_)) => Less
      case (Some(_), None) => Greater
      case (Some(x), Some(y)) => CmpInts(x, y))
  }

  function TextDatum(s: Str): Datum { DLeaf(L.LText(s)) }

  function TextData(ss: seq<Str>): (r: seq<Datum>)
    ensures |r| == |ss|
  {
    if ss == [] then [] else [TextDatum(ss[0])] + TextData(ss[1..])
  }

  function OptionSlot(s: Option<Str>): Slot { if s.None? then Absent else Single(TextDatum(s.value)) }

  function SubjectDatum(s: Subject): Datum {
    DMessage([Single(TextDatum(s.kind)), Many(TextData(s.scope)), Single(TextDatum(s.id))])
  }

  function KeyDatum(k: SignalKey): Datum {
    DMessage([Single(SubjectDatum(k.subject)), OptionSlot(k.facet)])
  }

  function NumberSlot(n: Option<V.NumericValue>): Slot {
    if n.None? then Absent else Single(DLeaf(L.LNumeric(n.value)))
  }

  function RangeDatum(r: ValueRange): Datum { DMessage([NumberSlot(r.min), NumberSlot(r.max)]) }

  function DescriptorDatum(d: SignalDescriptor): Datum {
    DMessage([Single(KeyDatum(d.key)), OptionSlot(d.kind), OptionSlot(d.unit),
              if d.range.None? then Absent else Single(RangeDatum(d.range.value))])
  }

  function ReadingDatum(s: SampleReading): Datum {
    DMessage([Single(KeyDatum(s.key)), Single(DLeaf(L.LNumeric(s.value))),
              if s.at.None? then Absent else Single(DLeaf(L.LTime(s.at.value)))])
  }

  lemma {:induction false} TextDataInjective(a: seq<Str>, b: seq<Str>)
    requires TextData(a) == TextData(b)
    ensures a == b
  {
    if a != [] && b != [] {
      assert TextData(a)[0] == TextData(b)[0] && TextData(a)[1..] == TextData(b)[1..];
      TextDataInjective(a[1..], b[1..]);
      assert a == [a[0]] + a[1..] && b == [b[0]] + b[1..];
    }
  }

  /** The generic message keeps the key apart from any other. */
  lemma KeyDatumInjective(a: SignalKey, b: SignalKey)
    requires KeyDatum(a) == KeyDatum(b)
    ensures a == b
  {
    var (ka, kb) := (KeyDatum(a).slots, KeyDatum(b).slots);
    assert ka[0] == kb[0] && ka[1] == kb[1];
    var (sa, sb) := (SubjectDatum(a.subject).slots, SubjectDatum(b.subject).slots);
    assert sa[0] == sb[0] && sa[1] == sb[1] && sa[2] == sb[2];
    TextDataInjective(a.subject.scope, b.subject.scope);
  }

  lemma {:induction false} CmpTexts(a: seq<Str>, b: seq<Str>)
    ensures CmpMany(Leaf(L.TText), TextData(a), TextData(b)) == CmpStrs(a, b)
  {
    if a != [] && b != [] {
      CmpTexts(a[1..], b[1..]);
    }
  }

  lemma CmpText(p: Plan, a: Str, b: Str)
    requires p.shape == Required(Leaf(L.TText))
    ensures CmpSlot(p, Single(TextDatum(a)), Single(TextDatum(b))) == CmpInts(a, b)
  {
    hide CmpInts;
  }

  lemma CmpScope(p: Plan, a: seq<Str>, b: seq<Str>)
    requires p.shape == Repeated(Leaf(L.TText))
    ensures CmpSlot(p, Many(TextData(a)), Many(TextData(b))) == CmpStrs(a, b)
  {
    CmpTexts(a, b);
    hide CmpMany, CmpStrs, TextData;
  }

  lemma CmpFacet(p: Plan, a: Option<Str>, b: Option<Str>)
    requires p.shape == Optional(Leaf(L.TText))
    ensures CmpSlot(p, OptionSlot(a), OptionSlot(b)) ==
            match (a, b)
            case (None, None) => Equal
            case (None, Some(_)) => Less
            case (Some(_), None) => Greater
            case (Some(x), Some(y)) => CmpInts(x, y)
  {
    hide CmpInts;
  }

  lemma CmpKeySubject(p: Plan, a: Subject, b: Subject)
    requires p.shape == Required(Message(SubjectPlans()))
    ensures CmpSlot(p, Single(SubjectDatum(a)), Single(SubjectDatum(b))) == DerivedCmp(a, b)
  {
    DerivedOrderIsCanonical(a, b);
    hide SubjectPlans, SubjectDatum, DerivedCmp;
  }

  /** The derived order the binary searches use is the canonical order the lists
      are sorted by. */
  lemma DerivedOrderIsCanonical(a: Subject, b: Subject)
    ensures DerivedCmp(a, b) == Cmp(Message(SubjectPlans()), SubjectDatum(a), SubjectDatum(b))
  {
    var (plans, x, y) := (SubjectPlans(), SubjectDatum(a).slots, SubjectDatum(b).slots);
    CmpText(plans[0], a.kind, b.kind);
    CmpText(plans[2], a.id, b.id);
    CmpScope(plans[1], a.scope, b.scope);
    hide Cmp, CmpSlot, CmpInts, CmpStrs, TextData;
    CmpThree(plans, x, y);
  }

  lemma DerivedKeyOrderIsCanonical(a: SignalKey, b: SignalKey)
    ensures DerivedCmpKey(a, b) == Cmp(Message(SignalKeyPlans()), KeyDatum(a), KeyDatum(b))
  {
    var (plans, x, y) := (SignalKeyPlans(), KeyDatum(a).slots, KeyDatum(b).slots);
    CmpKeySubject(plans[0], a.subject, b.subject);
    CmpFacet(plans[1], a.facet, b.facet);
    hide SubjectPlans, SubjectDatum, DerivedCmp, Cmp, CmpSlot, CmpInts;
    CmpTwo(plans, x, y);
  }
}
