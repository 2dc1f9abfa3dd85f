/** Building a `ResourceGraph` message (`model/src/generated/model.rs`):
    canonicalize, scan both lists' keys for repeats, resolve every relation's source
    by binary search over the sorted resources (`model/src/rules.rs`). */
module GraphBuilding {
  import opened Bytes
  import opened Schemas
  import opened Canonicalization
  import opened AdjacentScan
  import opened Contract
  import R = Rules

  const RESOURCES_LIMIT := 65536
  const RELATIONS_LIMIT := 131072

  /** The two lists as construction sorts them. */
  function Resources(ra: seq<Datum>): seq<Datum> { SortBy(Message(ResourcePlans()), ra) }

  function Relations(la: seq<Datum>): seq<Datum> { SortBy(Message(RelationPlans()), la) }

  ghost predicate Observed(ra: seq<Datum>) { AllTyped(Message(ResourcePlans()), ra) }

  ghost predicate Related(la: seq<Datum>) { AllTyped(Message(RelationPlans()), la) }

  lemma {:induction false} ResourcesTyped(ra: seq<Datum>)
    requires Observed(ra)
    ensures Observed(Resources(ra)) && Sorted(Message(ResourcePlans()), Resources(ra))
    ensures forall d :: d in Resources(ra) <==> d in ra
  {
    ResourceSchema();
    hide ResourcePlans, WF, InFieldOrder, DirectMetadata, Typed;
    SortByExact(Message(ResourcePlans()), ra);
    SameMembers(Resources(ra), ra);
  }

  lemma {:induction false} RelationsTyped(la: seq<Datum>)
    requires Related(la)
    ensures Related(Relations(la)) && Sorted(Message(RelationPlans()), Relations(la))
    ensures forall d :: d in Relations(la) <==> d in la
  {
    RelationSchema();
    hide RelationPlans, WF, InFieldOrder, DirectMetadata, NoMetadata, Typed;
    SortByExact(Message(RelationPlans()), la);
    SameMembers(Relations(la), la);
  }

  lemma RelationsLead(la: seq<Datum>)
    requires Related(la)
    ensures forall d | d in la :: d.DMessage? && d.slots != [] && d.slots[0].Single?
    ensures forall d | d in la :: Typed(Message(SubjectPlans()), d.slots[0].d)
  {
    var (plans, key) := (RelationPlans(), Message(SubjectPlans()));
    assert R.LedBy(plans, key);
    hide RelationPlans, SubjectPlans, Typed, R.LedBy;
    forall d | d in la ensures d.DMessage? && d.slots != [] && d.slots[0].Single? && Typed(key, d.slots[0].d) {
      R.LedShape(plans, key, d);
    }
  }

  /** The relations' sources in canonical order, as the rule meets them. */
  function Sources(la: seq<Datum>): (r: seq<Datum>)
    requires Related(la)
    ensures |r| == |Relations(la)|
  {
    RelationsTyped(la);
    RelationsLead(Relations(la));
    R.LeadingKeys(Relations(la))
  }

  datatype Verdict =
    | Passed
    | TooManyResources
    | DuplicateResource(index: nat)
    | TooManyRelations
    | DuplicateRelation(index: nat)
    | Unresolved(index: nat)

  /** What the generated check reports, in its order: an index is the canonical
      one. */
  ghost predicate Reports(ra: seq<Datum>, la: seq<Datum>, v: Verdict)
    requires Related(la)
  {
    if |ra| > RESOURCES_LIMIT then v == TooManyResources
    else if v.TooManyResources? then false
    else if v.DuplicateResource? then ResourceRepeat(ra, Some(v.index))
    else
      && ResourceRepeat(ra, None)
      && if |la| > RELATIONS_LIMIT then v == TooManyRelations
         else if v.TooManyRelations? then false
         else if v.DuplicateRelation? then RelationRepeat(la, Some(v.index))
         else
           && RelationRepeat(la, None)
           && R.IsFirstUnresolved(Resources(ra), Sources(la), if v.Passed? then None else Some(v.index))
  }

  ghost predicate ResourceRepeat(ra: seq<Datum>, r: Option<nat>) {
    IsFirstRepeat(KeysOf(ResourcePlans(), [1], Resources(ra)), r)
  }

  ghost predicate RelationRepeat(la: seq<Datum>, r: Option<nat>) {
    IsFirstRepeat(KeysOf(RelationPlans(), [1, 2, 3], Relations(la)), r)
  }

  /** The generated check. */
  method Check(ra: seq<Datum>, la: seq<Datum>) returns (v: Verdict)
    requires Observed(ra) && Related(la)
    ensures Reports(ra, la, v)
  {
    hide Sources, R.IsFirstUnresolved, Resources;
    if |ra| > RESOURCES_LIMIT {
      return TooManyResources;
    }
    var repeated := CheckResources(ra);
    if repeated.Some? {
      return DuplicateResource(repeated.value);
    }
    if |la| > RELATIONS_LIMIT {
      return TooManyRelations;
    }
    var again := CheckRelations(la);
    if again.Some? {
      return DuplicateRelation(again.value);
    }
    var unresolved := Resolve(ra, la);
    return if unresolved.Some? then Unresolved(unresolved.value) else Passed;
  }

  method CheckResources(ra: seq<Datum>) returns (r: Option<nat>)
    requires Observed(ra)
    ensures ResourceRepeat(ra, r)
  {
    ResourceSchema();
    ResourceScanSound();
    ResourcesTyped(ra);
    hide ResourcePlans, WF, InFieldOrder, DirectMetadata, KeysNameFields, ScanSound, Typed, SortBy;
    r := CheckUnique(ResourcePlans(), true, [1], Resources(ra));
  }

  method CheckRelations(la: seq<Datum>) returns (r: Option<nat>)
    requires Related(la)
    ensures RelationRepeat(la, r)
  {
    RelationSchema();
    RelationScanSound();
    RelationsTyped(la);
    hide RelationPlans, WF, InFieldOrder, DirectMetadata, NoMetadata, KeysNameFields, ScanSound, Typed, SortBy;
    r := CheckUnique(RelationPlans(), true, [1, 2, 3], Relations(la));
  }

  /** The rule: one search over the resources for each relation. */
  method Resolve(ra: seq<Datum>, la: seq<Datum>) returns (r: Option<nat>)
    requires Observed(ra) && Related(la)
    ensures R.IsFirstUnresolved(Resources(ra), Sources(la), r)
  {
    var (plans, key) := (ResourcePlans(), Message(SubjectPlans()));
    assert R.LedBy(plans, key);
    SubjectSchema();
    ResourcesTyped(ra);
    SourcesTyped(la);
    hide ResourcePlans, SubjectPlans, R.LedBy, WF, Typed, NoMetadata, SortBy, Sources;
    r := R.FirstUnresolved(plans, key, Resources(ra), Sources(la));
  }

  lemma {:induction false} SourcesTyped(la: seq<Datum>)
    requires Related(la)
    ensures AllTyped(Message(SubjectPlans()), Sources(la))
    ensures forall k :: k in Sources(la) <==> exists d :: d in la && Leads(d) && d.slots[0].d == k
  {
    RelationsTyped(la);
    RelationsLead(Relations(la));
    var sorted := Relations(la);
    hide RelationPlans, SubjectPlans, Typed, Relations;
    LedBySome(la, sorted, Sources(la));
    forall j | 0 <= j < |sorted| ensures Typed(Message(SubjectPlans()), Sources(la)[j]) {
      assert sorted[j] in sorted;
    }
  }

  lemma LedBySome(la: seq<Datum>, sorted: seq<Datum>, keys: seq<Datum>)
    requires |keys| == |sorted| && (forall d :: d in sorted <==> d in la)
    requires forall j | 0 <= j < |sorted| :: Leads(sorted[j]) && keys[j] == sorted[j].slots[0].d
    ensures forall k :: k in keys <==> exists d :: d in la && Leads(d) && d.slots[0].d == k
  {
    forall k ensures k in keys <==> exists d :: d in la && Leads(d) && d.slots[0].d == k {
      if j :| 0 <= j < |sorted| && keys[j] == k {
        assert sorted[j] in la;
      }
      if d :| d in la && Leads(d) && d.slots[0].d == k {
        var j :| 0 <= j < |sorted| && sorted[j] == d;
        assert keys[j] == k;
      }
    }
  }

  predicate Leads(d: Datum) { d.DMessage? && d.slots != [] && d.slots[0].Single? }

  // --- What the verdict comes to ---

  /** The check passes exactly within the bounds, when no two resources share a
      subject, no two relations are the same triple, and every relation's source is
      some resource's subject. */
  lemma {:induction false} PassesExactly(ra: seq<Datum>, la: seq<Datum>)
    requires Observed(ra) && Related(la)
    ensures Reports(ra, la, Passed) <==>
            && |ra| <= RESOURCES_LIMIT && |la| <= RELATIONS_LIMIT
            && KeysApart(ResourcePlans(), [1], ra) && KeysApart(RelationPlans(), [1, 2, 3], la)
            && forall d | d in la && Leads(d) :: R.Resolves(ra, d.slots[0].d)
  {
    SortApart(Message(ResourcePlans()), ResourcePlans(), [1], ra);
    NoRepeatIsApart(ResourcePlans(), [1], Resources(ra));
    SortApart(Message(RelationPlans()), RelationPlans(), [1, 2, 3], la);
    NoRepeatIsApart(RelationPlans(), [1, 2, 3], Relations(la));
    AllResolved(ra, la);
    hide ResourcePlans, RelationPlans, SortBy, IsFirstRepeat, KeysOf, KeysApart, R.IsFirstUnresolved, Sources;
  }

  lemma {:induction false} AllResolved(ra: seq<Datum>, la: seq<Datum>)
    requires Observed(ra) && Related(la)
    ensures R.IsFirstUnresolved(Resources(ra), Sources(la), None) <==>
            forall d | d in la && Leads(d) :: R.Resolves(ra, d.slots[0].d)
  {
    ResourcesTyped(ra);
    SourcesTyped(la);
    hide Resources, Sources, Typed, AllTyped, Sorted;
    assert forall k :: R.Resolves(Resources(ra), k) <==> R.Resolves(ra, k);
    hide R.Resolves;
    if R.IsFirstUnresolved(Resources(ra), Sources(la), None) {
      forall d | d in la && Leads(d) ensures R.Resolves(ra, d.slots[0].d) {
        assert d.slots[0].d in Sources(la);
        var i :| 0 <= i < |Sources(la)| && Sources(la)[i] == d.slots[0].d;
      }
    } else {
      var i :| 0 <= i < |Sources(la)| && !R.Resolves(Resources(ra), Sources(la)[i]);
      assert Sources(la)[i] in Sources(la);
    }
  }
}
