/** Building a `Readings` message (`model/src/generated/model.rs`): canonicalize,
    scan the descriptors' keys for repeats, resolve every sample's key by binary
    search over the sorted descriptors (`model/src/rules.rs`). */
module ReadingsBuilding {
  import opened Bytes
  import opened Schemas
  import opened Canonicalization
  import opened AdjacentScan
  import opened Contract
  import R = Rules

  const READINGS_LIMIT := 65536

  /** A descriptor its own builder accepted. */
  predicate Described(d: SignalDescriptor) { Typed(Message(DescriptorPlans()), DescriptorDatum(d)) }

  /** A sample its own builder accepted. */
  predicate Measured(s: SampleReading) { Typed(Message(ReadingPlans()), ReadingDatum(s)) }

  function DescriptorData(ds: seq<SignalDescriptor>): (r: seq<Datum>)
    ensures |r| == |ds| && forall i | 0 <= i < |ds| :: r[i] == DescriptorDatum(ds[i])
  {
    seq(|ds|, i requires 0 <= i < |ds| => DescriptorDatum(ds[i]))
  }

  function SampleData(ss: seq<SampleReading>): (r: seq<Datum>)
    ensures |r| == |ss| && forall i | 0 <= i < |ss| :: r[i] == ReadingDatum(ss[i])
  {
    seq(|ss|, i requires 0 <= i < |ss| => ReadingDatum(ss[i]))
  }

  /** The two lists as construction sorts them. */
  function Sorting(ds: seq<SignalDescriptor>): seq<Datum> { SortBy(Message(DescriptorPlans()), DescriptorData(ds)) }

  function SampleSorting(ss: seq<SampleReading>): seq<Datum> { SortBy(Message(ReadingPlans()), SampleData(ss)) }

  /** The samples' keys in canonical order, as the rule meets them. */
  function Wanted(ss: seq<SampleReading>): seq<Datum> {
    SamplesLead(ss);
    R.LeadingKeys(SampleSorting(ss))
  }

  predicate Leads(d: Datum) { d.DMessage? && d.slots != [] && d.slots[0].Single? }

  lemma {:induction false} SamplesLead(ss: seq<SampleReading>)
    ensures forall d | d in SampleSorting(ss) :: Leads(d)
    ensures forall d :: d in SampleSorting(ss) <==> exists i :: 0 <= i < |ss| && d == ReadingDatum(ss[i])
  {
    var (t, data) := (Message(ReadingPlans()), SampleData(ss));
    SortApart(t, ReadingPlans(), [], data);
    hide SortBy, KeyDatum;
    forall d ensures d in data <==> exists i :: 0 <= i < |ss| && d == ReadingDatum(ss[i]) {
      if i :| 0 <= i < |ss| && d == ReadingDatum(ss[i]) {
        assert data[i] == d;
      }
    }
  }

  lemma {:induction false} WantedKeys(ss: seq<SampleReading>)
    ensures forall k :: k in Wanted(ss) <==> exists i :: 0 <= i < |ss| && k == KeyDatum(ss[i].key)
  {
    SamplesLead(ss);
    var sorted := SampleSorting(ss);
    assert forall i | 0 <= i < |ss| :: ReadingDatum(ss[i]).slots[0] == Single(KeyDatum(ss[i].key));
    hide SampleSorting, ReadingDatum, KeyDatum;
    forall k ensures k in Wanted(ss) <==> exists i :: 0 <= i < |ss| && k == KeyDatum(ss[i].key) {
      if j :| 0 <= j < |sorted| && Wanted(ss)[j] == k {
        assert sorted[j] in sorted;
        var i :| 0 <= i < |ss| && sorted[j] == ReadingDatum(ss[i]);
        assert k == KeyDatum(ss[i].key);
      }
      if i :| 0 <= i < |ss| && k == KeyDatum(ss[i].key) {
        assert ReadingDatum(ss[i]) in sorted;
        var j :| 0 <= j < |sorted| && sorted[j] == ReadingDatum(ss[i]);
        assert Wanted(ss)[j] == k;
      }
    }
  }

  /** What the generated check reports, in its order: an index is the canonical
      one. */
  datatype Verdict = Passed | TooManyDescriptors | Duplicate(index: nat) | TooManySamples | Unresolved(index: nat)

  ghost predicate Reports(ds: seq<SignalDescriptor>, ss: seq<SampleReading>, v: Verdict) {
    if |ds| > READINGS_LIMIT then v == TooManyDescriptors
    else if !v.TooManyDescriptors? && !v.Duplicate? then
      && IsFirstRepeat(KeysOf(DescriptorPlans(), [1], Sorting(ds)), None)
      && if |ss| > READINGS_LIMIT then v == TooManySamples
         else match v
              case Passed => R.IsFirstUnresolved(Sorting(ds), Wanted(ss), None)
              case Unresolved(k) => R.IsFirstUnresolved(Sorting(ds), Wanted(ss), Some(k))
              case _ => false
    else v.Duplicate? && IsFirstRepeat(KeysOf(DescriptorPlans(), [1], Sorting(ds)), Some(v.index))
  }

  ghost predicate Passes(ds: seq<SignalDescriptor>, ss: seq<SampleReading>) { Reports(ds, ss, Passed) }

  lemma OneVerdict(ds: seq<SignalDescriptor>, ss: seq<SampleReading>, v: Verdict, w: Verdict)
    requires Reports(ds, ss, v) && Reports(ds, ss, w)
    ensures v == w
  {
    hide KeysOf, Sorting, Wanted, R.Resolves;
  }

  predicate KeysDistinct(ds: seq<SignalDescriptor>) {
    forall i, j | 0 <= i < j < |ds| :: ds[i].key != ds[j].key
  }

  predicate Resolved(ds: seq<SignalDescriptor>, k: SignalKey) {
    exists i | 0 <= i < |ds| :: ds[i].key == k
  }

  lemma {:induction false} SortingTyped(ds: seq<SignalDescriptor>)
    requires forall i | 0 <= i < |ds| :: Described(ds[i])
    ensures AllTyped(Message(DescriptorPlans()), Sorting(ds)) && Sorted(Message(DescriptorPlans()), Sorting(ds))
    ensures forall d :: d in Sorting(ds) <==> exists i :: 0 <= i < |ds| && d == DescriptorDatum(ds[i])
  {
    DescriptorSchema();
    hide DescriptorPlans, DescriptorDatum, WF, InFieldOrder, KeysNameFields, Typed;
    SortByExact(Message(DescriptorPlans()), DescriptorData(ds));
    SameMembers(Sorting(ds), DescriptorData(ds));
  }

  lemma {:induction false} WantedTyped(ss: seq<SampleReading>)
    requires forall i | 0 <= i < |ss| :: Measured(ss[i])
    ensures AllTyped(Message(SignalKeyPlans()), Wanted(ss))
  {
    SamplesLead(ss);
    var (plans, key, sorted) := (ReadingPlans(), Message(SignalKeyPlans()), SampleSorting(ss));
    assert R.LedBy(plans, key);
    hide ReadingPlans, SignalKeyPlans, SampleSorting, ReadingDatum, Typed, R.LedBy;
    forall j | 0 <= j < |sorted| ensures Typed(key, Wanted(ss)[j]) {
      assert sorted[j] in sorted;
      var i :| 0 <= i < |ss| && sorted[j] == ReadingDatum(ss[i]);
      assert Measured(ss[i]);
      R.LedShape(plans, key, sorted[j]);
    }
  }

  /** The generated check: one scan of neighbours, one search per sample. */
  method Check(ds: seq<SignalDescriptor>, ss: seq<SampleReading>) returns (v: Verdict)
    requires forall i | 0 <= i < |ds| :: Described(ds[i])
    requires forall i | 0 <= i < |ss| :: Measured(ss[i])
    ensures Reports(ds, ss, v)
  {
    hide Described, Measured, Sorting, Wanted, IsFirstRepeat, R.IsFirstUnresolved, DescriptorPlans;
    if |ds| > READINGS_LIMIT {
      return TooManyDescriptors;
    }
    var repeated := CheckDescriptors(ds);
    if repeated.Some? {
      return Duplicate(repeated.value);
    }
    if |ss| > READINGS_LIMIT {
      return TooManySamples;
    }
    var unresolved := Resolve(ds, ss);
    return if unresolved.Some? then Unresolved(unresolved.value) else Passed;
  }

  method CheckDescriptors(ds: seq<SignalDescriptor>) returns (r: Option<nat>)
    requires forall i | 0 <= i < |ds| :: Described(ds[i])
    ensures IsFirstRepeat(KeysOf(DescriptorPlans(), [1], Sorting(ds)), r)
  {
    DescriptorSchema();
    SortingTyped(ds);
    hide DescriptorPlans, DescriptorDatum, WF, InFieldOrder, KeysNameFields, Typed, SortBy;
    r := CheckUnique(DescriptorPlans(), true, [1], Sorting(ds));
  }

  /** The rule: one search over the descriptors for each sample. */
  method Resolve(ds: seq<SignalDescriptor>, ss: seq<SampleReading>) returns (r: Option<nat>)
    requires forall i | 0 <= i < |ds| :: Described(ds[i])
    requires forall i | 0 <= i < |ss| :: Measured(ss[i])
    ensures R.IsFirstUnresolved(Sorting(ds), Wanted(ss), r)
  {
    var (plans, key) := (DescriptorPlans(), Message(SignalKeyPlans()));
    assert R.LedBy(plans, key);
    SignalKeySchema();
    SortingTyped(ds);
    WantedTyped(ss);
    hide DescriptorPlans, SignalKeyPlans, DescriptorDatum, WF, NoMetadata, Typed, R.LedBy, SortBy, Wanted;
    r := R.FirstUnresolved(plans, key, Sorting(ds), Wanted(ss));
  }

  // --- What the verdicts come to ---

  lemma {:induction false} DescriptorKey(d: SignalDescriptor)
    ensures KeyOf(DescriptorPlans(), [1], DescriptorDatum(d)) == [Single(KeyDatum(d.key))]
  {
    assert FieldAt(DescriptorPlans(), DescriptorDatum(d).slots, 1) == DescriptorDatum(d).slots[0];
  }

  lemma {:induction false} DistinctKeys(ds: seq<SignalDescriptor>)
    ensures KeysApart(DescriptorPlans(), [1], DescriptorData(ds)) <==> KeysDistinct(ds)
  {
    var (plans, data) := (DescriptorPlans(), DescriptorData(ds));
    forall i | 0 <= i < |ds| ensures KeyOf(plans, [1], data[i]) == [Single(KeyDatum(ds[i].key))] {
      DescriptorKey(ds[i]);
    }
    hide DescriptorPlans, DescriptorDatum, KeyDatum, KeyOf;
    forall i, j | 0 <= i < j < |ds|
      ensures KeyOf(plans, [1], data[i]) != KeyOf(plans, [1], data[j]) <==> ds[i].key != ds[j].key
    {
      if [Single(KeyDatum(ds[i].key))] == [Single(KeyDatum(ds[j].key))] {
        assert Single(KeyDatum(ds[i].key)) == [Single(KeyDatum(ds[j].key))][0];
        KeyDatumInjective(ds[i].key, ds[j].key);
      }
    }
  }

  /** The check passes exactly within the bounds, on distinct descriptor keys, with
      every sample's key among them. */
  lemma {:induction false} PassesExactly(ds: seq<SignalDescriptor>, ss: seq<SampleReading>)
    ensures Passes(ds, ss) <==>
            && |ds| <= READINGS_LIMIT && |ss| <= READINGS_LIMIT
            && KeysDistinct(ds) && forall i | 0 <= i < |ss| :: Resolved(ds, ss[i].key)
  {
    hide Wanted, IsFirstRepeat, KeysOf, KeysDistinct, R.IsFirstUnresolved, Resolved, Sorting, DescriptorPlans;
    NeverRepeats(ds);
    forall i | 0 <= i < |ss| ensures R.Resolves(Sorting(ds), KeyDatum(ss[i].key)) <==> Resolved(ds, ss[i].key) {
      ResolvedAlike(ds, ss[i].key);
    }
    hide R.Resolves, KeyDatum;
    AllResolved(Sorting(ds), ss);
  }

  lemma NeverRepeats(ds: seq<SignalDescriptor>)
    ensures IsFirstRepeat(KeysOf(DescriptorPlans(), [1], Sorting(ds)), None) <==> KeysDistinct(ds)
  {
    var (plans, data) := (DescriptorPlans(), DescriptorData(ds));
    hide DescriptorPlans, DescriptorDatum, IsFirstRepeat, KeysOf, KeysApart, KeysDistinct, SortBy;
    SortApart(Message(plans), plans, [1], data);
    NoRepeatIsApart(plans, [1], Sorting(ds));
    DistinctKeys(ds);
  }

  lemma {:induction false} AllResolved(sorted: seq<Datum>, ss: seq<SampleReading>)
    ensures R.IsFirstUnresolved(sorted, Wanted(ss), None) <==>
            forall i | 0 <= i < |ss| :: R.Resolves(sorted, KeyDatum(ss[i].key))
  {
    WantedKeys(ss);
    hide R.Resolves, KeyDatum, Wanted;
    forall i | 0 <= i < |Wanted(ss)|
      ensures exists j :: 0 <= j < |ss| && Wanted(ss)[i] == KeyDatum(ss[j].key)
    {
      assert Wanted(ss)[i] in Wanted(ss);
    }
    if R.IsFirstUnresolved(sorted, Wanted(ss), None) {
      forall j | 0 <= j < |ss| ensures R.Resolves(sorted, KeyDatum(ss[j].key)) {
        assert KeyDatum(ss[j].key) in Wanted(ss);
        var i :| 0 <= i < |Wanted(ss)| && Wanted(ss)[i] == KeyDatum(ss[j].key);
      }
    }
  }

  lemma {:induction false} ResolvedAlike(ds: seq<SignalDescriptor>, k: SignalKey)
    ensures R.Resolves(Sorting(ds), KeyDatum(k)) <==> Resolved(ds, k)
  {
    var data := DescriptorData(ds);
    forall i | 0 <= i < |ds| ensures Leads(data[i]) && data[i].slots[0] == Single(KeyDatum(ds[i].key)) { }
    hide KeyDatum, DescriptorDatum, DescriptorPlans, SortBy, Leads, R.Resolves, Resolved;
    SortApart(Message(DescriptorPlans()), DescriptorPlans(), [1], data);
    KeyLeads(ds, data, Sorting(ds), k);
  }

  lemma {:induction false} KeyLeads(ds: seq<SignalDescriptor>, data: seq<Datum>, sorted: seq<Datum>, k: SignalKey)
    requires |data| == |ds| && forall x :: x in sorted <==> x in data
    requires forall i | 0 <= i < |ds| :: Leads(data[i]) && data[i].slots[0] == Single(KeyDatum(ds[i].key))
    ensures R.Resolves(sorted, KeyDatum(k)) <==> Resolved(ds, k)
  {
    hide KeyDatum;
    if R.Resolves(sorted, KeyDatum(k)) {
      var d :| d in sorted && d.DMessage? && d.slots != [] && d.slots[0] == Single(KeyDatum(k));
      var i :| 0 <= i < |data| && data[i] == d;
      KeyDatumInjective(ds[i].key, k);
    }
    if i: nat :| i < |ds| && ds[i].key == k {
      assert data[i] in sorted;
    }
  }
}
