/** Cross-field rules over canonical form (`model/src/rules.rs`): reachability of
    a complete graph, key resolution by binary search, and state series. */
module Rules {
  import opened Bytes
  import opened Orders
  import opened Schemas
  import opened SchemaOrder
  import opened Canonicalization
  import opened Graphs
  import opened Contract
  import V = Values

  // --- Batches: reachability from the scope ---

  datatype Completeness = Complete | Partial | Unrecognized(n: int)

  datatype Relation = Relation(source: Subject, target: Subject)

  datatype Payload = Readings | Logs | States | Inventory | Resources(resources: seq<Subject>, relations: seq<Relation>)

  datatype Batch = Batch(payload: Payload, completeness: Completeness, scope: Option<Subject>)

  datatype Verdict = Accepted | LogsComplete | Unreachable(index: nat)

  /** The relations as a graph: an edge per relation, source to target. */
  ghost predicate Represents(succ: Succ<Subject>, relations: seq<Relation>) {
    forall a, b :: Edge(succ, a, b) <==> Relation(a, b) in relations
  }

  /** `resource` is joined to `scope` by a path of relations. */
  ghost predicate Joined(relations: seq<Relation>, scope: Subject, resource: Subject) {
    exists p: seq<Subject> ::
      && |p| >= 1 && p[0] == scope && p[|p| - 1] == resource
      && forall i | 0 <= i < |p| - 1 :: Relation(p[i], p[i + 1]) in relations
  }

  lemma JoinedIsReaches(succ: Succ<Subject>, relations: seq<Relation>, scope: Subject, resource: Subject)
    requires Represents(succ, relations)
    ensures Joined(relations, scope, resource) <==> Reaches(succ, scope, resource)
  {
    if Joined(relations, scope, resource) {
      var p: seq<Subject> :| && |p| >= 1 && p[0] == scope && p[|p| - 1] == resource
                             && forall i | 0 <= i < |p| - 1 :: Relation(p[i], p[i + 1]) in relations;
      assert Joins(succ, p, scope, resource);
    }
    if Reaches(succ, scope, resource) {
      var p :| Joins(succ, p, scope, resource);
      assert forall i | 0 <= i < |p| - 1 :: Edge(succ, p[i], p[i + 1]);
    }
  }

  method BuildEdges(relations: seq<Relation>) returns (edges: Succ<Subject>)
    ensures Represents(edges, relations)
  {
    edges := map[];
    for i := 0 to |relations|
      invariant Represents(edges, relations[..i])
    {
      var r := relations[i];
      var outgoing := if r.source in edges then edges[r.source] else [];
      ghost var before := edges;
      edges := edges[r.source := outgoing + [r.target]];
      assert relations[..i + 1] == relations[..i] + [r];
      forall a, b ensures Edge(edges, a, b) <==> Relation(a, b) in relations[..i + 1] {
        assert Edge(before, a, b) <==> Relation(a, b) in relations[..i];
        if a == r.source && b == r.target {
          assert (outgoing + [r.target])[|outgoing|] == b;
        }
      }
    }
    assert relations[..|relations|] == relations;
  }

  function OutEdges(edges: Succ<Subject>, n: Subject): (r: seq<Subject>)
    ensures forall b :: b in r <==> Edge(edges, n, b)
  {
    if n in edges then edges[n] else []
  }

  /** The frontier loop: exactly the subjects reachable from the scope, on any
      graph, cyclic or not. */
  method Reach(edges: Succ<Subject>, scope: Subject) returns (reachable: set<Subject>)
    ensures forall n :: n in reachable <==> Reaches(edges, scope, n)
  {
    reachable := {};
    var frontier: seq<Subject> := [scope];
    ghost var universe := Targets(edges) + {scope};
    ExploreStart(edges, {scope}, frontier);
    while frontier != []
      invariant forall n | n in frontier :: n in universe
      invariant Exploring(edges, {scope}, reachable, frontier)
      decreases |universe - reachable|, |frontier|
    {
      var next := frontier[0];
      if next in reachable {
        ExploreSkip(edges, {scope}, reachable, frontier);
        frontier := frontier[1..];
        continue;
      }
      ExploreVisit(edges, {scope}, reachable, frontier, OutEdges(edges, next));
      VisitShrinks(universe, reachable, next);
      assert forall b | b in OutEdges(edges, next) :: b in Targets(edges);
      reachable := reachable + {next};
      frontier := frontier[1..] + OutEdges(edges, next);
    }
    ExploreDone(edges, {scope}, reachable);
    assert forall n :: ReachedFrom(edges, {scope}, n) <==> Reaches(edges, scope, n);
  }

  /** What the batch rule must say, over paths of relations. */
  ghost predicate BatchVerdict(b: Batch, v: Verdict) {
    if b.payload.Logs? && b.completeness == Complete then v == LogsComplete
    else if b.payload.Resources? && b.completeness == Complete && b.scope.Some? then
      var rs := b.payload.resources;
      match v
      case LogsComplete => false
      case Accepted => forall r | r in rs :: Joined(b.payload.relations, b.scope.value, r)
      case Unreachable(k) =>
        && k < |rs| && !Joined(b.payload.relations, b.scope.value, rs[k])
        && forall i | 0 <= i < k :: Joined(b.payload.relations, b.scope.value, rs[i])
    else v == Accepted
  }

  method ObservationBatch(b: Batch) returns (v: Verdict)
    ensures BatchVerdict(b, v)
  {
    if b.payload.Logs? && b.completeness == Complete {
      return LogsComplete;
    }
    if !b.payload.Resources? || b.completeness != Complete || b.scope.None? {
      return Accepted;
    }
    var edges := BuildEdges(b.payload.relations);
    var reachable := Reach(edges, b.scope.value);
    var rs := b.payload.resources;
    for index := 0 to |rs|
      invariant forall i | 0 <= i < index :: Joined(b.payload.relations, b.scope.value, rs[i])
    {
      JoinedIsReaches(edges, b.payload.relations, b.scope.value, rs[index]);
      if rs[index] !in reachable {
        return Unreachable(index);
      }
    }
    return Accepted;
  }

  // --- Key resolution: binary search over canonical order ---

  lemma SearchLess(t: Type, keys: seq<Datum>, wanted: Datum, mid: nat)
    requires mid < |keys| && Sorted(t, keys) && Cmp(t, keys[mid], wanted) == Less
    ensures forall i | 0 <= i <= mid :: keys[i] != wanted
  {
    CmpFlip(t, keys[mid], wanted);
    CmpFlip(t, wanted, wanted);
    forall i | 0 <= i <= mid ensures keys[i] != wanted {
      if i < mid {
        assert Le(t, keys[i], keys[mid]);
      }
    }
  }

  lemma SearchGreater(t: Type, keys: seq<Datum>, wanted: Datum, mid: nat)
    requires mid < |keys| && Sorted(t, keys) && Cmp(t, keys[mid], wanted) == Greater
    ensures forall i | mid <= i < |keys| :: keys[i] != wanted
  {
    CmpFlip(t, wanted, wanted);
    forall i | mid <= i < |keys| ensures keys[i] != wanted {
      if i > mid {
        assert Le(t, keys[mid], keys[i]);
      }
    }
  }

  method BinarySearch(t: Type, keys: seq<Datum>, wanted: Datum) returns (found: bool)
    requires WF(t) && AllTyped(t, keys) && Typed(t, wanted) && Sorted(t, keys)
    ensures found <==> wanted in keys
  {
    var lo, hi := 0, |keys|;
    while lo < hi
      invariant 0 <= lo <= hi <= |keys|
      invariant forall i | 0 <= i < |keys| && !(lo <= i < hi) :: keys[i] != wanted
    {
      var mid := lo + (hi - lo) / 2;
      assert keys[mid] in keys;
      CmpEqual(t, keys[mid], wanted);
      match Cmp(t, keys[mid], wanted) {
        case Equal => return true;
        case Less =>
          SearchLess(t, keys, wanted, mid);
          lo := mid + 1;
        case Greater =>
          SearchGreater(t, keys, wanted, mid);
          hi := mid;
      }
    }
    return false;
  }

  /** The leading required field of each element. */
  function LeadingKeys(ds: seq<Datum>): (r: seq<Datum>)
    requires forall d | d in ds :: d.DMessage? && d.slots != [] && d.slots[0].Single?
    ensures |r| == |ds| && forall i | 0 <= i < |ds| :: r[i] == ds[i].slots[0].d
  {
    seq(|ds|, i requires 0 <= i < |ds| => ds[i].slots[0].d)
  }

  predicate LedBy(plans: seq<Plan>, key: Type) {
    plans != [] && plans[0].shape == Required(key) && !plans[0].metadata
  }

  lemma LedShape(plans: seq<Plan>, key: Type, d: Datum)
    requires LedBy(plans, key) && Typed(Message(plans), d)
    ensures d.DMessage? && d.slots != [] && d.slots[0].Single? && Typed(key, d.slots[0].d)
  {
    TypedAt(plans, d.slots, 0);
  }

  lemma LedCmp(plans: seq<Plan>, key: Type, a: Datum, b: Datum)
    requires LedBy(plans, key) && Typed(Message(plans), a) && Typed(Message(plans), b)
    requires Le(Message(plans), a, b) && a.slots != [] && b.slots != [] && a.slots[0].Single? && b.slots[0].Single?
    ensures Le(key, a.slots[0].d, b.slots[0].d)
  {
    assert CmpSlot(plans[0], a.slots[0], b.slots[0]) == Cmp(key, a.slots[0].d, b.slots[0].d);
    assert CmpPhase(plans, a.slots, b.slots, false) ==
           Cmp(key, a.slots[0].d, b.slots[0].d).Then(CmpPhase(plans[1..], a.slots[1..], b.slots[1..], false));
  }

  /** Canonically sorted elements have their leading keys in order. */
  lemma LeadingKeysSorted(plans: seq<Plan>, key: Type, ds: seq<Datum>)
    requires LedBy(plans, key) && AllTyped(Message(plans), ds) && Sorted(Message(plans), ds)
    requires forall d | d in ds :: d.DMessage? && d.slots != [] && d.slots[0].Single?
    ensures Sorted(key, LeadingKeys(ds)) && AllTyped(key, LeadingKeys(ds))
  {
    var r := LeadingKeys(ds);
    forall i, j | 0 <= i < j < |r| ensures Le(key, r[i], r[j]) {
      assert ds[i] in ds && ds[j] in ds;
      LedShape(plans, key, ds[i]);
      LedShape(plans, key, ds[j]);
      LedCmp(plans, key, ds[i], ds[j]);
    }
    forall k | k in r ensures Typed(key, k) {
      var i :| 0 <= i < |r| && r[i] == k;
      assert ds[i] in ds;
      LedShape(plans, key, ds[i]);
    }
  }

  /** Some element leads with this key. */
  ghost predicate Resolves(ds: seq<Datum>, key: Datum) {
    exists d :: d in ds && d.DMessage? && d.slots != [] && d.slots[0] == Single(key)
  }

  ghost predicate IsFirstUnresolved(ds: seq<Datum>, wanted: seq<Datum>, r: Option<nat>) {
    match r
    case None => forall i | 0 <= i < |wanted| :: Resolves(ds, wanted[i])
    case Some(k) =>
      k < |wanted| && !Resolves(ds, wanted[k]) && forall i | 0 <= i < k :: Resolves(ds, wanted[i])
  }

  /** The resolution rule of readings (samples to descriptors) and of graphs
      (relation sources to resources): the first wanted key no element leads
      with, found by binary search. */
  method FirstUnresolved(plans: seq<Plan>, key: Type, ds: seq<Datum>, wanted: seq<Datum>) returns (r: Option<nat>)
    requires WF(key) && LedBy(plans, key) && AllTyped(Message(plans), ds) && Sorted(Message(plans), ds)
    requires AllTyped(key, wanted)
    ensures IsFirstUnresolved(ds, wanted, r)
  {
    forall d | d in ds ensures d.DMessage? && d.slots != [] && d.slots[0].Single? {
      LedShape(plans, key, d);
    }
    LeadingKeysSorted(plans, key, ds);
    var keys := LeadingKeys(ds);
    for index := 0 to |wanted|
      invariant forall i | 0 <= i < index :: Resolves(ds, wanted[i])
    {
      assert wanted[index] in wanted;
      var found := BinarySearch(key, keys, wanted[index]);
      LeadingKeysResolve(ds, wanted[index]);
      if !found {
        return Some(index);
      }
    }
    return None;
  }

  lemma LeadingKeysResolve(ds: seq<Datum>, key: Datum)
    requires forall d | d in ds :: d.DMessage? && d.slots != [] && d.slots[0].Single?
    ensures key in LeadingKeys(ds) <==> Resolves(ds, key)
  {
    var keys := LeadingKeys(ds);
    if key in keys {
      var i :| 0 <= i < |keys| && keys[i] == key;
      assert ds[i] in ds;
    }
    if Resolves(ds, key) {
      var d :| d in ds && d.DMessage? && d.slots != [] && d.slots[0] == Single(key);
      var i :| 0 <= i < |ds| && ds[i] == d;
      assert keys[i] == key;
    }
  }

  // --- State series ---

  datatype StateObs = StateObs(subject: Subject, facet: Option<Str>, name: Str, at: Option<V.Timestamp>) {
    function Id(): (Subject, Option<Str>, Str) { (subject, facet, name) }
  }

  /** A repeated identity is a series: every observation of it carries an instant,
      and no two the same. */
  predicate SeriesOk(obs: seq<StateObs>) {
    forall i, j | 0 <= i < j < |obs| && obs[i].Id() == obs[j].Id() ::
      obs[i].at.Some? && obs[j].at.Some? && obs[i].at != obs[j].at
  }

  /** An observation at fault: repeated, and without an instant of its own. */
  predicate AtFault(obs: seq<StateObs>, k: nat)
    requires k < |obs|
  {
    exists j :: 0 <= j < |obs| && j != k && obs[j].Id() == obs[k].Id()
                && (obs[k].at.None? || (j < k && obs[j].at == obs[k].at))
  }

  type Series = map<(Subject, Option<Str>, Str), seq<nat>>

  predicate InSeries(series: Series, id: (Subject, Option<Str>, Str), k: nat) { id in series && k in series[id] }

  ghost predicate Increasing(s: seq<nat>) {
    forall x, y | 0 <= x < y < |s| :: s[x] < s[y]
  }

  /** Each series lists the positions of its identity's observations in order. */
  ghost predicate Groups(obs: seq<StateObs>, n: nat, series: Series)
    requires n <= |obs|
  {
    && (forall id, k: nat :: InSeries(series, id, k) <==> k < n && obs[k].Id() == id)
    && (forall id | id in series :: Increasing(series[id]))
  }

  method GroupSeries(obs: seq<StateObs>) returns (series: Series)
    ensures Groups(obs, |obs|, series)
  {
    series := map[];
    for index := 0 to |obs|
      invariant Groups(obs, index, series)
    {
      var id := obs[index].Id();
      var members := if id in series then series[id] else [];
      ghost var before := series;
      forall k | k in members ensures k < index { assert InSeries(series, id, k); }
      assert forall x | 0 <= x < |members| :: members[x] in members;
      series := series[id := members + [index]];
      forall other, k: nat
        ensures InSeries(series, other, k) <==> k < index + 1 && obs[k].Id() == other
      {
        assert InSeries(before, other, k) <==> k < index && obs[k].Id() == other;
        if other == id && k == index {
          assert (members + [index])[|members|] == k;
        }
      }
    }
  }

  /** No member of the series lacks an instant or repeats one. */
  ghost predicate SeriesDistinct(obs: seq<StateObs>, members: seq<nat>)
    requires forall k | k in members :: k < |obs|
  {
    forall j, k | j in members && k in members && j < k ::
      obs[j].at.Some? && obs[k].at.Some? && obs[j].at != obs[k].at
  }

  /** `instants` are those of the series' members seen so far. */
  ghost predicate Recorded(obs: seq<StateObs>, seen: seq<nat>, instants: set<V.Timestamp>)
    requires forall k | k in seen :: k < |obs|
  {
    && SeriesDistinct(obs, seen)
    && (forall j | j in seen :: obs[j].at.Some? && obs[j].at.value in instants)
    && (forall t | t in instants :: exists j :: j in seen && obs[j].at == Some(t))
  }

  lemma Record(obs: seq<StateObs>, seen: seq<nat>, instants: set<V.Timestamp>, k: nat)
    requires k < |obs| && forall j | j in seen :: j < k
    requires Recorded(obs, seen, instants) && obs[k].at.Some? && obs[k].at.value !in instants
    ensures Recorded(obs, seen + [k], instants + {obs[k].at.value})
  {
    var after := seen + [k];
    assert forall j :: j in after <==> j in seen || j == k;
  }

  lemma MemberAt(members: seq<nat>, x: nat)
    requires Increasing(members) && x < |members|
    ensures members[..x + 1] == members[..x] + [members[x]]
    ensures forall j | j in members[..x] :: j in members && j < members[x]
  {
  }

  lemma NothingRecorded(obs: seq<StateObs>)
    ensures Recorded(obs, [], {})
  {
  }

  lemma RecordedDistinct(obs: seq<StateObs>, members: seq<nat>, instants: set<V.Timestamp>)
    requires (forall k | k in members :: k < |obs|) && Recorded(obs, members, instants)
    ensures SeriesDistinct(obs, members)
  {
  }

  lemma RepeatedInstant(obs: seq<StateObs>, members: seq<nat>, x: nat, instants: set<V.Timestamp>)
    requires (forall k | k in members :: k < |obs|) && Increasing(members) && x < |members|
    requires forall k, j | k in members && j in members :: obs[k].Id() == obs[j].Id()
    requires (forall j | j in members[..x] :: j < |obs|) && Recorded(obs, members[..x], instants)
    requires members[x] < |obs| && obs[members[x]].at.Some? && obs[members[x]].at.value in instants
    ensures AtFault(obs, members[x])
  {
    MemberAt(members, x);
    assert members[x] in members;
    var j :| j in members[..x] && obs[j].at == Some(obs[members[x]].at.value);
    assert obs[j].Id() == obs[members[x]].Id();
  }

  method CheckOne(obs: seq<StateObs>, members: seq<nat>) returns (r: Option<nat>)
    requires forall k | k in members :: k < |obs|
    requires Increasing(members)
    requires forall k, j | k in members && j in members :: obs[k].Id() == obs[j].Id()
    ensures r.None? ==> SeriesDistinct(obs, members)
    ensures r.Some? ==> r.value < |obs| && AtFault(obs, r.value)
  {
    if |members| <= 1 {
      return None;
    }
    hide AtFault, Recorded, SeriesDistinct, Increasing;
    NothingRecorded(obs);
    var instants: set<V.Timestamp> := {};
    for x := 0 to |members|
      invariant forall j | j in members[..x] :: j < |obs|
      invariant Recorded(obs, members[..x], instants)
    {
      var k := members[x];
      assert k in members;
      MemberAt(members, x);
      if obs[k].at.None? {
        MissingInstant(obs, members, x);
        return Some(k);
      }
      if obs[k].at.value in instants {
        RepeatedInstant(obs, members, x, instants);
        return Some(k);
      }
      Record(obs, members[..x], instants, k);
      instants := instants + {obs[k].at.value};
    }
    assert members[..|members|] == members;
    RecordedDistinct(obs, members, instants);
    return None;
  }

  lemma MissingInstant(obs: seq<StateObs>, members: seq<nat>, x: nat)
    requires forall k | k in members :: k < |obs|
    requires Increasing(members) && x < |members| && |members| > 1
    requires forall k, j | k in members && j in members :: obs[k].Id() == obs[j].Id()
    requires members[x] < |obs| && obs[members[x]].at.None?
    ensures AtFault(obs, members[x])
  {
    var other := members[if x == 0 then 1 else 0];
    assert other in members && members[x] in members && other != members[x];
    assert obs[other].Id() == obs[members[x]].Id();
  }

  lemma FaultRefutes(obs: seq<StateObs>)
    ensures forall k | 0 <= k < |obs| && AtFault(obs, k) :: !SeriesOk(obs)
  {
    forall k | 0 <= k < |obs| && AtFault(obs, k) ensures !SeriesOk(obs) {
      var j :| 0 <= j < |obs| && j != k && obs[j].Id() == obs[k].Id()
               && (obs[k].at.None? || (j < k && obs[j].at == obs[k].at));
      var (lo, hi) := if j < k then (j, k) else (k, j);
      assert 0 <= lo < hi < |obs| && obs[lo].Id() == obs[hi].Id();
    }
  }

  /** The series rule, grouping by full identity because canonical order need not
      keep one identity's observations together. */
  method CheckStates(obs: seq<StateObs>) returns (r: Option<nat>)
    ensures r.None? <==> SeriesOk(obs)
    ensures r.Some? ==> r.value < |obs| && AtFault(obs, r.value)
  {
    FaultRefutes(obs);
    var series := GroupSeries(obs);
    var rest := series.Keys;
    forall i | 0 <= i < |obs| ensures obs[i].Id() in rest { assert InSeries(series, obs[i].Id(), i); }
    while rest != {}
      invariant rest <= series.Keys
      invariant forall i, j | 0 <= i < j < |obs| && obs[i].Id() == obs[j].Id() && obs[i].Id() !in rest ::
                  obs[i].at.Some? && obs[j].at.Some? && obs[i].at != obs[j].at
      decreases |rest|
    {
      var id :| id in rest;
      var members := series[id];
      assert forall k | k in members :: InSeries(series, id, k);
      r := CheckOne(obs, members);
      if r.Some? {
        return;
      }
      forall i, j | 0 <= i < j < |obs| && obs[i].Id() == obs[j].Id() == id
        ensures obs[i].at.Some? && obs[j].at.Some? && obs[i].at != obs[j].at
      {
        assert InSeries(series, id, i) && InSeries(series, id, j);
      }
      rest := rest - {id};
    }
    r := None;
  }
}
