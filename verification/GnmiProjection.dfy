/** Projecting one gNMI notification (`sources/gnmi/src/projection.rs`): a backward
    scan in which the last word on a path wins, leaves claimed once, and an
    identity two leaves share poisoned rather than guessed at. The subscription's
    mapping, JSON expansion and value conversion are functions of the spec. */
module GnmiProjection {
  import opened Bytes
  import opened Contract
  import B = ReadingsBuilding
  import R = Rules

  // --- Notifications ---

  type Text = seq<char>

  datatype Elem = Elem(name: Text, keys: map<Text, Text>)

  type Path = seq<Elem>

  datatype WirePath = WirePath(origin: Text, target: Text, legacy: bool, elems: seq<Elem>)

  datatype Value = Json(bytes: seq<byte>, ietf: bool) | Scalar(n: nat)

  datatype Update = Update(path: Option<WirePath>, val: Option<Value>)

  datatype Notification = Notification(prefix: Option<WirePath>, updates: seq<Update>, deletes: seq<WirePath>)

  // --- Observations ---

  type Descriptor = SignalDescriptor

  type Sample = SampleReading

  datatype Observation = Reading(descriptor: Descriptor, sample: Sample) | State(obs: R.StateObs, value: nat)

  datatype Identity = ReadingId(key: SignalKey) | StateId(subject: Subject, facet: Option<Str>, name: Str)

  function IdentityOf(o: Observation): Identity {
    match o
    case Reading(d, _) => ReadingId(d.key)
    case State(obs, _) => StateId(obs.subject, obs.facet, obs.name)
  }

  /** A projected reading's sample carries its descriptor's key, and both are what
      their builders accepted. */
  predicate Coherent(o: Observation) {
    o.Reading? ==> o.sample.key == o.descriptor.key && B.Described(o.descriptor) && B.Measured(o.sample)
  }

  // --- The subscription, abstractly ---

  datatype Expanded = Leaf(path: Path, value: Option<Value>, pointer: Text) | BadMember(pointer: Text)

  /** What converting one mapped leaf comes to. */
  datatype Converted = Projected(o: Observation) | BadSubject | BadValue | ModelError

  datatype Spec = Spec(
    origin: Text, target: Text,
    mapped: Path -> bool, covered: Path -> bool,
    expand: (Path, seq<byte>, bool) -> seq<Expanded>,
    convert: (Path, Option<Value>) -> Converted)

  // --- Paths ---

  predicate Conflict(a: Text, b: Text) { a != "" && b != "" && a != b }

  predicate ElemOk(e: Elem) { e.name != "" && forall k | k in e.keys :: k != "" && e.keys[k] != "" }

  datatype Resolved = Resolved(path: Path) | Conflicting | Legacy | EmptyElement

  function Origin(p: Option<WirePath>): Text { if p.Some? then p.value.origin else "" }

  function Target(p: Option<WirePath>): Text { if p.Some? then p.value.target else "" }

  predicate Conflicts(spec: Spec, prefix: Option<WirePath>, path: Option<WirePath>) {
    || Conflict(spec.origin, Origin(prefix)) || Conflict(spec.origin, Origin(path))
    || Conflict(Origin(prefix), Origin(path))
    || Conflict(spec.target, Target(prefix)) || Conflict(spec.target, Target(path))
    || Conflict(Target(prefix), Target(path))
  }

  function Parts(prefix: Option<WirePath>, path: Option<WirePath>): seq<WirePath> {
    (if prefix.Some? then [prefix.value] else []) + (if path.Some? then [path.value] else [])
  }

  /** The concrete path a prefix and path name, or the first reason they name
      none, part by part and element by element. */
  function ResolveParts(parts: seq<WirePath>): Resolved {
    if parts == [] then Resolved([])
    else if parts[0].legacy then Legacy
    else if exists e :: e in parts[0].elems && !ElemOk(e) then EmptyElement
    else Prepend(parts[0].elems, ResolveParts(parts[1..]))
  }

  function Resolve(spec: Spec, prefix: Option<WirePath>, path: Option<WirePath>): Resolved {
    if Conflicts(spec, prefix, path) then Conflicting else ResolveParts(Parts(prefix, path))
  }

  function ElemsOf(p: Option<WirePath>): Path { if p.Some? then p.value.elems else [] }

  /** A missing part, or one in modern elements whose names, keys and key values
      are all present. */
  predicate SoundPart(p: Option<WirePath>) {
    p.Some? ==>
      && !p.value.legacy
      && forall e | e in p.value.elems :: e.name != "" && forall k | k in e.keys :: k != "" && e.keys[k] != ""
  }

  /** The part's origin is left open or is this one. */
  ghost predicate OriginFits(p: Option<WirePath>, origin: Text) {
    p.Some? ==> p.value.origin == "" || p.value.origin == origin
  }

  ghost predicate TargetFits(p: Option<WirePath>, target: Text) {
    p.Some? ==> p.value.target == "" || p.value.target == target
  }

  /** Subscription, prefix and path can all be read under one origin and one target. */
  ghost predicate Agree(spec: Spec, prefix: Option<WirePath>, path: Option<WirePath>) {
    && (exists o :: (spec.origin == "" || spec.origin == o) && OriginFits(prefix, o) && OriginFits(path, o))
    && (exists t :: (spec.target == "" || spec.target == t) && TargetFits(prefix, t) && TargetFits(path, t))
  }

  /** A resolution conflicts exactly when no one origin and one target serve all
      three, an open one serving with any. */
  lemma ConflictsExactly(spec: Spec, prefix: Option<WirePath>, path: Option<WirePath>)
    ensures Resolve(spec, prefix, path).Conflicting? <==> !Agree(spec, prefix, path)
  {
    var o := if spec.origin != "" then spec.origin else if Origin(prefix) != "" then Origin(prefix) else Origin(path);
    var t := if spec.target != "" then spec.target else if Target(prefix) != "" then Target(prefix) else Target(path);
    assert !Conflicts(spec, prefix, path) ==>
        && OriginFits(prefix, o) && OriginFits(path, o) && TargetFits(prefix, t) && TargetFits(path, t);
    NeverConflicting(Parts(prefix, path));
    hide ResolveParts;
  }

  lemma {:induction false} NeverConflicting(parts: seq<WirePath>)
    ensures !ResolveParts(parts).Conflicting?
  {
    if parts != [] {
      NeverConflicting(parts[1..]);
    }
  }

  /** A prefix and path name a concrete path exactly when one origin and one target
      serve them and both parts are sound: the one's elements, then the other's. */
  lemma ResolveExact(spec: Spec, prefix: Option<WirePath>, path: Option<WirePath>, r: Path)
    ensures Resolve(spec, prefix, path) == Resolved(r) <==>
            && Agree(spec, prefix, path) && SoundPart(prefix) && SoundPart(path)
            && r == (if prefix.Some? then prefix.value.elems else []) + (if path.Some? then path.value.elems else [])
  {
    ConflictsExactly(spec, prefix, path);
    hide Agree, SoundPart;
    var last := if path.Some? then [path.value] else [];
    assert last + [] == last;
    PartResolves(prefix, last);
    PartResolves(path, []);
    assert ElemsOf(path) + [] == ElemsOf(path);
  }

  /** The parts are read in order, and a part's elements only once it is known not
      to be in the legacy form: the fault reported is the first. */
  lemma FirstFault(spec: Spec, prefix: Option<WirePath>, path: Option<WirePath>)
    requires Agree(spec, prefix, path)
    ensures var first := if SoundPart(prefix) then path else prefix;
            && (Resolve(spec, prefix, path) == Legacy <==> !SoundPart(first) && first.value.legacy)
            && (Resolve(spec, prefix, path) == EmptyElement <==> !SoundPart(first) && !first.value.legacy)
  {
    ConflictsExactly(spec, prefix, path);
    hide Agree;
    var last := if path.Some? then [path.value] else [];
    assert last + [] == last;
    PartResolves(prefix, last);
    PartResolves(path, []);
  }

  lemma PartResolves(part: Option<WirePath>, rest: seq<WirePath>)
    ensures var parts := (if part.Some? then [part.value] else []) + rest;
            if SoundPart(part) then ResolveParts(parts) == Prepend(ElemsOf(part), ResolveParts(rest))
            else ResolveParts(parts) == if part.value.legacy then Legacy else EmptyElement
  {
    var parts := (if part.Some? then [part.value] else []) + rest;
    if part.Some? {
      assert parts[0] == part.value && parts[1..] == rest;
      assert (exists e :: e in part.value.elems && !ElemOk(e)) <==>
             !(forall e | e in part.value.elems :: ElemOk(e));
    } else {
      assert parts == rest;
      if ResolveParts(rest).Resolved? {
        assert [] + ResolveParts(rest).path == ResolveParts(rest).path;
      }
    }
  }

  method ResolvePath(spec: Spec, prefix: Option<WirePath>, path: Option<WirePath>) returns (r: Resolved)
    ensures r == Resolve(spec, prefix, path)
  {
    if Conflicts(spec, prefix, path) {
      return Conflicting;
    }
    var parts := Parts(prefix, path);
    assert Resolve(spec, prefix, path) == ResolveParts(parts);
    hide Resolve, Conflicts, Parts, ElemOk;
    var elements: Path := [];
    for i := 0 to |parts|
      invariant ResolveParts(parts) == Prepend(elements, ResolveParts(parts[i..]))
    {
      assert parts[i..][0] == parts[i] && parts[i..][1..] == parts[i + 1..];
      if parts[i].legacy {
        return Legacy;
      }
      var sound := CheckElements(parts[i].elems);
      if !sound {
        return EmptyElement;
      }
      PrependTwice(elements, parts[i].elems, ResolveParts(parts[i + 1..]));
      elements := elements + parts[i].elems;
    }
    assert elements + [] == elements;
    return Resolved(elements);
  }

  function Prepend(front: Path, r: Resolved): Resolved {
    match r
    case Resolved(rest) => Resolved(front + rest)
    case other => other
  }

  lemma PrependTwice(a: Path, b: Path, r: Resolved)
    ensures Prepend(a, Prepend(b, r)) == Prepend(a + b, r)
  {
    if r.Resolved? {
      Assoc(a, b, r.path);
    }
  }

  method CheckElements(elems: Path) returns (sound: bool)
    ensures sound <==> forall e | e in elems :: ElemOk(e)
  {
    for j := 0 to |elems|
      invariant forall k | 0 <= k < j :: ElemOk(elems[k])
    {
      if !ElemOk(elems[j]) {
        return false;
      }
    }
    return true;
  }

  // --- Issues ---

  datatype Reason = Unresolved | BadJson | Unmapped | Subjectless | Mismatch | Collided | DeleteUnresolved
      | DeleteMapped

  /** Where in the notification, and why. */
  datatype Issue = Issue(index: nat, pointer: Option<Text>, reason: Reason)

  // --- First stage: the last update of each path ---

  predicate Wanted(spec: Spec, path: Path) { spec.mapped(path) || spec.covered(path) }

  function PathAt(spec: Spec, n: Notification, i: nat): Resolved
    requires i < |n.updates|
  {
    Resolve(spec, n.prefix, n.updates[i].path)
  }

  /** The update names a wanted path and no later one names the same. */
  predicate Kept(spec: Spec, n: Notification, i: nat)
    requires i < |n.updates|
  {
    && PathAt(spec, n, i).Resolved? && Wanted(spec, PathAt(spec, n, i).path)
    && forall j | i < j < |n.updates| :: PathAt(spec, n, j) != PathAt(spec, n, i)
  }

  datatype LeafUpdate = LeafUpdate(path: Path, value: Option<Value>, index: nat, pointer: Option<Text>)

  predicate IsSpace(b: byte) { b == 9 || b == 10 || b == 12 || b == 13 || b == 32 }

  /** The first byte that is not white space opens an object. */
  predicate OpensObject(bytes: seq<byte>) {
    bytes != [] && if IsSpace(bytes[0]) then OpensObject(bytes[1..]) else bytes[0] == 123
  }

  predicate IsObject(v: Option<Value>) { v.Some? && v.value.Json? && OpensObject(v.value.bytes) }

  function LeafOfMember(e: Expanded, index: nat): seq<LeafUpdate> {
    match e
    case Leaf(path, value, pointer) => [LeafUpdate(path, value, index, Some(pointer))]
    case BadMember(_) => []
  }

  function IssueOfMember(e: Expanded, index: nat): seq<Issue> {
    match e
    case Leaf(_, _, _) => []
    case BadMember(pointer) => [Issue(index, Some(pointer), BadJson)]
  }

  function ExpandedLeaves(es: seq<Expanded>, index: nat): seq<LeafUpdate> {
    if es == [] then [] else LeafOfMember(es[0], index) + ExpandedLeaves(es[1..], index)
  }

  function ExpandedIssues(es: seq<Expanded>, index: nat): seq<Issue> {
    if es == [] then [] else IssueOfMember(es[0], index) + ExpandedIssues(es[1..], index)
  }

  /** An object stands for its members, anything else for itself. */
  function LeavesOf(spec: Spec, path: Path, v: Option<Value>, index: nat): seq<LeafUpdate> {
    if IsObject(v) then ExpandedLeaves(spec.expand(path, v.value.bytes, v.value.ietf), index)
    else [LeafUpdate(path, v, index, None)]
  }

  function IssuesOf(spec: Spec, path: Path, v: Option<Value>, index: nat): seq<Issue> {
    if IsObject(v) then ExpandedIssues(spec.expand(path, v.value.bytes, v.value.ietf), index) else []
  }

  /** Leaves of the kept updates from `i` on, latest update first. */
  function LeavesFrom(spec: Spec, n: Notification, i: nat): seq<LeafUpdate>
    requires i <= |n.updates|
    decreases |n.updates| - i
  {
    if i == |n.updates| then []
    else LeavesFrom(spec, n, i + 1) +
         if Kept(spec, n, i) then LeavesOf(spec, PathAt(spec, n, i).path, n.updates[i].val, i) else []
  }

  function ScanIssuesFrom(spec: Spec, n: Notification, i: nat): seq<Issue>
    requires i <= |n.updates|
    decreases |n.updates| - i
  {
    if i == |n.updates| then []
    else ScanIssuesFrom(spec, n, i + 1) +
         if !PathAt(spec, n, i).Resolved? then [Issue(i, None, Unresolved)]
         else if Kept(spec, n, i) then IssuesOf(spec, PathAt(spec, n, i).path, n.updates[i].val, i)
         else []
  }

  method ExpandUpdate(spec: Spec, path: Path, value: Option<Value>, index: nat)
    returns (leaves: seq<LeafUpdate>, issues: seq<Issue>)
    ensures leaves == LeavesOf(spec, path, value, index) && issues == IssuesOf(spec, path, value, index)
  {
    if !IsObject(value) {
      return [LeafUpdate(path, value, index, None)], [];
    }
    hide ExpandedLeaves, ExpandedIssues;
    var expanded := spec.expand(path, value.value.bytes, value.value.ietf);
    leaves, issues := [], [];
    assert expanded[0..] == expanded && expanded[|expanded|..] == [];
    NoneExpanded(index);
    for k := 0 to |expanded|
      invariant leaves + ExpandedLeaves(expanded[k..], index) == ExpandedLeaves(expanded, index)
      invariant issues + ExpandedIssues(expanded[k..], index) == ExpandedIssues(expanded, index)
    {
      NextExpanded(expanded, k, index, leaves, issues);
      match expanded[k] {
        case Leaf(p, v, pointer) => leaves := leaves + [LeafUpdate(p, v, index, Some(pointer))];
        case BadMember(pointer) => issues := issues + [Issue(index, Some(pointer), BadJson)];
      }
    }
  }

  lemma NoneExpanded(index: nat)
    ensures ExpandedLeaves([], index) == [] && ExpandedIssues([], index) == []
  {
  }

  lemma NextExpanded(es: seq<Expanded>, k: nat, index: nat, leaves: seq<LeafUpdate>, issues: seq<Issue>)
    requires k < |es|
    ensures var (left, faults) := (ExpandedLeaves(es[k + 1..], index), ExpandedIssues(es[k + 1..], index));
            && (es[k].Leaf? ==>
                  && leaves + ExpandedLeaves(es[k..], index) == (leaves + LeafOfMember(es[k], index)) + left
                  && ExpandedIssues(es[k..], index) == faults)
            && (es[k].BadMember? ==>
                  && issues + ExpandedIssues(es[k..], index) == (issues + IssueOfMember(es[k], index)) + faults
                  && ExpandedLeaves(es[k..], index) == left)
  {
    assert es[k..][0] == es[k] && es[k..][1..] == es[k + 1..];
    Assoc(leaves, LeafOfMember(es[k], index), ExpandedLeaves(es[k + 1..], index));
    Assoc(issues, IssueOfMember(es[k], index), ExpandedIssues(es[k + 1..], index));
  }

  /** `seen` holds the wanted paths of the updates from `i` on. */
  ghost predicate Seen(spec: Spec, n: Notification, i: nat, seen: set<Path>)
    requires i <= |n.updates|
  {
    forall p :: p in seen <==> Wanted(spec, p) && exists j :: i <= j < |n.updates| && PathAt(spec, n, j) == Resolved(p)
  }

  lemma SeenStep(spec: Spec, n: Notification, i: nat, seen: set<Path>)
    requires i < |n.updates| && Seen(spec, n, i + 1, seen)
    ensures var r := PathAt(spec, n, i);
            if r.Resolved? && Wanted(spec, r.path)
            then (Kept(spec, n, i) <==> r.path !in seen) && Seen(spec, n, i, seen + {r.path})
            else !Kept(spec, n, i) && Seen(spec, n, i, seen)
  {
    hide Resolve, Wanted;
    var r := PathAt(spec, n, i);
    forall p ensures (exists j :: i <= j < |n.updates| && PathAt(spec, n, j) == Resolved(p)) <==>
                     r == Resolved(p) || exists j :: i + 1 <= j < |n.updates| && PathAt(spec, n, j) == Resolved(p)
    {
    }
  }

  /** The backward scan keeps the last update of each wanted path. */
  method ScanUpdates(spec: Spec, n: Notification) returns (leaves: seq<LeafUpdate>, issues: seq<Issue>)
    ensures leaves == LeavesFrom(spec, n, 0) && issues == ScanIssuesFrom(spec, n, 0)
  {
    hide Seen, Resolve, Wanted, Kept, LeavesOf, IssuesOf;
    leaves, issues := [], [];
    var seen: set<Path> := {};
    var index := |n.updates|;
    assert Seen(spec, n, index, seen) by { NoneSeen(spec, n); }
    while index > 0
      invariant 0 <= index <= |n.updates|
      invariant leaves == LeavesFrom(spec, n, index) && issues == ScanIssuesFrom(spec, n, index)
      invariant Seen(spec, n, index, seen)
    {
      index := index - 1;
      SeenStep(spec, n, index, seen);
      var resolved := ResolvePath(spec, n.prefix, n.updates[index].path);
      assert resolved == PathAt(spec, n, index);
      if !resolved.Resolved? {
        issues := issues + [Issue(index, None, Unresolved)];
        continue;
      }
      if !Wanted(spec, resolved.path) {
        continue;
      }
      if resolved.path in seen {
        assert seen + {resolved.path} == seen;
        continue;
      }
      seen := seen + {resolved.path};
      var more, faults := ExpandUpdate(spec, resolved.path, n.updates[index].val, index);
      leaves, issues := leaves + more, issues + faults;
    }
  }

  lemma NoneSeen(spec: Spec, n: Notification)
    ensures Seen(spec, n, |n.updates|, {})
  {
  }

  // --- Second stage: claiming leaves and identities ---

  /** The first leaf in the scan's order at its path: it owns the path, whatever
      its value turns out to be. */
  predicate Claimed(leaves: seq<LeafUpdate>, k: nat)
    requires k < |leaves|
  {
    forall j | 0 <= j < k :: leaves[j].path != leaves[k].path
  }

  /** What a claimed leaf comes to. */
  function Outcome(spec: Spec, leaves: seq<LeafUpdate>, k: nat): Option<Converted>
    requires k < |leaves|
  {
    if Claimed(leaves, k) && spec.mapped(leaves[k].path)
    then Some(spec.convert(leaves[k].path, leaves[k].value))
    else None
  }

  /** The identity a claimed leaf projects to, if it projects to one. */
  function IdAt(spec: Spec, leaves: seq<LeafUpdate>, k: nat): Option<Identity>
    requires k < |leaves|
  {
    match Outcome(spec, leaves, k)
    case Some(Projected(o)) => Some(IdentityOf(o))
    case _ => None
  }

  function Ids(spec: Spec, leaves: seq<LeafUpdate>, n: nat): (ids: seq<Option<Identity>>)
    requires n <= |leaves|
    ensures |ids| == n
  {
    if n == 0 then [] else Ids(spec, leaves, n - 1) + [IdAt(spec, leaves, n - 1)]
  }

  lemma {:induction false} IdsAt(spec: Spec, leaves: seq<LeafUpdate>, n: nat, k: nat)
    requires k < n <= |leaves|
    ensures Ids(spec, leaves, n)[k] == IdAt(spec, leaves, k)
  {
    if k < n - 1 {
      IdsAt(spec, leaves, n - 1, k);
    }
  }

  /** Exactly one leaf projects to the identity: the `k`th. */
  predicate Alone(ids: seq<Option<Identity>>, k: nat, id: Identity) {
    && k < |ids| && ids[k] == Some(id)
    && forall j | 0 <= j < |ids| && j != k :: ids[j] != Some(id)
  }

  /** Another leaf projects to the `k`th leaf's identity. */
  predicate Shared(ids: seq<Option<Identity>>, k: nat) {
    && k < |ids| && ids[k].Some?
    && exists j :: 0 <= j < |ids| && j != k && ids[j] == ids[k]
  }

  predicate Repeated(ids: seq<Option<Identity>>, id: Identity) {
    exists i, j :: 0 <= i < j < |ids| && ids[i] == Some(id) && ids[j] == Some(id)
  }

  /** The issue a claimed leaf raises by itself. */
  function LeafIssue(spec: Spec, leaves: seq<LeafUpdate>, k: nat): seq<Issue>
    requires k < |leaves|
  {
    var l := leaves[k];
    if !Claimed(leaves, k) then []
    else if !spec.mapped(l.path) then [Issue(l.index, l.pointer, Unmapped)]
    else match spec.convert(l.path, l.value)
      case BadSubject => [Issue(l.index, l.pointer, Subjectless)]
      case BadValue => [Issue(l.index, l.pointer, Mismatch)]
      case _ => []
  }

  function LeafIssues(spec: Spec, leaves: seq<LeafUpdate>, n: nat): seq<Issue>
    requires n <= |leaves|
  {
    if n == 0 then [] else LeafIssues(spec, leaves, n - 1) + LeafIssue(spec, leaves, n - 1)
  }

  predicate Within(hit: seq<nat>, n: nat) {
    forall i | 0 <= i < |hit| :: hit[i] < n
  }

  function CollisionIssues(leaves: seq<LeafUpdate>, hit: seq<nat>): seq<Issue>
    requires Within(hit, |leaves|)
  {
    if hit == [] then []
    else
      var k := hit[|hit| - 1];
      CollisionIssues(leaves, hit[..|hit| - 1]) + [Issue(leaves[k].index, leaves[k].pointer, Collided)]
  }

  predicate NoRepeats(hit: seq<nat>) {
    forall i, j | 0 <= i < j < |hit| :: hit[i] != hit[j]
  }

  /** A candidate is an identity's only leaf, or the mark that it had several. */
  type Candidates = map<Identity, Option<nat>>

  ghost predicate Tracks(ids: seq<Option<Identity>>, candidates: Candidates) {
    && (forall id :: id in candidates <==> Some(id) in ids)
    && (forall id | id in candidates && candidates[id].Some? :: Alone(ids, candidates[id].value, id))
    && (forall id | id in candidates && candidates[id].None? :: Repeated(ids, id))
  }

  /** `hit` lists each colliding leaf once. */
  ghost predicate Hits(ids: seq<Option<Identity>>, hit: seq<nat>) {
    NoRepeats(hit) && forall k: nat :: k in hit <==> Shared(ids, k)
  }

  lemma SharedStays(ids: seq<Option<Identity>>, next: Option<Identity>)
    ensures forall k: nat | Shared(ids, k) :: Shared(ids + [next], k)
    ensures forall k: nat | Shared(ids + [next], k) && !Shared(ids, k) :: next.Some? && (ids + [next])[k] == next
    ensures forall id | Repeated(ids, id) :: Repeated(ids + [next], id)
  {
    var after := ids + [next];
    assert forall j | 0 <= j < |ids| :: after[j] == ids[j];
    forall id | Repeated(ids, id) ensures Repeated(after, id) {
      var i, j :| 0 <= i < j < |ids| && ids[i] == Some(id) && ids[j] == Some(id);
      assert after[i] == Some(id) && after[j] == Some(id);
    }
  }

  lemma QuietLeaf(ids: seq<Option<Identity>>, candidates: Candidates, hit: seq<nat>)
    requires Tracks(ids, candidates) && Hits(ids, hit)
    ensures Tracks(ids + [None], candidates) && Hits(ids + [None], hit)
  {
    SharedStays(ids, None);
  }

  lemma FirstAlone(ids: seq<Option<Identity>>, id: Identity)
    requires Some(id) !in ids
    ensures Alone(ids + [Some(id)], |ids|, id)
    ensures forall k: nat :: Shared(ids + [Some(id)], k) <==> Shared(ids, k)
  {
    var after := ids + [Some(id)];
    assert after[|ids|] == Some(id);
    assert forall j | 0 <= j < |ids| :: ids[j] != Some(id) && after[j] == ids[j];
  }

  lemma AloneStays(ids: seq<Option<Identity>>, k: nat, id: Identity, next: Identity)
    requires Alone(ids, k, id) && id != next
    ensures Alone(ids + [Some(next)], k, id)
  {
    var after := ids + [Some(next)];
    assert forall j | 0 <= j < |ids| :: after[j] == ids[j];
  }

  lemma AgainRepeated(ids: seq<Option<Identity>>, id: Identity)
    requires Some(id) in ids
    ensures Repeated(ids + [Some(id)], id)
  {
    var after := ids + [Some(id)];
    var i :| 0 <= i < |ids| && ids[i] == Some(id);
    assert after[i] == Some(id) && after[|ids|] == Some(id);
  }

  lemma RepeatedStays(ids: seq<Option<Identity>>, id: Identity, next: Identity)
    requires Repeated(ids, id)
    ensures Repeated(ids + [Some(next)], id)
  {
    SharedStays(ids, Some(next));
  }

  lemma FreshIdentity(ids: seq<Option<Identity>>, candidates: Candidates, hit: seq<nat>, id: Identity)
    requires Tracks(ids, candidates) && Hits(ids, hit) && id !in candidates
    ensures Tracks(ids + [Some(id)], candidates[id := Some(|ids|)]) && Hits(ids + [Some(id)], hit)
  {
    FirstAlone(ids, id);
    var after, claimed := ids + [Some(id)], candidates[id := Some(|ids|)];
    hide Repeated, Alone, Shared, NoRepeats;
    assert forall x :: x in after <==> x in ids || x == Some(id);
    assert forall other :: other in claimed <==> other in candidates || other == id;
    forall other | other in claimed && claimed[other].Some?
      ensures Alone(after, claimed[other].value, other)
    {
      if other != id {
        AloneStays(ids, candidates[other].value, other, id);
      }
    }
    forall other | other in claimed && claimed[other].None?
      ensures Repeated(after, other)
    {
      RepeatedStays(ids, other, id);
    }
  }

  lemma Poisoned(ids: seq<Option<Identity>>, candidates: Candidates, id: Identity)
    requires Tracks(ids, candidates) && id in candidates
    ensures Tracks(ids + [Some(id)], candidates[id := None])
  {
    AgainRepeated(ids, id);
    var after, marked := ids + [Some(id)], candidates[id := None];
    hide Repeated, Alone;
    assert forall x :: x in after <==> x in ids || x == Some(id);
    assert forall other :: other in marked <==> other in candidates;
    forall other | other in marked && marked[other].Some?
      ensures Alone(after, marked[other].value, other)
    {
      AloneStays(ids, candidates[other].value, other, id);
    }
    forall other | other in marked && marked[other].None?
      ensures Repeated(after, other)
    {
      if other != id {
        RepeatedStays(ids, other, id);
      }
    }
  }

  lemma SecondLeaf(ids: seq<Option<Identity>>, hit: seq<nat>, id: Identity, first: nat)
    requires Hits(ids, hit) && Alone(ids, first, id)
    ensures Hits(ids + [Some(id)], hit + [first] + [|ids|])
  {
    SharedStays(ids, Some(id));
    var after := ids + [Some(id)];
    assert after[first] == after[|ids|] == Some(id);
    assert Shared(after, first) && Shared(after, |ids|) && !Shared(ids, first);
    assert forall j | 0 <= j < |ids| && after[j] == Some(id) :: j == first;
    hide Shared, Alone, Repeated;
    assert forall k :: k in hit + [first] + [|ids|] <==> k in hit || k == first || k == |ids|;
    assert first !in hit && |ids| !in hit by { NotPastEnd(ids); }
  }

  lemma NotPastEnd(ids: seq<Option<Identity>>)
    ensures !Shared(ids, |ids|)
  {
  }

  lemma LaterLeaf(ids: seq<Option<Identity>>, hit: seq<nat>, id: Identity)
    requires Hits(ids, hit) && Repeated(ids, id)
    ensures Hits(ids + [Some(id)], hit + [|ids|])
  {
    NotPastEnd(ids);
    forall k: nat ensures Shared(ids + [Some(id)], k) <==> Shared(ids, k) || k == |ids| { LaterShared(ids, id, k); }
    hide Shared, Repeated;
  }

  lemma LaterShared(ids: seq<Option<Identity>>, id: Identity, k: nat)
    requires Repeated(ids, id)
    ensures Shared(ids + [Some(id)], k) <==> Shared(ids, k) || k == |ids|
  {
    var after := ids + [Some(id)];
    var a, b :| 0 <= a < b < |ids| && ids[a] == Some(id) && ids[b] == Some(id);
    if k == |ids| {
      assert after[a] == after[k];
    } else if k < |ids| && Shared(ids, k) {
      var j :| 0 <= j < |ids| && j != k && ids[j] == ids[k];
      assert after[j] == after[k];
    }
  }

  lemma SeenExtends(leaves: seq<LeafUpdate>, n: nat, seen: set<Path>)
    requires n < |leaves| && seen == set j | 0 <= j < n :: leaves[j].path
    ensures leaves[n].path in seen <==> !Claimed(leaves, n)
    ensures seen + {leaves[n].path} == set j | 0 <= j < n + 1 :: leaves[j].path
    ensures leaves[n].path in seen ==> seen == set j | 0 <= j < n + 1 :: leaves[j].path
  {
  }

  /** What the first `n` leaves have come to. */
  ghost predicate Claiming(spec: Spec, leaves: seq<LeafUpdate>, n: nat, candidates: Candidates, issues: seq<Issue>,
      hit: seq<nat>) {
    && n <= |leaves| && NoneFails(spec, leaves, n)
    && Tracks(Ids(spec, leaves, n), candidates) && Hits(Ids(spec, leaves, n), hit)
    && Within(hit, |leaves|) && Accounted(spec, leaves, n, issues, hit)
  }

  predicate NoneFails(spec: Spec, leaves: seq<LeafUpdate>, n: nat)
    requires n <= |leaves|
  {
    forall k: nat | k < n :: Outcome(spec, leaves, k) != Some(ModelError)
  }

  /** One issue per leaf that raises one by itself, one per colliding leaf. */
  ghost predicate Accounted(spec: Spec, leaves: seq<LeafUpdate>, n: nat, issues: seq<Issue>, hit: seq<nat>)
    requires n <= |leaves| && Within(hit, |leaves|)
  {
    multiset(issues) == multiset(LeafIssues(spec, leaves, n)) + multiset(CollisionIssues(leaves, hit))
  }

  lemma AccountOne(spec: Spec, leaves: seq<LeafUpdate>, n: nat, issues: seq<Issue>, hit: seq<nat>,
      collided: seq<Issue>, more: seq<nat>)
    requires n < |leaves| && Within(hit, |leaves|) && Within(more, |leaves|) && Accounted(spec, leaves, n, issues, hit)
    requires CollisionIssues(leaves, more) == CollisionIssues(leaves, hit) + collided
    ensures Accounted(spec, leaves, n + 1, issues + (LeafIssue(spec, leaves, n) + collided), more)
  {
    hide CollisionIssues, LeafIssue;
    assert LeafIssues(spec, leaves, n + 1) == LeafIssues(spec, leaves, n) + LeafIssue(spec, leaves, n);
    hide LeafIssues;
  }

  /** One leaf more: its identity if it has one, its own issue, and the issues of
      the collisions it makes. */
  lemma ClaimStep(spec: Spec, leaves: seq<LeafUpdate>, n: nat, was: Candidates, issues: seq<Issue>, hit: seq<nat>,
                  candidates: Candidates, collided: seq<Issue>, more: seq<nat>)
    requires Claiming(spec, leaves, n, was, issues, hit) && n < |leaves| && Outcome(spec, leaves, n) != Some(ModelError)
    requires Tracks(Ids(spec, leaves, n + 1), candidates) && Hits(Ids(spec, leaves, n + 1), more)
             && Within(more, |leaves|)
    requires CollisionIssues(leaves, more) == CollisionIssues(leaves, hit) + collided
    ensures Claiming(spec, leaves, n + 1, candidates, issues + (LeafIssue(spec, leaves, n) + collided), more)
  {
    hide Ids, Tracks, Hits, Within, LeafIssue, LeafIssues, CollisionIssues, Outcome;
    AccountOne(spec, leaves, n, issues, hit, collided, more);
    assert NoneFails(spec, leaves, n + 1);
  }

  /** A leaf that projects to nothing adds its own issue and no more. */
  lemma QuietStep(spec: Spec, leaves: seq<LeafUpdate>, n: nat, candidates: Candidates, issues: seq<Issue>,
      hit: seq<nat>)
    requires Claiming(spec, leaves, n, candidates, issues, hit) && n < |leaves|
    requires IdAt(spec, leaves, n) == None && Outcome(spec, leaves, n) != Some(ModelError)
    ensures Claiming(spec, leaves, n + 1, candidates, issues + LeafIssue(spec, leaves, n), hit)
  {
    hide IdAt, Outcome, Tracks, Hits, Within, LeafIssue, CollisionIssues, NoneFails, Accounted;
    QuietLeaf(Ids(spec, leaves, n), candidates, hit);
    assert Ids(spec, leaves, n + 1) == Ids(spec, leaves, n) + [None];
    assert CollisionIssues(leaves, hit) + [] == CollisionIssues(leaves, hit);
    ClaimStep(spec, leaves, n, candidates, issues, hit, candidates, [], hit);
    assert LeafIssue(spec, leaves, n) + [] == LeafIssue(spec, leaves, n);
  }

  lemma ProjectedIsQuiet(spec: Spec, leaves: seq<LeafUpdate>, n: nat)
    requires n < |leaves| && IdAt(spec, leaves, n).Some?
    ensures LeafIssue(spec, leaves, n) == [] && Outcome(spec, leaves, n) != Some(ModelError)
  {
  }

  lemma ProjectedStep(spec: Spec, leaves: seq<LeafUpdate>, n: nat, was: Candidates, issues: seq<Issue>, hit: seq<nat>,
                      id: Identity, candidates: Candidates, collided: seq<Issue>, more: seq<nat>)
    requires Claiming(spec, leaves, n, was, issues, hit) && n < |leaves| && IdAt(spec, leaves, n) == Some(id)
    requires Tracks(Ids(spec, leaves, n) + [Some(id)], candidates) && Hits(Ids(spec, leaves, n) + [Some(id)], more)
    requires Within(more, |leaves|) && CollisionIssues(leaves, more) == CollisionIssues(leaves, hit) + collided
    ensures Claiming(spec, leaves, n + 1, candidates, issues + collided, more)
  {
    hide IdAt, Outcome, Tracks, Hits, Within, LeafIssue, CollisionIssues, Claiming;
    ProjectedIsQuiet(spec, leaves, n);
    assert Ids(spec, leaves, n + 1) == Ids(spec, leaves, n) + [Some(id)];
    ClaimStep(spec, leaves, n, was, issues, hit, candidates, collided, more);
    assert [] + collided == collided;
  }

  lemma StartClaiming(spec: Spec, leaves: seq<LeafUpdate>)
    ensures Claiming(spec, leaves, 0, map[], [], [])
  {
  }

  /** The claiming loop: identities tracked with their only leaf or poisoned, each
      leaf's own issue, and one issue per colliding leaf. */
  method ClaimLeaves(spec: Spec, leaves: seq<LeafUpdate>)
    returns (failed: bool, candidates: Candidates, issues: seq<Issue>, ghost hit: seq<nat>)
    ensures failed ==> exists k: nat :: k < |leaves| && Outcome(spec, leaves, k) == Some(ModelError)
    ensures !failed ==> Claiming(spec, leaves, |leaves|, candidates, issues, hit)
  {
    hide Claiming, Tracks, Hits, CollisionIssues, Ids, Claimed;
    failed, candidates, issues, hit := false, map[], [], [];
    var seen: set<Path> := {};
    StartClaiming(spec, leaves);
    for n := 0 to |leaves|
      invariant !failed && seen == set j | 0 <= j < n :: leaves[j].path
      invariant Claiming(spec, leaves, n, candidates, issues, hit)
    {
      var l := leaves[n];
      SeenExtends(leaves, n, seen);
      if l.path in seen {
        QuietStep(spec, leaves, n, candidates, issues, hit);
        assert issues + [] == issues;
        continue;
      }
      seen := seen + {l.path};
      if !spec.mapped(l.path) {
        QuietStep(spec, leaves, n, candidates, issues, hit);
        issues := issues + [Issue(l.index, l.pointer, Unmapped)];
        continue;
      }
      match spec.convert(l.path, l.value) {
        case ModelError =>
          assert Outcome(spec, leaves, n) == Some(ModelError);
          failed := true;
          return;
        case BadSubject =>
          QuietStep(spec, leaves, n, candidates, issues, hit);
          issues := issues + [Issue(l.index, l.pointer, Subjectless)];
        case BadValue =>
          QuietStep(spec, leaves, n, candidates, issues, hit);
          issues := issues + [Issue(l.index, l.pointer, Mismatch)];
        case Projected(o) =>
          var collided;
          candidates, collided, hit := ClaimIdentity(spec, leaves, n, IdentityOf(o), candidates, issues, hit);
          issues := issues + collided;
      }
    }
  }

  /** One entry of the candidate map: vacant, held, or already poisoned. */
  method ClaimIdentity(spec: Spec, leaves: seq<LeafUpdate>, n: nat, id: Identity, before: Candidates,
                       ghost already: seq<Issue>, ghost hit: seq<nat>)
    returns (candidates: Candidates, issues: seq<Issue>, ghost more: seq<nat>)
    requires n < |leaves| && IdAt(spec, leaves, n) == Some(id)
    requires Claiming(spec, leaves, n, before, already, hit)
    ensures Claiming(spec, leaves, n + 1, candidates, already + issues, more)
  {
    Apart(spec, leaves, n, before, already, hit);
    hide Claiming, IdAt;
    if id !in before {
      FreshStep(spec, leaves, n, id, before, already, hit);
      return before[id := Some(n)], [], hit;
    }
    candidates := before[id := None];
    var collided := Issue(leaves[n].index, leaves[n].pointer, Collided);
    if before[id].Some? {
      var first := before[id].value;
      SecondStep(spec, leaves, n, id, before, already, hit);
      issues := [Issue(leaves[first].index, leaves[first].pointer, Collided), collided];
      more := hit + [first] + [n];
    } else {
      LaterStep(spec, leaves, n, id, before, already, hit);
      issues := [collided];
      more := hit + [n];
    }
  }

  lemma FreshStep(spec: Spec, leaves: seq<LeafUpdate>, n: nat, id: Identity, before: Candidates, already: seq<Issue>,
      hit: seq<nat>)
    requires n < |leaves| && IdAt(spec, leaves, n) == Some(id)
    requires Claiming(spec, leaves, n, before, already, hit) && id !in before
    ensures Claiming(spec, leaves, n + 1, before[id := Some(n)], already + [], hit)
  {
    FreshIdentity(Ids(spec, leaves, n), before, hit, id);
    assert CollisionIssues(leaves, hit) + [] == CollisionIssues(leaves, hit);
    hide IdAt, Ids, Outcome, Tracks, Hits, Within, CollisionIssues, LeafIssues, Claimed, Accounted;
    ProjectedStep(spec, leaves, n, before, already, hit, id, before[id := Some(n)], [], hit);
  }

  lemma OnlyHolder(ids: seq<Option<Identity>>, candidates: Candidates, id: Identity)
    requires Tracks(ids, candidates) && id in candidates && candidates[id].Some?
    ensures candidates[id].value < |ids| && Alone(ids, candidates[id].value, id)
  {
  }

  lemma SecondStep(spec: Spec, leaves: seq<LeafUpdate>, n: nat, id: Identity, before: Candidates, already: seq<Issue>,
      hit: seq<nat>)
    requires n < |leaves| && IdAt(spec, leaves, n) == Some(id)
    requires Claiming(spec, leaves, n, before, already, hit) && id in before && before[id].Some?
    ensures before[id].value < n
    ensures var first := before[id].value;
            Claiming(spec, leaves, n + 1, before[id := None],
                     already + [Issue(leaves[first].index, leaves[first].pointer, Collided),
                                Issue(leaves[n].index, leaves[n].pointer, Collided)],
                     hit + [first] + [n])
  {
    var first := before[id].value;
    hide IdAt, Ids, Outcome, Tracks, Hits, CollisionIssues, LeafIssues, Claimed, Accounted, Alone;
    OnlyHolder(Ids(spec, leaves, n), before, id);
    SecondLeaf(Ids(spec, leaves, n), hit, id, first);
    Poisoned(Ids(spec, leaves, n), before, id);
    OneMoreHit(leaves, hit, first);
    OneMoreHit(leaves, hit + [first], n);
    hide Within;
    ProjectedStep(spec, leaves, n, before, already, hit, id, before[id := None],
                  [Issue(leaves[first].index, leaves[first].pointer, Collided),
                   Issue(leaves[n].index, leaves[n].pointer, Collided)],
                  hit + [first] + [n]);
  }

  lemma LaterStep(spec: Spec, leaves: seq<LeafUpdate>, n: nat, id: Identity, before: Candidates, already: seq<Issue>,
      hit: seq<nat>)
    requires n < |leaves| && IdAt(spec, leaves, n) == Some(id)
    requires Claiming(spec, leaves, n, before, already, hit) && id in before && before[id].None?
    ensures Claiming(spec, leaves, n + 1, before[id := None],
                     already + [Issue(leaves[n].index, leaves[n].pointer, Collided)], hit + [n])
  {
    LaterLeaf(Ids(spec, leaves, n), hit, id);
    Poisoned(Ids(spec, leaves, n), before, id);
    OneMoreHit(leaves, hit, n);
    hide IdAt, Ids, Outcome, Tracks, Hits, Within, CollisionIssues, LeafIssues, Claimed, Accounted;
    ProjectedStep(spec, leaves, n, before, already, hit, id, before[id := None],
                  [Issue(leaves[n].index, leaves[n].pointer, Collided)], hit + [n]);
  }

  lemma Apart(spec: Spec, leaves: seq<LeafUpdate>, n: nat, candidates: Candidates, issues: seq<Issue>, hit: seq<nat>)
    requires Claiming(spec, leaves, n, candidates, issues, hit)
    ensures forall id | id in candidates && candidates[id].Some? :: candidates[id].value < n
  {
  }

  lemma OneMoreHit(leaves: seq<LeafUpdate>, hit: seq<nat>, k: nat)
    requires k < |leaves| && Within(hit, |leaves|)
    ensures Within(hit + [k], |leaves|)
    ensures CollisionIssues(leaves, hit + [k]) ==
            CollisionIssues(leaves, hit) + [Issue(leaves[k].index, leaves[k].pointer, Collided)]
  {
    assert (hit + [k])[..|hit|] == hit;
  }

  // --- Ownership: the highest-index kept update at a leaf path claims it ---

  /** The leaves update `u` brings, if it is kept. */
  function UpdateLeaves(spec: Spec, n: Notification, u: nat): seq<LeafUpdate>
    requires u < |n.updates|
  {
    if Kept(spec, n, u) then LeavesOf(spec, PathAt(spec, n, u).path, n.updates[u].val, u) else []
  }

  lemma {:induction false} LeavesIndexed(spec: Spec, n: Notification, i: nat)
    requires i <= |n.updates|
    ensures forall k | 0 <= k < |LeavesFrom(spec, n, i)| ::
              var l := LeavesFrom(spec, n, i)[k];
              i <= l.index < |n.updates| && l in UpdateLeaves(spec, n, l.index)
    ensures forall j, k | 0 <= j < k < |LeavesFrom(spec, n, i)| ::
              LeavesFrom(spec, n, i)[k].index <= LeavesFrom(spec, n, i)[j].index
    decreases |n.updates| - i
  {
    if i == |n.updates| {
      assert LeavesFrom(spec, n, i) == [];
    } else {
      hide UpdateLeaves, LeavesFrom;
      LeavesIndexed(spec, n, i + 1);
      UpdateLeavesIndex(spec, n, i);
      LeavesFromStep(spec, n, i);
    }
  }

  lemma LeavesFromStep(spec: Spec, n: Notification, i: nat)
    requires i < |n.updates|
    ensures LeavesFrom(spec, n, i) == LeavesFrom(spec, n, i + 1) + UpdateLeaves(spec, n, i)
  {
    hide Kept, LeavesOf;
  }

  lemma {:induction false} ExpandedIndex(es: seq<Expanded>, index: nat)
    ensures forall l | l in ExpandedLeaves(es, index) :: l.index == index
  {
    if es != [] {
      ExpandedIndex(es[1..], index);
    }
  }

  lemma UpdateLeavesIndex(spec: Spec, n: Notification, u: nat)
    requires u < |n.updates|
    ensures forall l | l in UpdateLeaves(spec, n, u) :: l.index == u
  {
    var v := n.updates[u].val;
    if Kept(spec, n, u) && IsObject(v) {
      ExpandedIndex(spec.expand(PathAt(spec, n, u).path, v.value.bytes, v.value.ietf), u);
    }
  }

  lemma {:induction false} LeavesComplete(spec: Spec, n: Notification, i: nat, u: nat)
    requires i <= u < |n.updates|
    ensures forall l | l in UpdateLeaves(spec, n, u) :: l in LeavesFrom(spec, n, i)
    decreases u - i
  {
    hide UpdateLeaves, LeavesFrom;
    LeavesFromStep(spec, n, i);
    if i < u {
      LeavesComplete(spec, n, i + 1, u);
    }
  }

  /** A claimed leaf belongs to the latest kept update that has a leaf at its
      path. */
  lemma LatestUpdateOwns(spec: Spec, n: Notification, k: nat, l: LeafUpdate, u: nat)
    requires k < |LeavesFrom(spec, n, 0)| && Claimed(LeavesFrom(spec, n, 0), k)
    requires u < |n.updates| && l in UpdateLeaves(spec, n, u) && l.path == LeavesFrom(spec, n, 0)[k].path
    ensures u <= LeavesFrom(spec, n, 0)[k].index < |n.updates|
    ensures LeavesFrom(spec, n, 0)[k] in UpdateLeaves(spec, n, LeavesFrom(spec, n, 0)[k].index)
  {
    hide UpdateLeaves, LeavesFrom;
    var leaves := LeavesFrom(spec, n, 0);
    UpdateLeavesIndex(spec, n, u);
    LeavesComplete(spec, n, 0, u);
    LeavesIndexed(spec, n, 0);
    var j :| 0 <= j < |leaves| && leaves[j] == l;
    assert j >= k;
  }

  // --- Payloads ---

  const STATES_LIMIT := 65536

  datatype Payload = Readings(descriptors: seq<Descriptor>, samples: seq<Sample>) | States(states: seq<Observation>)

  /** The contract's checks on a built payload: for readings the bounds, the
      uniqueness scan and key resolution by binary search over the sorted
      descriptors; for states the bound and the series rule. */
  ghost predicate Builds(p: Payload) {
    match p
    case Readings(descriptors, samples) => B.Passes(descriptors, samples)
    case States(states) => |states| <= STATES_LIMIT && R.SeriesOk(StateObsOf(states))
  }

  function StateObsOf(states: seq<Observation>): (r: seq<R.StateObs>)
    ensures |r| == |states|
    ensures forall i | 0 <= i < |states| && states[i].State? :: r[i] == states[i].obs
  {
    seq(|states|, i requires 0 <= i < |states| =>
      if states[i].State? then states[i].obs else R.StateObs(Subject([], [], []), None, [], None))
  }

  function ReadingSamples(os: seq<Observation>): seq<Sample> {
    if os == [] then []
    else ReadingSamples(os[..|os| - 1]) + if os[|os| - 1].Reading? then [os[|os| - 1].sample] else []
  }

  function OnlyStates(os: seq<Observation>): seq<Observation> {
    if os == [] then []
    else OnlyStates(os[..|os| - 1]) + if os[|os| - 1].State? then [os[|os| - 1]] else []
  }

  function AllSamples(ps: seq<Payload>): seq<Sample> {
    if ps == [] then []
    else AllSamples(ps[..|ps| - 1]) + if ps[|ps| - 1].Readings? then ps[|ps| - 1].samples else []
  }

  function AllStates(ps: seq<Payload>): seq<Observation> {
    if ps == [] then []
    else AllStates(ps[..|ps| - 1]) + if ps[|ps| - 1].States? then ps[|ps| - 1].states else []
  }

  predicate Distinct(os: seq<Observation>) {
    forall i, j | 0 <= i < j < |os| :: IdentityOf(os[i]) != IdentityOf(os[j])
  }

  /** Every payload is within its bound, passes the contract's checks, is not
      empty, and describes exactly its samples' signals by the observations' own
      descriptors. */
  ghost predicate GoodPayload(os: seq<Observation>, p: Payload) {
    && Builds(p)
    && (p.Readings? ==>
          && p.samples != [] && B.KeysDistinct(p.descriptors)
          && forall i | 0 <= i < |p.descriptors| ::
               Sampled(p.descriptors[i], p.samples) && Observed(p.descriptors[i], os))
    && (p.States? ==> p.states != [])
  }

  predicate Sampled(d: Descriptor, samples: seq<Sample>) { exists i | 0 <= i < |samples| :: samples[i].key == d.key }

  predicate Observed(d: Descriptor, os: seq<Observation>) {
    exists i | 0 <= i < |os| :: os[i].Reading? && os[i].descriptor == d
  }

  /** A readings chunk in the making: every sample described, by descriptors of the
      observations themselves and of nothing else. */
  ghost predicate ReadingsChunk(os: seq<Observation>, descriptors: map<SignalKey, Descriptor>, samples: seq<Sample>) {
    && (forall k | k in descriptors :: DescriptorOk(os, k, descriptors[k], samples))
    && (forall i | 0 <= i < |samples| :: samples[i].key in descriptors && B.Measured(samples[i]))
    && |descriptors| <= |samples| <= B.READINGS_LIMIT
  }

  predicate DescriptorOk(os: seq<Observation>, k: SignalKey, d: Descriptor, samples: seq<Sample>) {
    d.key == k && B.Described(d) && Sampled(d, samples) && Observed(d, os)
  }

  ghost predicate StatesChunk(os: seq<Observation>, states: seq<Observation>) {
    && (forall s | s in states :: s.State? && s in os)
    && Distinct(states) && |states| <= STATES_LIMIT
  }

  lemma {:induction false} DistinctStatesOk(states: seq<Observation>)
    requires Distinct(states) && forall s | s in states :: s.State?
    ensures R.SeriesOk(StateObsOf(states))
  {
    var obs := StateObsOf(states);
    forall i, j | 0 <= i < j < |obs| ensures obs[i].Id() != obs[j].Id() {
      assert states[i] in states && states[j] in states;
      assert IdentityOf(states[i]) != IdentityOf(states[j]);
    }
  }

  lemma {:induction false} ReadingJoins(os: seq<Observation>, descriptors: map<SignalKey, Descriptor>,
                                        samples: seq<Sample>, i: nat)
    requires ReadingsChunk(os, descriptors, samples) && |samples| < B.READINGS_LIMIT
    requires i < |os| && os[i].Reading? && Coherent(os[i])
    ensures var o := os[i];
            ReadingsChunk(os, descriptors[o.descriptor.key := o.descriptor], samples + [o.sample])
  {
    hide B.Described, B.Measured;
    var o := os[i];
    var (d, s) := (descriptors[o.descriptor.key := o.descriptor], samples + [o.sample]);
    assert d.Keys == descriptors.Keys + {o.descriptor.key};
    assert |d.Keys| <= |descriptors.Keys| + 1;
    assert s[|samples|] == o.sample;
    forall k | k in descriptors ensures Sampled(descriptors[k], s) {
      assert DescriptorOk(os, k, descriptors[k], samples);
      var j: nat :| j < |samples| && samples[j].key == descriptors[k].key;
      assert s[j] == samples[j];
    }
    forall k | k in d ensures DescriptorOk(os, k, d[k], s) {
      if k == o.descriptor.key {
        assert Sampled(o.descriptor, s) && Observed(o.descriptor, os);
      } else {
        assert DescriptorOk(os, k, descriptors[k], samples);
      }
    }
  }

  lemma StateJoins(os: seq<Observation>, i: nat, states: seq<Observation>)
    requires i < |os| && Distinct(os) && os[i].State? && StatesChunk(os[..i], states) && |states| < STATES_LIMIT
    ensures StatesChunk(os[..i + 1], states + [os[i]])
  {
    assert os[..i + 1] == os[..i] + [os[i]];
    forall s | s in states ensures IdentityOf(s) != IdentityOf(os[i]) {
      var j :| 0 <= j < i && os[..i][j] == s;
    }
    var all := states + [os[i]];
    forall a, b | 0 <= a < b < |all| ensures IdentityOf(all[a]) != IdentityOf(all[b]) {
      if b == |states| {
        assert states[a] in states;
      }
    }
  }

  lemma StatesWait(os: seq<Observation>, i: nat, states: seq<Observation>)
    requires i < |os| && StatesChunk(os[..i], states)
    ensures StatesChunk(os[..i + 1], states)
  {
    assert os[..i + 1] == os[..i] + [os[i]];
  }

  /** The map's values, in the map's own order. */
  method Values(descriptors: map<SignalKey, Descriptor>) returns (ds: seq<Descriptor>)
    requires forall k | k in descriptors :: descriptors[k].key == k
    ensures |ds| == |descriptors| && B.KeysDistinct(ds)
    ensures forall i | 0 <= i < |ds| :: ds[i].key in descriptors && descriptors[ds[i].key] == ds[i]
    ensures forall k | k in descriptors :: B.Resolved(ds, k)
  {
    ds := [];
    var rest := descriptors.Keys;
    while rest != {}
      invariant rest <= descriptors.Keys && |ds| + |rest| == |descriptors| && B.KeysDistinct(ds)
      invariant forall i | 0 <= i < |ds| ::
                  ds[i].key in descriptors && ds[i].key !in rest && descriptors[ds[i].key] == ds[i]
      invariant forall k | k in descriptors && k !in rest :: B.Resolved(ds, k)
      decreases |rest|
    {
      var k :| k in rest;
      ghost var before := ds;
      ds := ds + [descriptors[k]];
      rest := rest - {k};
      forall j | j in descriptors && j !in rest ensures B.Resolved(ds, j) {
        if j == k {
          assert ds[|before|].key == j;
        } else {
          var i: nat :| i < |before| && before[i].key == j;
          assert ds[i] == before[i];
        }
      }
    }
  }

  lemma {:induction false} ChunkBuilds(os: seq<Observation>, descriptors: map<SignalKey, Descriptor>,
                                       samples: seq<Sample>, ds: seq<Descriptor>)
    requires ReadingsChunk(os, descriptors, samples) && samples != []
    requires |ds| == |descriptors| && B.KeysDistinct(ds)
    requires forall i | 0 <= i < |ds| :: ds[i].key in descriptors && descriptors[ds[i].key] == ds[i]
    requires forall k | k in descriptors :: B.Resolved(ds, k)
    ensures GoodPayload(os, Readings(ds, samples))
  {
    B.PassesExactly(ds, samples);
    hide B.Passes, B.Resolved, B.KeysDistinct, B.Described, B.Measured;
    forall i | 0 <= i < |ds| ensures Sampled(ds[i], samples) && Observed(ds[i], os) {
      assert DescriptorOk(os, ds[i].key, descriptors[ds[i].key], samples);
    }
  }

  /** `payload`: the builder's verdict on a chunk, which is never a refusal. */
  method BuildReadings(ghost os: seq<Observation>, descriptors: map<SignalKey, Descriptor>, samples: seq<Sample>)
    returns (p: Option<Payload>)
    requires ReadingsChunk(os, descriptors, samples) && samples != []
    ensures p.Some? && p.value.Readings? && p.value.samples == samples && GoodPayload(os, p.value)
  {
    forall k | k in descriptors ensures DescriptorOk(os, k, descriptors[k], samples) { }
    hide B.Described, B.Measured, B.Passes;
    var ds := Values(descriptors);
    ChunkBuilds(os, descriptors, samples, ds);
    hide GoodPayload;
    forall i | 0 <= i < |ds| ensures B.Described(ds[i]) { assert DescriptorOk(os, ds[i].key, ds[i], samples); }
    var verdict := B.Check(ds, samples);
    assert verdict == B.Passed by {
      PayloadPasses(os, ds, samples);
      B.OneVerdict(ds, samples, verdict, B.Passed);
    }
    p := if verdict.Passed? then Some(Readings(ds, samples)) else None;
  }

  lemma PayloadPasses(os: seq<Observation>, ds: seq<Descriptor>, samples: seq<Sample>)
    requires GoodPayload(os, Readings(ds, samples))
    ensures B.Passes(ds, samples)
  {
  }

  /** `state_payload`: the builder's verdict on a chunk of states. */
  method BuildStates(ghost os: seq<Observation>, ghost i: nat, states: seq<Observation>) returns (p: Option<Payload>)
    requires i <= |os| && StatesChunk(os[..i], states) && states != []
    ensures p == Some(States(states)) && GoodPayload(os, States(states))
  {
    StatesBuild(os, i, states);
    var fault := R.CheckStates(StateObsOf(states));
    p := if |states| <= STATES_LIMIT && fault == None then Some(States(states)) else None;
  }

  lemma StatesBuild(os: seq<Observation>, i: nat, states: seq<Observation>)
    requires i <= |os| && StatesChunk(os[..i], states) && states != []
    ensures GoodPayload(os, States(states))
  {
    DistinctStatesOk(states);
  }

  lemma OneMorePayload(os: seq<Observation>, ps: seq<Payload>, p: Payload)
    requires AllGood(os, ps) && GoodPayload(os, p)
    ensures AllSamples(ps + [p]) == AllSamples(ps) + (if p.Readings? then p.samples else [])
    ensures AllStates(ps + [p]) == AllStates(ps) + (if p.States? then p.states else [])
    ensures AllGood(os, ps + [p])
  {
    assert (ps + [p])[..|ps|] == ps;
  }

  lemma OneMoreObservation(os: seq<Observation>, i: nat)
    requires i < |os|
    ensures ReadingSamples(os[..i + 1]) == ReadingSamples(os[..i]) + (if os[i].Reading? then [os[i].sample] else [])
    ensures OnlyStates(os[..i + 1]) == OnlyStates(os[..i]) + (if os[i].State? then [os[i]] else [])
  {
    assert os[..i + 1][..i] == os[..i];
  }

  ghost predicate AllGood(os: seq<Observation>, ps: seq<Payload>) {
    forall p | p in ps :: GoodPayload(os, p)
  }

  predicate AllCoherent(os: seq<Observation>) {
    forall i | 0 <= i < |os| :: Coherent(os[i])
  }

  lemma CoherentAt(os: seq<Observation>, i: nat)
    requires i < |os| && AllCoherent(os)
    ensures Coherent(os[i]) && os[i] in os
  {
  }

  /** The first `i` observations are in the finished payloads or the two chunks. */
  ghost predicate Splitting(os: seq<Observation>, i: nat, ps: seq<Payload>, descriptors: map<SignalKey, Descriptor>,
                            samples: seq<Sample>, states: seq<Observation>) {
    && i <= |os| && AllGood(os, ps)
    && ReadingsChunk(os, descriptors, samples) && StatesChunk(os[..i], states)
    && AllSamples(ps) + samples == ReadingSamples(os[..i])
    && AllStates(ps) + states == OnlyStates(os[..i])
  }

  lemma TakeReading(os: seq<Observation>, i: nat, ps: seq<Payload>, descriptors: map<SignalKey, Descriptor>,
                    samples: seq<Sample>, states: seq<Observation>)
    requires Splitting(os, i, ps, descriptors, samples, states) && |samples| < B.READINGS_LIMIT
    requires i < |os| && AllCoherent(os) && os[i].Reading?
    ensures Splitting(os, i + 1, ps, descriptors[os[i].descriptor.key := os[i].descriptor], samples + [os[i].sample],
            states)
  {
    CoherentAt(os, i);
    OneMoreObservation(os, i);
    ReadingJoins(os, descriptors, samples, i);
    StatesWait(os, i, states);
    Assoc(AllSamples(ps), samples, [os[i].sample]);
    hide AllCoherent, AllGood, ReadingsChunk, StatesChunk, AllSamples, ReadingSamples, AllStates, OnlyStates;
  }

  lemma TakeState(os: seq<Observation>, i: nat, ps: seq<Payload>, descriptors: map<SignalKey, Descriptor>,
                  samples: seq<Sample>, states: seq<Observation>)
    requires Splitting(os, i, ps, descriptors, samples, states) && |states| < STATES_LIMIT
    requires i < |os| && Distinct(os) && os[i].State?
    ensures Splitting(os, i + 1, ps, descriptors, samples, states + [os[i]])
  {
    OneMoreObservation(os, i);
    StateJoins(os, i, states);
    Assoc(AllStates(ps), states, [os[i]]);
    hide Distinct, AllGood, ReadingsChunk, StatesChunk, AllSamples, ReadingSamples, AllStates, OnlyStates;
  }

  lemma FlushReadings(os: seq<Observation>, i: nat, ps: seq<Payload>, descriptors: map<SignalKey, Descriptor>,
                      samples: seq<Sample>, states: seq<Observation>, p: Payload)
    requires Splitting(os, i, ps, descriptors, samples, states)
    requires p.Readings? && p.samples == samples && GoodPayload(os, p)
    ensures Splitting(os, i, ps + [p], map[], [], states)
  {
    hide AllGood, ReadingsChunk, StatesChunk, AllSamples, ReadingSamples, AllStates, OnlyStates, GoodPayload;
    OneMorePayload(os, ps, p);
    EmptyReadings(os);
  }

  lemma FlushStates(os: seq<Observation>, i: nat, ps: seq<Payload>, descriptors: map<SignalKey, Descriptor>,
                    samples: seq<Sample>, states: seq<Observation>)
    requires Splitting(os, i, ps, descriptors, samples, states) && GoodPayload(os, States(states))
    ensures Splitting(os, i, ps + [States(states)], descriptors, samples, [])
  {
    hide AllGood, ReadingsChunk, StatesChunk, AllSamples, ReadingSamples, AllStates, OnlyStates, GoodPayload;
    OneMorePayload(os, ps, States(states));
    EmptyStates(os[..i]);
  }

  lemma ChunksOf(os: seq<Observation>, i: nat, ps: seq<Payload>, descriptors: map<SignalKey, Descriptor>,
                 samples: seq<Sample>, states: seq<Observation>)
    requires Splitting(os, i, ps, descriptors, samples, states)
    ensures i <= |os| && ReadingsChunk(os, descriptors, samples) && StatesChunk(os[..i], states)
  {
  }

  lemma SplitStart(os: seq<Observation>)
    ensures Splitting(os, 0, [], map[], [], [])
  {
  }

  lemma SplitEnd(os: seq<Observation>, ps: seq<Payload>, descriptors: map<SignalKey, Descriptor>)
    requires Splitting(os, |os|, ps, descriptors, [], [])
    ensures AllSamples(ps) == ReadingSamples(os) && AllStates(ps) == OnlyStates(os) && AllGood(os, ps)
  {
    assert os[..|os|] == os;
    hide AllGood, ReadingsChunk, StatesChunk, AllSamples, ReadingSamples, AllStates, OnlyStates;
  }

  /** Chunking: every observation lands in exactly one payload, in order, and on
      identity-distinct input no payload can fail to build. */
  method SplitPayloads(os: seq<Observation>) returns (split: Option<seq<Payload>>)
    requires Distinct(os) && AllCoherent(os)
    ensures split.Some?
    ensures AllSamples(split.value) == ReadingSamples(os) && AllStates(split.value) == OnlyStates(os)
    ensures AllGood(os, split.value)
  {
    hide Splitting, Distinct, AllCoherent, AllSamples, AllStates, ReadingSamples, OnlyStates, AllGood;
    hide GoodPayload, ReadingsChunk, StatesChunk;
    var ps: seq<Payload> := [];
    var descriptors: map<SignalKey, Descriptor> := map[];
    var samples: seq<Sample> := [];
    var states: seq<Observation> := [];
    SplitStart(os);
    for i := 0 to |os|
      invariant Splitting(os, i, ps, descriptors, samples, states)
      invariant |samples| < B.READINGS_LIMIT && |states| < STATES_LIMIT
    {
      match os[i] {
        case Reading(descriptor, sample) =>
          TakeReading(os, i, ps, descriptors, samples, states);
          descriptors := descriptors[descriptor.key := descriptor];
          samples := samples + [sample];
          if |samples| == B.READINGS_LIMIT {
            ChunksOf(os, i + 1, ps, descriptors, samples, states);
            var built := BuildReadings(os, descriptors, samples);
            FlushReadings(os, i + 1, ps, descriptors, samples, states, built.value);
            ps := ps + [built.value];
            descriptors, samples := map[], [];
          }
        case State(_, _) =>
          TakeState(os, i, ps, descriptors, samples, states);
          states := states + [os[i]];
          if |states| == STATES_LIMIT {
            ChunksOf(os, i + 1, ps, descriptors, samples, states);
            var built := BuildStates(os, i + 1, states);
            FlushStates(os, i + 1, ps, descriptors, samples, states);
            ps := ps + [built.value];
            states := [];
          }
      }
    }
    if samples != [] {
      ChunksOf(os, |os|, ps, descriptors, samples, states);
      var built := BuildReadings(os, descriptors, samples);
      FlushReadings(os, |os|, ps, descriptors, samples, states, built.value);
      ps := ps + [built.value];
      descriptors, samples := map[], [];
    }
    if states != [] {
      ChunksOf(os, |os|, ps, descriptors, samples, states);
      var built := BuildStates(os, |os|, states);
      FlushStates(os, |os|, ps, descriptors, samples, states);
      ps := ps + [built.value];
      states := [];
    }
    SplitEnd(os, ps, descriptors);
    return Some(ps);
  }

  lemma EmptyReadings(os: seq<Observation>)
    ensures ReadingsChunk(os, map[], [])
  {
  }

  lemma EmptyStates(os: seq<Observation>)
    ensures StatesChunk(os, [])
  {
  }

  // --- Deletes ---

  function DeleteIssue(spec: Spec, prefix: Option<WirePath>, delete: WirePath, i: nat): seq<Issue> {
    match Resolve(spec, prefix, Some(delete))
    case Resolved(path) => if spec.covered(path) then [Issue(i, None, DeleteMapped)] else []
    case _ => [Issue(i, None, DeleteUnresolved)]
  }

  function DeleteIssuesTo(spec: Spec, prefix: Option<WirePath>, deletes: seq<WirePath>, n: nat): seq<Issue>
    requires n <= |deletes|
  {
    if n == 0 then []
    else DeleteIssuesTo(spec, prefix, deletes, n - 1) + DeleteIssue(spec, prefix, deletes[n - 1], n - 1)
  }

  method DeleteIssues(spec: Spec, prefix: Option<WirePath>, deletes: seq<WirePath>) returns (issues: seq<Issue>)
    ensures issues == DeleteIssuesTo(spec, prefix, deletes, |deletes|)
  {
    issues := [];
    for i := 0 to |deletes|
      invariant issues == DeleteIssuesTo(spec, prefix, deletes, i)
    {
      var r := ResolvePath(spec, prefix, Some(deletes[i]));
      if r.Resolved? {
        if spec.covered(r.path) {
          issues := issues + [Issue(i, None, DeleteMapped)];
        }
      } else {
        issues := issues + [Issue(i, None, DeleteUnresolved)];
      }
    }
  }

  // --- The whole projection ---

  /** A claimed leaf, alone in projecting to its identity, projects to this. */
  ghost predicate Survives(spec: Spec, leaves: seq<LeafUpdate>, o: Observation) {
    exists k: nat :: Alone(Ids(spec, leaves, |leaves|), k, IdentityOf(o))
        && Outcome(spec, leaves, k) == Some(Projected(o))
  }

  lemma SurvivesOnce(spec: Spec, leaves: seq<LeafUpdate>, k: nat, o: Observation)
    requires k < |leaves| && Outcome(spec, leaves, k) == Some(Projected(o))
    requires Alone(Ids(spec, leaves, |leaves|), k, IdentityOf(o))
    ensures Survives(spec, leaves, o)
    ensures forall x | Survives(spec, leaves, x) && IdentityOf(x) == IdentityOf(o) :: x == o
  {
  }

  lemma RepeatedNeverSurvives(spec: Spec, leaves: seq<LeafUpdate>, o: Observation)
    requires Repeated(Ids(spec, leaves, |leaves|), IdentityOf(o))
    ensures !Survives(spec, leaves, o)
  {
  }

  lemma SurvivorIsCandidate(spec: Spec, leaves: seq<LeafUpdate>, candidates: Candidates, o: Observation)
    requires Tracks(Ids(spec, leaves, |leaves|), candidates) && Survives(spec, leaves, o)
    ensures IdentityOf(o) in candidates
  {
  }

  /** The survivors among the identities already visited. */
  ghost predicate Gathered(spec: Spec, leaves: seq<LeafUpdate>, done: set<Identity>, os: seq<Observation>) {
    Distinct(os) && forall o :: o in os <==> IdentityOf(o) in done && Survives(spec, leaves, o)
  }

  lemma GatherOne(spec: Spec, leaves: seq<LeafUpdate>, done: set<Identity>, os: seq<Observation>, k: nat,
      o: Observation)
    requires Gathered(spec, leaves, done, os) && IdentityOf(o) !in done
    requires k < |leaves| && Outcome(spec, leaves, k) == Some(Projected(o))
    requires Alone(Ids(spec, leaves, |leaves|), k, IdentityOf(o))
    ensures Gathered(spec, leaves, done + {IdentityOf(o)}, os + [o])
  {
    SurvivesOnce(spec, leaves, k, o);
    hide Survives, Alone, Ids, Outcome;
    forall x ensures x in os + [o] <==> x in os || x == o { }
    forall i | 0 <= i < |os| ensures IdentityOf(os[i]) in done { assert os[i] in os; }
  }

  lemma GatherNone(spec: Spec, leaves: seq<LeafUpdate>, done: set<Identity>, os: seq<Observation>, id: Identity)
    requires Gathered(spec, leaves, done, os) && Repeated(Ids(spec, leaves, |leaves|), id)
    ensures Gathered(spec, leaves, done + {id}, os)
  {
    forall o | IdentityOf(o) == id ensures !Survives(spec, leaves, o) {
      RepeatedNeverSurvives(spec, leaves, o);
    }
  }

  /** The surviving candidates, each an identity's only leaf. */
  method Survivors(spec: Spec, leaves: seq<LeafUpdate>, candidates: Candidates) returns (os: seq<Observation>)
    requires Tracks(Ids(spec, leaves, |leaves|), candidates)
    ensures Distinct(os)
    ensures forall o :: o in os <==> Survives(spec, leaves, o)
  {
    hide Gathered, Alone, Repeated, Ids, Survives, Claimed, Distinct;
    os := [];
    var rest := candidates.Keys;
    assert Gathered(spec, leaves, candidates.Keys - rest, os) by { GatherStart(spec, leaves, candidates.Keys - rest); }
    while rest != {}
      invariant rest <= candidates.Keys
      invariant Gathered(spec, leaves, candidates.Keys - rest, os)
      decreases |rest|
    {
      var id :| id in rest;
      assert candidates.Keys - (rest - {id}) == candidates.Keys - rest + {id};
      if candidates[id].Some? {
        var k := candidates[id].value;
        AloneProjects(spec, leaves, k, id);
        var o := spec.convert(leaves[k].path, leaves[k].value).o;
        GatherOne(spec, leaves, candidates.Keys - rest, os, k, o);
        os := os + [o];
      } else {
        GatherNone(spec, leaves, candidates.Keys - rest, os, id);
      }
      rest := rest - {id};
    }
    GatherEnd(spec, leaves, candidates, candidates.Keys - rest, os);
  }

  lemma GatherStart(spec: Spec, leaves: seq<LeafUpdate>, done: set<Identity>)
    requires done == {}
    ensures Gathered(spec, leaves, done, [])
  {
  }

  lemma GatherEnd(spec: Spec, leaves: seq<LeafUpdate>, candidates: Candidates, done: set<Identity>,
      os: seq<Observation>)
    requires Tracks(Ids(spec, leaves, |leaves|), candidates) && done == candidates.Keys
             && Gathered(spec, leaves, done, os)
    ensures Distinct(os) && forall o :: o in os <==> Survives(spec, leaves, o)
  {
    forall o | Survives(spec, leaves, o) ensures IdentityOf(o) in candidates {
      SurvivorIsCandidate(spec, leaves, candidates, o);
    }
    hide Survives, Tracks, Ids;
  }

  lemma AloneProjects(spec: Spec, leaves: seq<LeafUpdate>, k: nat, id: Identity)
    requires Alone(Ids(spec, leaves, |leaves|), k, id)
    ensures k < |leaves| && spec.convert(leaves[k].path, leaves[k].value).Projected?
    ensures Outcome(spec, leaves, k) == Some(spec.convert(leaves[k].path, leaves[k].value))
    ensures IdentityOf(spec.convert(leaves[k].path, leaves[k].value).o) == id
  {
    IdsAt(spec, leaves, |leaves|, k);
    assert IdAt(spec, leaves, k) == Some(id);
  }

  /** The observations a notification comes to: those a claimed leaf, alone in
      projecting to its identity, projects to. */
  ghost predicate Emitted(spec: Spec, n: Notification, o: Observation) {
    Survives(spec, LeavesFrom(spec, n, 0), o)
  }

  ghost predicate Fails(spec: Spec, leaves: seq<LeafUpdate>) {
    exists k: nat :: k < |leaves| && Outcome(spec, leaves, k) == Some(ModelError)
  }

  /** One issue per unresolved update and malformed member, one per claimed leaf
      that projects to nothing, one per colliding leaf, one per mapped or
      unresolved delete. */
  ghost predicate Reported(spec: Spec, n: Notification, hit: seq<nat>, issues: seq<Issue>) {
    var leaves := LeavesFrom(spec, n, 0);
    && Hits(Ids(spec, leaves, |leaves|), hit) && Within(hit, |leaves|)
    && multiset(issues) ==
       multiset(ScanIssuesFrom(spec, n, 0)) + multiset(LeafIssues(spec, leaves, |leaves|))
       + multiset(CollisionIssues(leaves, hit)) + multiset(DeleteIssuesTo(spec, n.prefix, n.deletes, |n.deletes|))
  }

  method Project(spec: Spec, n: Notification)
    returns (failed: bool, ps: seq<Payload>, issues: seq<Issue>, ghost os: seq<Observation>, ghost hit: seq<nat>)
    requires forall p, v | spec.convert(p, v).Projected? :: Coherent(spec.convert(p, v).o)
    ensures failed <==> Fails(spec, LeavesFrom(spec, n, 0))
    ensures !failed ==>
              && Distinct(os) && (forall o :: o in os <==> Emitted(spec, n, o))
              && AllSamples(ps) == ReadingSamples(os) && AllStates(ps) == OnlyStates(os)
              && AllGood(os, ps)
    ensures !failed ==> Reported(spec, n, hit, issues)
  {
    hide AllGood, LeavesFrom, ScanIssuesFrom, Tracks, Hits, Within, LeafIssues, CollisionIssues, DeleteIssuesTo, Ids,
         Distinct, Claimed, Alone;
    failed, ps, issues, os, hit := false, [], [], [], [];
    var leaves, scanned := ScanUpdates(spec, n);
    var candidates, claimed;
    failed, candidates, claimed, hit := ClaimLeaves(spec, leaves);
    if failed {
      return;
    }
    var survivors := Survivors(spec, leaves, candidates);
    os := survivors;
    forall i | 0 <= i < |survivors| ensures Coherent(survivors[i]) {
      assert survivors[i] in survivors;
      SurvivorCoherent(spec, leaves, survivors[i]);
    }
    hide Survives, Outcome;
    var split := SplitPayloads(survivors);
    ps := split.value;
    var deleted := DeleteIssues(spec, n.prefix, n.deletes);
    issues := scanned + claimed + deleted;
  }

  lemma SurvivorCoherent(spec: Spec, leaves: seq<LeafUpdate>, o: Observation)
    requires forall p, v | spec.convert(p, v).Projected? :: Coherent(spec.convert(p, v).o)
    requires Survives(spec, leaves, o)
    ensures Coherent(o)
  {
    var k: nat :| Alone(Ids(spec, leaves, |leaves|), k, IdentityOf(o))
        && Outcome(spec, leaves, k) == Some(Projected(o));
    assert spec.convert(leaves[k].path, leaves[k].value) == Projected(o);
  }
}
