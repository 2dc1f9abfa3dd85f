/** What a notification comes to, read off the notification itself: which update
    has the last word on a path, which leaf owns it, and from these what is emitted
    and what is reported. The projection's own stages are proved to mean this. */
module GnmiMeaning {
  import opened Bytes
  import opened GnmiProjection
  import B = ReadingsBuilding

  // --- The last word on a path ---

  /** The update names this concrete path: one origin and one target serve it, and
      its elements and the prefix's are whole. */
  ghost predicate Names(spec: Spec, n: Notification, i: nat, p: Path) {
    && i < |n.updates|
    && Agree(spec, n.prefix, n.updates[i].path) && SoundPart(n.prefix) && SoundPart(n.updates[i].path)
    && p == (if n.prefix.Some? then n.prefix.value.elems else [])
            + (if n.updates[i].path.Some? then n.updates[i].path.value.elems else [])
  }

  /** It names a path some mapping wants, and no later update names the same. */
  ghost predicate Final(spec: Spec, n: Notification, i: nat, p: Path) {
    && Names(spec, n, i, p) && (spec.mapped(p) || spec.covered(p))
    && forall j | i < j < |n.updates| :: !Names(spec, n, j, p)
  }

  lemma NamesExactly(spec: Spec, n: Notification, i: nat, p: Path)
    requires i < |n.updates|
    ensures PathAt(spec, n, i) == Resolved(p) <==> Names(spec, n, i, p)
  {
    ResolveExact(spec, n.prefix, n.updates[i].path, p);
    hide Resolve, Agree, SoundPart;
  }

  lemma FinalExactly(spec: Spec, n: Notification, i: nat, p: Path)
    requires i < |n.updates|
    ensures Kept(spec, n, i) && PathAt(spec, n, i) == Resolved(p) <==> Final(spec, n, i, p)
  {
    hide PathAt, Names;
    NamesExactly(spec, n, i, p);
    forall j: nat | i < j < |n.updates| ensures PathAt(spec, n, j) == Resolved(p) <==> Names(spec, n, j, p) {
      NamesExactly(spec, n, j, p);
    }
  }

  // --- Leaves and their owners ---

  /** JSON that is an object: nothing but white space before an opening brace. */
  ghost predicate JsonObject(v: Option<Value>) {
    v.Some? && v.value.Json? && exists k: nat :: BraceAt(v.value.bytes, k)
  }

  ghost predicate BraceAt(bytes: seq<byte>, k: nat) {
    && k < |bytes| && bytes[k] == '{' as int
    && forall j | 0 <= j < k :: bytes[j] in [' ' as int, '\t' as int, '\n' as int, '\r' as int, 12]
  }

  lemma {:induction false} OpensExactly(bytes: seq<byte>)
    ensures OpensObject(bytes) <==> exists k: nat :: BraceAt(bytes, k)
  {
    if bytes != [] {
      OpensExactly(bytes[1..]);
      assert bytes[0] == '{' as int ==> BraceAt(bytes, 0);
      if IsSpace(bytes[0]) {
        if k: nat :| BraceAt(bytes[1..], k) {
          forall j | 0 <= j < k + 1 ensures bytes[j] in [' ' as int, '\t' as int, '\n' as int, '\r' as int, 12] {
            assert j > 0 ==> bytes[j] == bytes[1..][j - 1];
          }
          assert BraceAt(bytes, k + 1);
        }
        if k: nat :| BraceAt(bytes, k) {
          assert BraceAt(bytes[1..], k - 1);
        }
      }
    }
  }

  lemma ObjectExactly(v: Option<Value>)
    ensures IsObject(v) <==> JsonObject(v)
  {
    if v.Some? && v.value.Json? {
      OpensExactly(v.value.bytes);
    }
    hide OpensObject, BraceAt;
  }

  /** The first member at a path among an object's. */
  ghost predicate FirstMember(es: seq<Expanded>, e: Expanded)
    requires e.Leaf?
  {
    exists m: nat :: FirstMemberAt(es, e, m)
  }

  ghost predicate FirstMemberAt(es: seq<Expanded>, e: Expanded, m: nat)
    requires e.Leaf?
  {
    m < |es| && es[m] == e && forall k | 0 <= k < m && es[k].Leaf? :: es[k].path != e.path
  }

  /** What the update, if its word is final, brings at this leaf path: an object's
      first member there, or anything else itself. */
  ghost predicate Brings(spec: Spec, n: Notification, l: LeafUpdate) {
    l.index < |n.updates| && exists q :: Final(spec, n, l.index, q) && BringsAt(spec, n.updates[l.index].val, q, l)
  }

  ghost predicate BringsAt(spec: Spec, val: Option<Value>, q: Path, l: LeafUpdate) {
    if JsonObject(val) then
      l.pointer.Some?
      && FirstMember(spec.expand(q, val.value.bytes, val.value.ietf), Leaf(l.path, l.value, l.pointer.value))
    else l.path == q && l.value == val && l.pointer == None
  }

  /** Of the updates that bring a leaf at this path the last owns it, whatever its
      value turns out to be. */
  ghost predicate Owns(spec: Spec, n: Notification, l: LeafUpdate) {
    && Brings(spec, n, l)
    && forall x | Brings(spec, n, x) && x.path == l.path :: x.index <= l.index
  }

  /** The first of a list of leaves at its path. */
  ghost predicate FirstLeaf(leaves: seq<LeafUpdate>, l: LeafUpdate) {
    exists k: nat :: FirstLeafAt(leaves, l, k)
  }

  ghost predicate FirstLeafAt(leaves: seq<LeafUpdate>, l: LeafUpdate, k: nat) {
    k < |leaves| && leaves[k] == l && forall j | 0 <= j < k :: leaves[j].path != l.path
  }

  ghost predicate HasPath(leaves: seq<LeafUpdate>, p: Path) { exists k :: 0 <= k < |leaves| && leaves[k].path == p }

  /** The first leaf at a path of two lists is the first list's if it has one. */
  lemma FirstOfConcat(a: seq<LeafUpdate>, b: seq<LeafUpdate>, l: LeafUpdate)
    ensures FirstLeaf(a + b, l) <==> FirstLeaf(a, l) || (!HasPath(a, l.path) && FirstLeaf(b, l))
  {
    hide FirstLeafAt, HasPath;
    if k: nat :| FirstLeafAt(a + b, l, k) {
      FirstInConcat(a, b, l, k);
      if k >= |a| {
        assert k == |a| + (k - |a|) && FirstLeafAt(b, l, k - |a|);
      }
    }
    if k: nat :| FirstLeafAt(a, l, k) {
      FirstInConcat(a, b, l, k);
    }
    if k: nat :| FirstLeafAt(b, l, k) {
      FirstInConcat(a, b, l, |a| + k);
    }
  }

  lemma FirstInConcat(a: seq<LeafUpdate>, b: seq<LeafUpdate>, l: LeafUpdate, k: nat)
    ensures k < |a| ==> (FirstLeafAt(a + b, l, k) <==> FirstLeafAt(a, l, k))
    ensures k >= |a| ==> (FirstLeafAt(a + b, l, k) <==> !HasPath(a, l.path) && FirstLeafAt(b, l, k - |a|))
    ensures FirstLeafAt(a, l, k) ==> k < |a|
  {
    assert forall j | 0 <= j < |a| :: (a + b)[j] == a[j];
    assert forall j | 0 <= j < |b| :: (a + b)[|a| + j] == b[j];
    if k >= |a| && !HasPath(a, l.path) && FirstLeafAt(b, l, k - |a|) {
      forall j | 0 <= j < k ensures (a + b)[j].path != l.path {
        assert if j < |a| then (a + b)[j] == a[j] else (a + b)[j] == b[j - |a|];
      }
    }
  }

  lemma HasPathConcat(a: seq<LeafUpdate>, b: seq<LeafUpdate>, p: Path)
    ensures HasPath(a + b, p) <==> HasPath(a, p) || HasPath(b, p)
  {
    if k :| 0 <= k < |a| && a[k].path == p {
      assert (a + b)[k].path == p;
    }
    if k :| 0 <= k < |b| && b[k].path == p {
      assert (a + b)[|a| + k].path == p;
    }
  }

  lemma {:induction false} FirstAt(leaves: seq<LeafUpdate>, p: Path) returns (l: LeafUpdate)
    requires HasPath(leaves, p)
    ensures FirstLeaf(leaves, l) && l.path == p && l in leaves
  {
    if leaves[0].path == p {
      l := leaves[0];
      assert FirstLeafAt(leaves, l, 0);
    } else {
      var k :| 0 <= k < |leaves| && leaves[k].path == p;
      assert leaves[1..][k - 1].path == p;
      l := FirstAt(leaves[1..], p);
      assert leaves == [leaves[0]] + leaves[1..];
      FirstOfConcat([leaves[0]], leaves[1..], l);
    }
  }

  lemma FirstOfOne(x: LeafUpdate, l: LeafUpdate)
    ensures FirstLeaf([x], l) <==> x == l
    ensures !FirstLeaf([], l) && !HasPath([], l.path)
    ensures HasPath([x], l.path) <==> x.path == l.path
  {
    assert [x][0] == x;
    assert x == l ==> FirstLeafAt([x], l, 0);
  }

  lemma MemberCons(e: Expanded, es: seq<Expanded>, x: Expanded)
    requires x.Leaf?
    ensures FirstMember([e] + es, x) <==> e == x || ((e.Leaf? ==> e.path != x.path) && FirstMember(es, x))
  {
    hide FirstMemberAt;
    FirstMemberHead([e] + es, x);
    assert ([e] + es)[0] == e;
    if m: nat :| FirstMemberAt([e] + es, x, m) {
      if m > 0 {
        FirstMemberTail(e, es, x, m - 1);
      }
    }
    if m: nat :| FirstMemberAt(es, x, m) {
      FirstMemberTail(e, es, x, m);
    }
  }

  lemma FirstMemberHead(es: seq<Expanded>, x: Expanded)
    requires x.Leaf? && es != []
    ensures FirstMemberAt(es, x, 0) <==> es[0] == x
  {
  }

  lemma FirstMemberTail(e: Expanded, es: seq<Expanded>, x: Expanded, m: nat)
    requires x.Leaf?
    ensures FirstMemberAt([e] + es, x, m + 1) <==> (e.Leaf? ==> e.path != x.path) && FirstMemberAt(es, x, m)
  {
    var all := [e] + es;
    assert all[0] == e && forall k | 0 <= k < |es| :: all[k + 1] == es[k];
    if FirstMemberAt(es, x, m) && (e.Leaf? ==> e.path != x.path) {
      forall k | 0 <= k < m + 1 && all[k].Leaf? ensures all[k].path != x.path {
        assert k > 0 ==> all[k] == es[k - 1];
      }
    }
    if FirstMemberAt(all, x, m + 1) {
      forall k | 0 <= k < m && es[k].Leaf? ensures es[k].path != x.path {
        assert all[k + 1] == es[k];
      }
    }
  }

  lemma {:induction false} ExpandedFirst(es: seq<Expanded>, i: nat, l: LeafUpdate)
    requires l.pointer.Some? && l.index == i
    ensures FirstMember(es, Leaf(l.path, l.value, l.pointer.value)) <==> FirstLeaf(ExpandedLeaves(es, i), l)
  {
    if es == [] {
      FirstOfOne(l, l);
    } else {
      ExpandedFirst(es[1..], i, l);
      assert es == [es[0]] + es[1..];
      MemberCons(es[0], es[1..], Leaf(l.path, l.value, l.pointer.value));
      ExpandedStep(es, i);
      FirstOfConcat(LeafOfMember(es[0], i), ExpandedLeaves(es[1..], i), l);
      FirstOfOne(if es[0].Leaf? then LeafOfMember(es[0], i)[0] else l, l);
      hide FirstLeaf, FirstMember, HasPath, ExpandedLeaves;
    }
  }

  lemma ExpandedStep(es: seq<Expanded>, i: nat)
    requires es != []
    ensures ExpandedLeaves(es, i) == LeafOfMember(es[0], i) + ExpandedLeaves(es[1..], i)
  {
  }

  lemma {:induction false} ExpandedPointed(es: seq<Expanded>, i: nat)
    ensures forall l | l in ExpandedLeaves(es, i) :: l.pointer.Some?
  {
    if es != [] {
      ExpandedPointed(es[1..], i);
    }
  }

  lemma FirstIsIn(leaves: seq<LeafUpdate>, l: LeafUpdate)
    requires FirstLeaf(leaves, l)
    ensures l in leaves && HasPath(leaves, l.path)
  {
  }

  lemma BringsFirst(spec: Spec, val: Option<Value>, q: Path, l: LeafUpdate)
    ensures BringsAt(spec, val, q, l) <==> FirstLeaf(LeavesOf(spec, q, val, l.index), l)
  {
    ObjectExactly(val);
    if IsObject(val) {
      var es := spec.expand(q, val.value.bytes, val.value.ietf);
      if l.pointer.Some? {
        ExpandedFirst(es, l.index, l);
      } else {
        ExpandedPointed(es, l.index);
        if FirstLeaf(ExpandedLeaves(es, l.index), l) {
          FirstIsIn(ExpandedLeaves(es, l.index), l);
        }
      }
    } else {
      FirstOfOne(LeafUpdate(q, val, l.index, None), l);
    }
    hide JsonObject, OpensObject, FirstMember, FirstLeaf, ExpandedLeaves;
  }

  /** What a kept update's leaves have first at a path is what it brings there. */
  lemma BringsExactly(spec: Spec, n: Notification, l: LeafUpdate)
    requires l.index < |n.updates|
    ensures Brings(spec, n, l) <==> FirstLeaf(UpdateLeaves(spec, n, l.index), l)
  {
    var (i, r) := (l.index, PathAt(spec, n, l.index));
    forall q ensures Kept(spec, n, i) && r == Resolved(q) <==> Final(spec, n, i, q) {
      FinalExactly(spec, n, i, q);
    }
    FirstOfOne(l, l);
    KeptResolves(spec, n, i);
    hide PathAt, Final, Kept, BringsAt, FirstLeaf, LeavesOf;
    if Kept(spec, n, i) {
      BringsFirst(spec, n.updates[i].val, r.path, l);
    }
  }

  lemma KeptResolves(spec: Spec, n: Notification, i: nat)
    requires i < |n.updates|
    ensures Kept(spec, n, i) ==> PathAt(spec, n, i).Resolved?
  {
  }

  lemma BringsSome(spec: Spec, n: Notification, i: nat, p: Path)
    requires i < |n.updates|
    ensures HasPath(UpdateLeaves(spec, n, i), p) <==> exists l :: Brings(spec, n, l) && l.index == i && l.path == p
  {
    hide Brings, UpdateLeaves, HasPath, FirstLeaf;
    var own := UpdateLeaves(spec, n, i);
    UpdateLeavesIndex(spec, n, i);
    if HasPath(own, p) {
      var l := FirstAt(own, p);
      BringsExactly(spec, n, l);
    }
    if l :| Brings(spec, n, l) && l.index == i && l.path == p {
      BringsExactly(spec, n, l);
      FirstIsIn(own, l);
    }
  }

  lemma NoLeaves(spec: Spec, n: Notification)
    ensures LeavesFrom(spec, n, |n.updates|) == []
  {
  }

  /** Some update from here on brings a leaf at the path. */
  ghost predicate BroughtFrom(spec: Spec, n: Notification, from: nat, p: Path) {
    exists l :: Brings(spec, n, l) && from <= l.index && l.path == p
  }

  lemma BroughtStep(spec: Spec, n: Notification, from: nat, p: Path)
    requires from < |n.updates|
    ensures BroughtFrom(spec, n, from, p) <==>
            BroughtFrom(spec, n, from + 1, p) || HasPath(UpdateLeaves(spec, n, from), p)
  {
    BringsSome(spec, n, from, p);
    hide Brings, UpdateLeaves, HasPath;
    if l :| Brings(spec, n, l) && from <= l.index && l.path == p {
      assert l.index == from || from + 1 <= l.index;
    }
  }

  lemma NoneBrought(spec: Spec, n: Notification, l: LeafUpdate, p: Path)
    ensures !BroughtFrom(spec, n, |n.updates|, p)
    ensures Brings(spec, n, l) ==> l.index < |n.updates|
  {
    hide Final, BringsAt;
  }

  /** A leaf at a path from here on is one that some update from here on brings. */
  lemma {:induction false} PathsBrought(spec: Spec, n: Notification, from: nat, p: Path)
    requires from <= |n.updates|
    ensures HasPath(LeavesFrom(spec, n, from), p) <==> BroughtFrom(spec, n, from, p)
    decreases |n.updates| - from
  {
    hide BroughtFrom, UpdateLeaves, LeavesFrom, HasPath;
    if from == |n.updates| {
      NoLeaves(spec, n);
      FirstOfOne(LeafUpdate(p, None, 0, None), LeafUpdate(p, None, 0, None));
      NoneBrought(spec, n, LeafUpdate(p, None, 0, None), p);
    } else {
      LeavesFromStep(spec, n, from);
      PathsBrought(spec, n, from + 1, p);
      HasPathConcat(LeavesFrom(spec, n, from + 1), UpdateLeaves(spec, n, from), p);
      BroughtStep(spec, n, from, p);
    }
  }

  lemma OwnsExactly(spec: Spec, n: Notification, l: LeafUpdate)
    ensures Owns(spec, n, l) <==> Brings(spec, n, l) && !BroughtFrom(spec, n, l.index + 1, l.path)
  {
    hide Brings;
    if !Owns(spec, n, l) && Brings(spec, n, l) {
      var x :| Brings(spec, n, x) && x.path == l.path && x.index > l.index;
      assert l.index + 1 <= x.index;
    }
  }

  /** The leaves an update's own scan has first are those it brings. */
  lemma OwnFirst(spec: Spec, n: Notification, i: nat, l: LeafUpdate)
    requires i < |n.updates|
    ensures FirstLeaf(UpdateLeaves(spec, n, i), l) <==> l.index == i && Brings(spec, n, l)
  {
    UpdateLeavesIndex(spec, n, i);
    hide Brings, UpdateLeaves, FirstLeaf;
    if FirstLeaf(UpdateLeaves(spec, n, i), l) {
      FirstIsIn(UpdateLeaves(spec, n, i), l);
    }
    if l.index == i {
      BringsExactly(spec, n, l);
    }
  }

  /** The first leaf at each path from here on is the last brought there. */
  lemma {:induction false} OwnedFrom(spec: Spec, n: Notification, from: nat, l: LeafUpdate)
    requires from <= |n.updates|
    ensures FirstLeaf(LeavesFrom(spec, n, from), l) <==> from <= l.index && Owns(spec, n, l)
    decreases |n.updates| - from
  {
    hide Brings, BroughtFrom, Owns, UpdateLeaves, HasPath, LeavesFrom, FirstLeaf;
    OwnsExactly(spec, n, l);
    if from == |n.updates| {
      NoLeaves(spec, n);
      FirstOfOne(l, l);
      NoneBrought(spec, n, l, l.path);
    } else {
      LeavesFromStep(spec, n, from);
      OwnedFrom(spec, n, from + 1, l);
      FirstOfConcat(LeavesFrom(spec, n, from + 1), UpdateLeaves(spec, n, from), l);
      PathsBrought(spec, n, from + 1, l.path);
      OwnFirst(spec, n, from, l);
    }
  }

  /** The leaves the second stage claims are those the updates own. */
  lemma ClaimedAreOwned(spec: Spec, n: Notification, l: LeafUpdate)
    ensures (exists k: nat :: k < |LeavesFrom(spec, n, 0)| && Claimed(LeavesFrom(spec, n, 0), k)
                              && LeavesFrom(spec, n, 0)[k] == l) <==>
            Owns(spec, n, l)
  {
    OwnedFrom(spec, n, 0, l);
    hide LeavesFrom, Owns;
    var leaves := LeavesFrom(spec, n, 0);
    if k: nat :| k < |leaves| && Claimed(leaves, k) && leaves[k] == l {
      assert FirstLeafAt(leaves, l, k);
    }
  }

  lemma OwnerAt(spec: Spec, n: Notification, l: LeafUpdate) returns (k: nat)
    requires Owns(spec, n, l)
    ensures k < |LeavesFrom(spec, n, 0)| && Claimed(LeavesFrom(spec, n, 0), k) && LeavesFrom(spec, n, 0)[k] == l
  {
    ClaimedAreOwned(spec, n, l);
    k :| k < |LeavesFrom(spec, n, 0)| && Claimed(LeavesFrom(spec, n, 0), k) && LeavesFrom(spec, n, 0)[k] == l;
  }

  lemma OwnedAt(spec: Spec, n: Notification, k: nat)
    requires k < |LeavesFrom(spec, n, 0)| && Claimed(LeavesFrom(spec, n, 0), k)
    ensures Owns(spec, n, LeavesFrom(spec, n, 0)[k])
  {
    ClaimedAreOwned(spec, n, LeavesFrom(spec, n, 0)[k]);
  }

  // --- What is emitted ---

  /** Readings of one signal, or states of one subject, facet and name. */
  predicate SameSeries(o: Observation, x: Observation) {
    match (o, x)
    case (Reading(d, _), Reading(e, _)) => d.key == e.key
    case (State(a, _), State(b, _)) => a.subject == b.subject && a.facet == b.facet && a.name == b.name
    case _ => false
  }

  /** The leaf is owned and mapped, and converts to the observation. */
  ghost predicate ProjectsTo(spec: Spec, n: Notification, l: LeafUpdate, o: Observation) {
    Owns(spec, n, l) && spec.mapped(l.path) && spec.convert(l.path, l.value) == Projected(o)
  }

  lemma OutcomeExactly(spec: Spec, n: Notification, k: nat)
    requires k < |LeavesFrom(spec, n, 0)|
    ensures var l := LeavesFrom(spec, n, 0)[k];
            && (Outcome(spec, LeavesFrom(spec, n, 0), k).Some? ==>
                  && Owns(spec, n, l) && spec.mapped(l.path)
                  && Outcome(spec, LeavesFrom(spec, n, 0), k) == Some(spec.convert(l.path, l.value)))
            && (Claimed(LeavesFrom(spec, n, 0), k) && spec.mapped(l.path)
                ==> Outcome(spec, LeavesFrom(spec, n, 0), k) == Some(spec.convert(l.path, l.value)))
  {
    if Claimed(LeavesFrom(spec, n, 0), k) {
      OwnedAt(spec, n, k);
    }
    hide LeavesFrom, Owns, Claimed;
  }

  lemma SameSeriesExactly(o: Observation, x: Observation)
    ensures SameSeries(o, x) <==> IdentityOf(o) == IdentityOf(x)
  {
  }

  /** Two claims on one path are one. */
  lemma ClaimsDiffer(leaves: seq<LeafUpdate>, j: nat, k: nat)
    requires j < |leaves| && k < |leaves| && Claimed(leaves, j) && Claimed(leaves, k)
    requires leaves[j].path == leaves[k].path
    ensures j == k
  {
  }

  /** An identity is the `k`th leaf's exactly when that leaf is owned and projects to
      an observation of that series. */
  lemma IdExactly(spec: Spec, n: Notification, k: nat, o: Observation)
    requires k < |LeavesFrom(spec, n, 0)|
    ensures var leaves := LeavesFrom(spec, n, 0);
            Ids(spec, leaves, |leaves|)[k] == Some(IdentityOf(o)) <==>
            Claimed(leaves, k) && exists x :: ProjectsTo(spec, n, leaves[k], x) && SameSeries(x, o)
  {
    var leaves := LeavesFrom(spec, n, 0);
    IdsAt(spec, leaves, |leaves|, k);
    OutcomeExactly(spec, n, k);
    forall x ensures SameSeries(x, o) <==> IdentityOf(x) == IdentityOf(o) { SameSeriesExactly(x, o); }
    hide LeavesFrom, Owns, Claimed, SameSeries, IdentityOf;
    if c :| Outcome(spec, leaves, k) == Some(Projected(c)) && IdentityOf(c) == IdentityOf(o) {
      assert ProjectsTo(spec, n, leaves[k], c);
    }
  }

  /** A notification comes to exactly the observations that one owned leaf projects
      to and no other owned leaf's observation is in series with. */
  lemma EmittedExactly(spec: Spec, n: Notification, o: Observation)
    ensures Emitted(spec, n, o) <==>
            exists l :: ProjectsTo(spec, n, l, o) &&
              forall x, y | ProjectsTo(spec, n, x, y) && SameSeries(y, o) :: x == l
  {
    var leaves := LeavesFrom(spec, n, 0);
    var ids := Ids(spec, leaves, |leaves|);
    if Emitted(spec, n, o) {
      var k: nat :| Alone(ids, k, IdentityOf(o)) && Outcome(spec, leaves, k) == Some(Projected(o));
      EmittedIsSole(spec, n, k, o);
    }
    if l :| ProjectsTo(spec, n, l, o) && forall x, y | ProjectsTo(spec, n, x, y) && SameSeries(y, o) :: x == l {
      SoleIsEmitted(spec, n, l, o);
    }
  }

  lemma EmittedIsSole(spec: Spec, n: Notification, k: nat, o: Observation)
    requires Alone(Ids(spec, LeavesFrom(spec, n, 0), |LeavesFrom(spec, n, 0)|), k, IdentityOf(o))
    requires Outcome(spec, LeavesFrom(spec, n, 0), k) == Some(Projected(o))
    ensures ProjectsTo(spec, n, LeavesFrom(spec, n, 0)[k], o)
    ensures forall x, y | ProjectsTo(spec, n, x, y) && SameSeries(y, o) :: x == LeavesFrom(spec, n, 0)[k]
  {
    OutcomeExactly(spec, n, k);
    hide LeavesFrom, Owns, Claimed, Ids, Outcome, SameSeries, IdentityOf;
    forall x, y | ProjectsTo(spec, n, x, y) && SameSeries(y, o) ensures x == LeavesFrom(spec, n, 0)[k] {
      var j := OwnerAt(spec, n, x);
      IdExactly(spec, n, j, o);
    }
  }

  lemma SoleIsEmitted(spec: Spec, n: Notification, l: LeafUpdate, o: Observation)
    requires ProjectsTo(spec, n, l, o)
    requires forall x, y | ProjectsTo(spec, n, x, y) && SameSeries(y, o) :: x == l
    ensures Emitted(spec, n, o)
  {
    var leaves := LeavesFrom(spec, n, 0);
    var k := OwnerAt(spec, n, l);
    OutcomeExactly(spec, n, k);
    IdExactly(spec, n, k, o);
    SameSeriesExactly(o, o);
    var ids := Ids(spec, leaves, |leaves|);
    hide LeavesFrom, Owns, Claimed, Ids, Outcome, SameSeries, IdentityOf;
    assert ProjectsTo(spec, n, leaves[k], o) && SameSeries(o, o);
    forall j: nat | j < |leaves| && j != k ensures ids[j] != Some(IdentityOf(o)) {
      IdExactly(spec, n, j, o);
      if Claimed(leaves, j) && leaves[j] == l {
        ClaimsDiffer(leaves, j, k);
      }
    }
    assert Alone(ids, k, IdentityOf(o));
  }

  /** The projection fails exactly when an owned, mapped leaf's conversion does. */
  lemma FailsExactly(spec: Spec, n: Notification)
    ensures Fails(spec, LeavesFrom(spec, n, 0)) <==>
            exists l :: Owns(spec, n, l) && spec.mapped(l.path) && spec.convert(l.path, l.value) == ModelError
  {
    var leaves := LeavesFrom(spec, n, 0);
    hide LeavesFrom, Owns, Claimed, Outcome;
    if k: nat :| k < |leaves| && Outcome(spec, leaves, k) == Some(ModelError) {
      OutcomeExactly(spec, n, k);
    }
    if l :| Owns(spec, n, l) && spec.mapped(l.path) && spec.convert(l.path, l.value) == ModelError {
      var k := OwnerAt(spec, n, l);
      OutcomeExactly(spec, n, k);
    }
  }

  // --- What is reported ---

  ghost predicate NamesNone(spec: Spec, prefix: Option<WirePath>, path: Option<WirePath>) {
    !Agree(spec, prefix, path) || !SoundPart(prefix) || !SoundPart(path)
  }

  /** The issues a notification calls for: an update that names no path, a malformed
      member of a final object, an owned leaf that is unmapped, has no subject or
      does not convert, an owned leaf in series with another, and a delete that names
      no path or covers a mapping. */
  ghost predicate Due(spec: Spec, n: Notification, x: Issue) {
    match x.reason
    case Unresolved => x.pointer == None && x.index < |n.updates| && NamesNone(spec, n.prefix, n.updates[x.index].path)
    case BadJson => MalformedAt(spec, n, x)
    case Unmapped => exists l :: Owns(spec, n, l) && At(x, l) && !spec.mapped(l.path)
    case Subjectless => exists l :: OwnedAs(spec, n, l, BadSubject) && At(x, l)
    case Mismatch => exists l :: OwnedAs(spec, n, l, BadValue) && At(x, l)
    case Collided => exists l :: At(x, l) && Collides(spec, n, l)
    case DeleteUnresolved =>
      x.pointer == None && x.index < |n.deletes| && NamesNone(spec, n.prefix, Some(n.deletes[x.index]))
    case DeleteMapped =>
      && x.pointer == None && x.index < |n.deletes| && !NamesNone(spec, n.prefix, Some(n.deletes[x.index]))
      && spec.covered((if n.prefix.Some? then n.prefix.value.elems else []) + n.deletes[x.index].elems)
  }

  predicate At(x: Issue, l: LeafUpdate) { x.index == l.index && x.pointer == l.pointer }

  ghost predicate OwnedAs(spec: Spec, n: Notification, l: LeafUpdate, c: Converted) {
    Owns(spec, n, l) && spec.mapped(l.path) && spec.convert(l.path, l.value) == c
  }

  ghost predicate MalformedAt(spec: Spec, n: Notification, x: Issue) {
    x.index < |n.updates| && x.pointer.Some? && exists q ::
      && Final(spec, n, x.index, q) && JsonObject(n.updates[x.index].val)
      && BadMember(x.pointer.value)
         in spec.expand(q, n.updates[x.index].val.value.bytes, n.updates[x.index].val.value.ietf)
  }

  ghost predicate Collides(spec: Spec, n: Notification, l: LeafUpdate) {
    exists o, x, y :: ProjectsTo(spec, n, l, o) && ProjectsTo(spec, n, x, y) && x != l && SameSeries(y, o)
  }

  lemma NoneExactly(spec: Spec, prefix: Option<WirePath>, path: Option<WirePath>)
    ensures NamesNone(spec, prefix, path) <==> !Resolve(spec, prefix, path).Resolved?
    ensures !NamesNone(spec, prefix, path) ==>
              Resolve(spec, prefix, path)
              == Resolved((if prefix.Some? then prefix.value.elems else []) + (if path.Some? then path.value.elems else []))
  {
    var r := (if prefix.Some? then prefix.value.elems else []) + (if path.Some? then path.value.elems else []);
    ResolveExact(spec, prefix, path, r);
    if Resolve(spec, prefix, path).Resolved? {
      ResolveExact(spec, prefix, path, Resolve(spec, prefix, path).path);
    }
    hide Resolve, Agree, SoundPart;
  }

  lemma {:induction false} ExpandedIssuesAre(es: seq<Expanded>, i: nat, x: Issue)
    ensures x in ExpandedIssues(es, i) <==>
            x.index == i && x.reason == BadJson && x.pointer.Some? && BadMember(x.pointer.value) in es
  {
    if es != [] {
      ExpandedIssuesAre(es[1..], i, x);
      assert es == [es[0]] + es[1..];
    }
  }

  lemma MalformedExactly(spec: Spec, n: Notification, x: Issue)
    requires x.index < |n.updates|
    ensures Kept(spec, n, x.index) && x in IssuesOf(spec, PathAt(spec, n, x.index).path, n.updates[x.index].val, x.index)
            <==> x.reason == BadJson && MalformedAt(spec, n, x)
  {
    var (i, val) := (x.index, n.updates[x.index].val);
    ObjectExactly(val);
    forall q ensures Kept(spec, n, i) && PathAt(spec, n, i) == Resolved(q) <==> Final(spec, n, i, q) {
      FinalExactly(spec, n, i, q);
    }
    KeptResolves(spec, n, i);
    if IsObject(val) {
      forall q { ExpandedIssuesAre(spec.expand(q, val.value.bytes, val.value.ietf), i, x); }
    }
    hide PathAt, Final, Kept, JsonObject, OpensObject, ExpandedIssues;
    if Kept(spec, n, i) {
      assert Final(spec, n, i, PathAt(spec, n, i).path);
    }
  }

  lemma IssuesIndexed(spec: Spec, q: Path, v: Option<Value>, i: nat, x: Issue)
    requires x in IssuesOf(spec, q, v, i)
    ensures x.index == i && x.reason == BadJson
  {
    ExpandedIssuesAre(spec.expand(q, v.value.bytes, v.value.ietf), i, x);
  }

  /** The issues the scan raises at one update. */
  function ScanIssues(spec: Spec, n: Notification, i: nat): seq<Issue>
    requires i < |n.updates|
  {
    if !PathAt(spec, n, i).Resolved? then [Issue(i, None, Unresolved)]
    else if Kept(spec, n, i) then IssuesOf(spec, PathAt(spec, n, i).path, n.updates[i].val, i)
    else []
  }

  lemma ScanIssuesAt(spec: Spec, n: Notification, i: nat, x: Issue)
    requires i < |n.updates|
    ensures x in ScanIssues(spec, n, i) <==>
            x.index == i && (x.reason == Unresolved || x.reason == BadJson) && Due(spec, n, x)
  {
    NoneExactly(spec, n.prefix, n.updates[i].path);
    KeptResolves(spec, n, i);
    if x.index == i {
      MalformedExactly(spec, n, x);
    }
    var r := PathAt(spec, n, i);
    assert r.Resolved? <==> !NamesNone(spec, n.prefix, n.updates[i].path);
    if r.Resolved? && x in IssuesOf(spec, r.path, n.updates[i].val, i) {
      IssuesIndexed(spec, r.path, n.updates[i].val, i, x);
    }
    if x.index == i && x.reason == BadJson && MalformedAt(spec, n, x) {
      assert r.Resolved?;
    }
    hide PathAt, Kept, IssuesOf, NamesNone, MalformedAt, Owns, Collides, OwnedAs;
  }

  lemma {:induction false} ScanIssuesAre(spec: Spec, n: Notification, from: nat, x: Issue)
    requires from <= |n.updates|
    ensures x in ScanIssuesFrom(spec, n, from) <==>
            from <= x.index < |n.updates| && (x.reason == Unresolved || x.reason == BadJson) && Due(spec, n, x)
    decreases |n.updates| - from
  {
    hide ScanIssuesFrom, ScanIssues, Due;
    ScanIssuesStep(spec, n, from);
    if from < |n.updates| {
      ScanIssuesAre(spec, n, from + 1, x);
      ScanIssuesAt(spec, n, from, x);
      assert x in ScanIssuesFrom(spec, n, from) <==>
             x in ScanIssuesFrom(spec, n, from + 1) || x in ScanIssues(spec, n, from);
    }
  }

  lemma ScanIssuesStep(spec: Spec, n: Notification, i: nat)
    requires i <= |n.updates|
    ensures ScanIssuesFrom(spec, n, i)
            == if i == |n.updates| then [] else ScanIssuesFrom(spec, n, i + 1) + ScanIssues(spec, n, i)
  {
    hide PathAt, Kept, IssuesOf;
  }

  lemma {:induction false} LeafIssuesAre(spec: Spec, leaves: seq<LeafUpdate>, n: nat, x: Issue)
    requires n <= |leaves|
    ensures x in LeafIssues(spec, leaves, n) <==> exists k: nat :: k < n && x in LeafIssue(spec, leaves, k)
  {
    hide LeafIssue;
    if n > 0 {
      LeafIssuesAre(spec, leaves, n - 1, x);
    }
  }

  /** An owned leaf raises this issue by itself. */
  ghost predicate Raises(spec: Spec, l: LeafUpdate, x: Issue) {
    At(x, l) && match x.reason
                case Unmapped => !spec.mapped(l.path)
                case Subjectless => spec.mapped(l.path) && spec.convert(l.path, l.value) == BadSubject
                case Mismatch => spec.mapped(l.path) && spec.convert(l.path, l.value) == BadValue
                case _ => false
  }

  lemma LeafIssueAt(spec: Spec, leaves: seq<LeafUpdate>, k: nat, x: Issue)
    requires k < |leaves|
    ensures x in LeafIssue(spec, leaves, k) <==> Claimed(leaves, k) && Raises(spec, leaves[k], x)
  {
    hide Claimed;
  }

  lemma RaisesExactly(spec: Spec, n: Notification, x: Issue)
    ensures (exists l :: Owns(spec, n, l) && Raises(spec, l, x)) <==>
            (x.reason == Unmapped || x.reason == Subjectless || x.reason == Mismatch) && Due(spec, n, x)
  {
    hide Owns, NamesNone, Collides, MalformedAt;
    if l :| Owns(spec, n, l) && Raises(spec, l, x) {
      assert x.reason == Subjectless ==> OwnedAs(spec, n, l, BadSubject);
      assert x.reason == Mismatch ==> OwnedAs(spec, n, l, BadValue);
    }
  }

  lemma LeafIssueExactly(spec: Spec, n: Notification, x: Issue)
    ensures var leaves := LeavesFrom(spec, n, 0);
            x in LeafIssues(spec, leaves, |leaves|) <==>
            (x.reason == Unmapped || x.reason == Subjectless || x.reason == Mismatch) && Due(spec, n, x)
  {
    var leaves := LeavesFrom(spec, n, 0);
    LeafIssuesAre(spec, leaves, |leaves|, x);
    RaisesExactly(spec, n, x);
    hide LeavesFrom, LeafIssues, LeafIssue, Owns, Claimed, Raises, Due;
    if k: nat :| k < |leaves| && x in LeafIssue(spec, leaves, k) {
      LeafIssueAt(spec, leaves, k, x);
      OwnedAt(spec, n, k);
    }
    if l :| Owns(spec, n, l) && Raises(spec, l, x) {
      var k := OwnerAt(spec, n, l);
      LeafIssueAt(spec, leaves, k, x);
    }
  }

  lemma {:induction false} CollisionsAre(leaves: seq<LeafUpdate>, hit: seq<nat>, x: Issue)
    requires Within(hit, |leaves|)
    ensures x in CollisionIssues(leaves, hit) <==>
            x.reason == Collided && exists k :: k in hit && At(x, leaves[k])
  {
    if hit != [] {
      var (init, last) := (hit[..|hit| - 1], hit[|hit| - 1]);
      CollisionsAre(leaves, init, x);
      assert hit == init + [last];
    }
  }

  /** A leaf shares its identity exactly when it is owned and collides. */
  lemma SharedExactly(spec: Spec, n: Notification, k: nat)
    requires k < |LeavesFrom(spec, n, 0)|
    ensures var leaves := LeavesFrom(spec, n, 0);
            Shared(Ids(spec, leaves, |leaves|), k) <==> Claimed(leaves, k) && Collides(spec, n, leaves[k])
  {
    var leaves := LeavesFrom(spec, n, 0);
    var ids := Ids(spec, leaves, |leaves|);
    hide LeavesFrom, Owns, Claimed, Ids, SameSeries, IdentityOf;
    if Shared(ids, k) {
      var j :| 0 <= j < |ids| && j != k && ids[j] == ids[k];
      var o := ProjectedAt(spec, n, k);
      var y := ProjectedAt(spec, n, j);
      SameSeriesExactly(y, o);
      if leaves[j] == leaves[k] {
        ClaimsDiffer(leaves, j, k);
      }
      assert ProjectsTo(spec, n, leaves[k], o) && ProjectsTo(spec, n, leaves[j], y) && SameSeries(y, o);
    }
    if Claimed(leaves, k) && Collides(spec, n, leaves[k]) {
      var o, x, y :| ProjectsTo(spec, n, leaves[k], o) && ProjectsTo(spec, n, x, y) && x != leaves[k]
                     && SameSeries(y, o);
      var j := OwnerAt(spec, n, x);
      SameSeriesExactly(o, o);
      IdExactly(spec, n, k, o);
      IdExactly(spec, n, j, o);
    }
  }

  lemma ProjectedAt(spec: Spec, n: Notification, k: nat) returns (o: Observation)
    requires k < |LeavesFrom(spec, n, 0)|
    requires Ids(spec, LeavesFrom(spec, n, 0), |LeavesFrom(spec, n, 0)|)[k].Some?
    ensures ProjectsTo(spec, n, LeavesFrom(spec, n, 0)[k], o) && Claimed(LeavesFrom(spec, n, 0), k)
    ensures Ids(spec, LeavesFrom(spec, n, 0), |LeavesFrom(spec, n, 0)|)[k] == Some(IdentityOf(o))
  {
    var leaves := LeavesFrom(spec, n, 0);
    IdsAt(spec, leaves, |leaves|, k);
    OutcomeExactly(spec, n, k);
    o := Outcome(spec, leaves, k).value.o;
    hide LeavesFrom, Owns;
  }

  lemma CollisionExactly(spec: Spec, n: Notification, hit: seq<nat>, x: Issue)
    requires var leaves := LeavesFrom(spec, n, 0);
             Hits(Ids(spec, leaves, |leaves|), hit) && Within(hit, |leaves|)
    ensures x in CollisionIssues(LeavesFrom(spec, n, 0), hit) <==> x.reason == Collided && Due(spec, n, x)
  {
    var leaves := LeavesFrom(spec, n, 0);
    CollisionsAre(leaves, hit, x);
    DueCollision(spec, n, x);
    hide LeavesFrom, CollisionIssues, Ids, Owns, Shared, Collides, NoRepeats, Due, At;
    if k :| k in hit && At(x, leaves[k]) {
      SharedExactly(spec, n, k);
    }
    if l :| At(x, l) && Collides(spec, n, l) {
      CollidersOwned(spec, n, l);
      var k := OwnerAt(spec, n, l);
      SharedExactly(spec, n, k);
      assert k in hit;
    }
  }

  lemma DueCollision(spec: Spec, n: Notification, x: Issue)
    ensures x.reason == Collided ==> (Due(spec, n, x) <==> exists l :: At(x, l) && Collides(spec, n, l))
  {
    hide Collides, At;
  }

  lemma CollidersOwned(spec: Spec, n: Notification, l: LeafUpdate)
    requires Collides(spec, n, l)
    ensures Owns(spec, n, l)
  {
    hide Owns;
  }

  lemma {:induction false} DeleteIssuesAre(spec: Spec, n: Notification, to: nat, x: Issue)
    requires to <= |n.deletes|
    ensures x in DeleteIssuesTo(spec, n.prefix, n.deletes, to) <==>
            x.index < to && (x.reason == DeleteUnresolved || x.reason == DeleteMapped) && Due(spec, n, x)
  {
    hide Resolve, NamesNone, Owns, Collides, OwnedAs, MalformedAt;
    if to > 0 {
      DeleteIssuesAre(spec, n, to - 1, x);
      NoneExactly(spec, n.prefix, Some(n.deletes[to - 1]));
    }
  }

  /** The issues reported are exactly those the notification calls for. */
  lemma IssuesExactly(spec: Spec, n: Notification, hit: seq<nat>, issues: seq<Issue>, x: Issue)
    requires Reported(spec, n, hit, issues)
    ensures x in issues <==> Due(spec, n, x)
  {
    hide LeavesFrom, ScanIssuesFrom, LeafIssues, CollisionIssues, DeleteIssuesTo, Due, Ids, Hits, Within;
    ScanIssuesAre(spec, n, 0, x);
    LeafIssueExactly(spec, n, x);
    CollisionExactly(spec, n, hit, x);
    DeleteIssuesAre(spec, n, |n.deletes|, x);
    if Due(spec, n, x) {
      DueIndexed(spec, n, x);
    }
    assert x in issues <==> x in multiset(issues);
  }

  lemma DueIndexed(spec: Spec, n: Notification, x: Issue)
    requires Due(spec, n, x)
    ensures x.reason == Unresolved || x.reason == BadJson ==> x.index < |n.updates|
    ensures x.reason == DeleteUnresolved || x.reason == DeleteMapped ==> x.index < |n.deletes|
  {
    hide NamesNone, Owns, Collides, OwnedAs;
  }

  /** As many collisions are reported as there are leaves in series with another. */
  lemma {:induction false} CollisionsCounted(leaves: seq<LeafUpdate>, ids: seq<Option<Identity>>, hit: seq<nat>)
    requires |ids| == |leaves| && Hits(ids, hit) && Within(hit, |leaves|)
    ensures |CollisionIssues(leaves, hit)|
            == |(set k: nat | k < |ids| && exists j: nat :: j < |ids| && j != k && ids[j] == ids[k] && ids[k].Some?)|
  {
    var all := set k: nat | k < |ids| && exists j: nat :: j < |ids| && j != k && ids[j] == ids[k] && ids[k].Some?;
    CollisionPerHit(leaves, hit);
    EachOnce(hit);
    assert all == Members(hit);
  }

  lemma {:induction false} CollisionPerHit(leaves: seq<LeafUpdate>, hit: seq<nat>)
    requires Within(hit, |leaves|)
    ensures |CollisionIssues(leaves, hit)| == |hit|
  {
    if hit != [] {
      CollisionPerHit(leaves, hit[..|hit| - 1]);
    }
  }

  ghost function Members(hit: seq<nat>): set<nat> { set k | k in hit }

  lemma {:induction false} EachOnce(hit: seq<nat>)
    requires NoRepeats(hit)
    ensures |hit| == |Members(hit)|
  {
    if hit != [] {
      var (init, last) := (hit[..|hit| - 1], hit[|hit| - 1]);
      EachOnce(init);
      assert hit == init + [last];
      assert last !in Members(init);
      assert Members(hit) == Members(init) + {last};
    }
  }

  // --- What a payload holds ---

  lemma {:induction false} SamplesAre(os: seq<Observation>, s: Sample)
    ensures s in ReadingSamples(os) <==> exists d :: Reading(d, s) in os
  {
    if os != [] {
      var (init, last) := (os[..|os| - 1], os[|os| - 1]);
      SamplesAre(init, s);
      assert os == init + [last];
    }
  }

  lemma {:induction false} StatesAre(os: seq<Observation>, o: Observation)
    ensures o in OnlyStates(os) <==> o.State? && o in os
  {
    if os != [] {
      var (init, last) := (os[..|os| - 1], os[|os| - 1]);
      StatesAre(init, o);
      assert os == init + [last];
    }
  }

  lemma {:induction false} SentSamplesAre(ps: seq<Payload>, s: Sample)
    ensures s in AllSamples(ps) <==> exists p :: p in ps && p.Readings? && s in p.samples
  {
    if ps != [] {
      var (init, last) := (ps[..|ps| - 1], ps[|ps| - 1]);
      SentSamplesAre(init, s);
      assert ps == init + [last];
    }
  }

  lemma {:induction false} SentStatesAre(ps: seq<Payload>, o: Observation)
    ensures o in AllStates(ps) <==> exists p :: p in ps && p.States? && o in p.states
  {
    if ps != [] {
      var (init, last) := (ps[..|ps| - 1], ps[|ps| - 1]);
      SentStatesAre(init, o);
      assert ps == init + [last];
    }
  }

  /** The payloads carry these observations, as the projection promises. */
  ghost predicate Carries(ps: seq<Payload>, os: seq<Observation>) {
    && Distinct(os) && AllCoherent(os) && AllGood(os, ps)
    && AllSamples(ps) == ReadingSamples(os) && AllStates(ps) == OnlyStates(os)
  }

  /** Each sample is described by the descriptor it was observed with. */
  ghost predicate EachDescribed(os: seq<Observation>, p: Payload)
    requires p.Readings?
  {
    forall s | s in p.samples :: exists d :: d in p.descriptors && Reading(d, s) in os
  }

  ghost predicate NothingElse(os: seq<Observation>, p: Payload)
    requires p.Readings?
  {
    forall d | d in p.descriptors :: exists s :: s in p.samples && Reading(d, s) in os
  }

  lemma EmittedCoherent(spec: Spec, n: Notification, os: seq<Observation>)
    requires forall p, v | spec.convert(p, v).Projected? :: Coherent(spec.convert(p, v).o)
    requires forall o | o in os :: Emitted(spec, n, o)
    ensures AllCoherent(os)
  {
    forall i | 0 <= i < |os| ensures Coherent(os[i]) {
      assert os[i] in os;
      EmittedExactly(spec, n, os[i]);
      hide Coherent, Emitted, Owns, SameSeries;
      var l :| ProjectsTo(spec, n, l, os[i]);
      assert spec.convert(l.path, l.value).Projected?;
    }
  }

  /** A readings payload describes each of its samples by the descriptor it was
      observed with, describes nothing else, no signal twice, and holds at most 65536
      of each. */
  lemma ReadingsAreOwn(os: seq<Observation>, ps: seq<Payload>, p: Payload)
    requires Carries(ps, os) && p in ps && p.Readings?
    ensures 1 <= |p.samples| <= 65536 && |p.descriptors| <= 65536
    ensures forall i, j | 0 <= i < j < |p.descriptors| :: p.descriptors[i].key != p.descriptors[j].key
    ensures EachDescribed(os, p) && NothingElse(os, p)
  {
    PayloadBounds(os, ps, p);
    hide AllGood, AllSamples, ReadingSamples, AllStates, OnlyStates, AllCoherent, Distinct;
    assert EachDescribed(os, p) by {
      forall s | s in p.samples ensures exists d :: d in p.descriptors && Reading(d, s) in os {
        var d := OwnDescriptor(os, ps, p, s);
      }
    }
    assert NothingElse(os, p) by {
      hide EachDescribed;
      forall d | d in p.descriptors ensures exists s :: s in p.samples && Reading(d, s) in os {
        var s := OwnSample(os, ps, p, d);
      }
    }
  }

  lemma PayloadBounds(os: seq<Observation>, ps: seq<Payload>, p: Payload)
    requires AllGood(os, ps) && p in ps && p.Readings?
    ensures 1 <= |p.samples| <= 65536 && |p.descriptors| <= 65536
    ensures forall i, j | 0 <= i < j < |p.descriptors| :: p.descriptors[i].key != p.descriptors[j].key
  {
    assert GoodPayload(os, p);
    B.PassesExactly(p.descriptors, p.samples);
    hide B.Passes, B.Resolved, Sampled, Observed;
  }

  lemma OwnDescriptor(os: seq<Observation>, ps: seq<Payload>, p: Payload, s: Sample) returns (d: Descriptor)
    requires Carries(ps, os) && p in ps && p.Readings? && s in p.samples
    ensures d in p.descriptors && Reading(d, s) in os
  {
    d := ObservedWith(os, ps, p, s);
    var i := DescribedAt(os, ps, p, s);
    var t := ObservedAt(os, ps, p, i);
    hide AllGood, AllSamples, ReadingSamples, AllStates, OnlyStates, AllCoherent, Distinct;
    SameReading(os, d, s, p.descriptors[i], t);
  }

  lemma OwnSample(os: seq<Observation>, ps: seq<Payload>, p: Payload, d: Descriptor) returns (s: Sample)
    requires Carries(ps, os) && p in ps && p.Readings? && d in p.descriptors
    ensures s in p.samples && Reading(d, s) in os
  {
    var i :| 0 <= i < |p.descriptors| && p.descriptors[i] == d;
    var t := ObservedAt(os, ps, p, i);
    assert Sampled(d, p.samples) by { assert GoodPayload(os, p); }
    var j :| 0 <= j < |p.samples| && p.samples[j].key == d.key;
    s := p.samples[j];
    var e := ObservedWith(os, ps, p, s);
    hide AllGood, AllSamples, ReadingSamples, AllStates, OnlyStates, AllCoherent, Distinct;
    SameReading(os, e, s, d, t);
  }

  lemma DescribedAt(os: seq<Observation>, ps: seq<Payload>, p: Payload, s: Sample) returns (i: nat)
    requires AllGood(os, ps) && p in ps && p.Readings? && s in p.samples
    ensures i < |p.descriptors| && p.descriptors[i].key == s.key
  {
    assert GoodPayload(os, p);
    B.PassesExactly(p.descriptors, p.samples);
    hide B.Passes, Sampled, Observed;
    assert B.Resolved(p.descriptors, s.key);
    i :| 0 <= i < |p.descriptors| && p.descriptors[i].key == s.key;
  }

  lemma ObservedAt(os: seq<Observation>, ps: seq<Payload>, p: Payload, i: nat) returns (t: Sample)
    requires AllGood(os, ps) && p in ps && p.Readings? && i < |p.descriptors|
    ensures Reading(p.descriptors[i], t) in os
  {
    assert GoodPayload(os, p);
    hide B.Passes;
    assert Observed(p.descriptors[i], os);
    var k :| 0 <= k < |os| && os[k].Reading? && os[k].descriptor == p.descriptors[i];
    t := os[k].sample;
    assert os[k] == Reading(p.descriptors[i], t);
  }

  lemma ObservedWith(os: seq<Observation>, ps: seq<Payload>, p: Payload, s: Sample) returns (d: Descriptor)
    requires AllSamples(ps) == ReadingSamples(os) && p in ps && p.Readings? && s in p.samples
    ensures Reading(d, s) in os
  {
    SentSamplesAre(ps, s);
    SamplesAre(os, s);
    d :| Reading(d, s) in os;
  }

  lemma SameReading(os: seq<Observation>, d: Descriptor, s: Sample, e: Descriptor, t: Sample)
    requires Distinct(os) && AllCoherent(os) && Reading(d, s) in os && Reading(e, t) in os && e.key == s.key
    ensures d == e && s == t
  {
    var i :| 0 <= i < |os| && os[i] == Reading(d, s);
    var j :| 0 <= j < |os| && os[j] == Reading(e, t);
    hide B.Described, B.Measured;
    assert Coherent(os[i]);
    assert IdentityOf(os[i]) == IdentityOf(os[j]);
  }

  lemma SampleKey(os: seq<Observation>, d: Descriptor, s: Sample)
    requires AllCoherent(os) && Reading(d, s) in os
    ensures d.key == s.key
  {
    var i :| 0 <= i < |os| && os[i] == Reading(d, s);
    hide B.Described, B.Measured;
    assert Coherent(os[i]);
  }

  /** Every observation is in some payload, a reading with its own descriptor, and a
      payload of states holds nothing else. */
  lemma NothingIsLost(os: seq<Observation>, ps: seq<Payload>, o: Observation)
    requires Carries(ps, os)
    ensures o.Reading? && o in os ==>
              exists p :: p in ps && p.Readings? && o.sample in p.samples && o.descriptor in p.descriptors
    ensures o.State? ==> (o in os <==> exists p :: p in ps && p.States? && o in p.states)
    ensures forall p | p in ps && p.States? :: 1 <= |p.states| <= 65536 && forall x | x in p.states :: x.State?
  {
    hide AllCoherent, Distinct, AllSamples, ReadingSamples, AllStates, OnlyStates, AllGood;
    StatesAre(os, o);
    SentStatesAre(ps, o);
    if o.Reading? && o in os {
      SamplesAre(os, o.sample);
      SentSamplesAre(ps, o.sample);
      assert Reading(o.descriptor, o.sample) in os;
      var p :| p in ps && p.Readings? && o.sample in p.samples;
      var d := OwnDescriptor(os, ps, p, o.sample);
      SampleKey(os, d, o.sample);
      SameReading(os, o.descriptor, o.sample, d, o.sample);
    }
    forall p | p in ps && p.States? ensures 1 <= |p.states| <= 65536 && forall x | x in p.states :: x.State? {
      GoodStates(os, ps, p);
      forall x | x in p.states ensures x.State? {
        SentStatesAre(ps, x);
        StatesAre(os, x);
      }
    }
  }

  lemma GoodStates(os: seq<Observation>, ps: seq<Payload>, p: Payload)
    requires AllGood(os, ps) && p in ps && p.States?
    ensures 1 <= |p.states| <= 65536
  {
    assert GoodPayload(os, p);
  }
}
