/** The schema lint's worklists (`codegen/src/lint.rs`): which messages a hash can
    reach, and which can contain themselves. */
module LintGraphs {
  import opened Bytes
  import opened Graphs

  type Name = seq<char>

  datatype Field = Field(metadata: bool, message: Option<Name>)

  datatype Descriptor = Descriptor(hashable: bool, fields: seq<Field>)

  type Pool = map<Name, Descriptor>

  /** The message types fields lead to; metadata fields left out on request. */
  function NestedMessages(fields: seq<Field>, visibleOnly: bool): (r: seq<Name>)
    ensures forall n :: n in r <==> exists f :: f in fields && f.message == Some(n) && !(visibleOnly && f.metadata)
  {
    if fields == [] then [] else
    assert fields == [fields[0]] + fields[1..];
    (if fields[0].message.None? || (visibleOnly && fields[0].metadata) then [] else [fields[0].message.value])
    + NestedMessages(fields[1..], visibleOnly)
  }

  function Successors(pool: Pool, visibleOnly: bool): Succ<Name> {
    map n | n in pool :: NestedMessages(pool[n].fields, visibleOnly)
  }

  /** A descriptor pool resolves every field's type. */
  predicate ClosedPool(pool: Pool) {
    forall n, f | n in pool && f in pool[n].fields && f.message.Some? :: f.message.value in pool
  }

  lemma NestedAreEdges(pool: Pool, visibleOnly: bool, n: Name)
    requires ClosedPool(pool) && n in pool
    ensures forall b :: b in NestedMessages(pool[n].fields, visibleOnly) <==> Edge(Successors(pool, visibleOnly), n, b)
    ensures forall b | b in NestedMessages(pool[n].fields, visibleOnly) :: b in pool
  {
  }

  // --- What the searches look for, in fields ---

  /** A field of the one message, not metadata if only visible ones are asked for, is
      of the other's type. */
  ghost predicate HasField(pool: Pool, a: Name, b: Name, visibleOnly: bool) {
    a in pool && exists f :: f in pool[a].fields && f.message == Some(b) && (visibleOnly ==> !f.metadata)
  }

  /** Each message has a field of the next one's type. */
  ghost predicate Nested(pool: Pool, p: seq<Name>, visibleOnly: bool) {
    |p| >= 1 && forall i | 0 <= i < |p| - 1 :: HasField(pool, p[i], p[i + 1], visibleOnly)
  }

  /** A message marked hashable has this one nested in it, at any depth, itself
      included. */
  ghost predicate Hashed(pool: Pool, n: Name) {
    exists p: seq<Name> ::
      Nested(pool, p, true) && p[0] in pool && pool[p[0]].hashable && p[|p| - 1] == n
  }

  /** The message has itself nested in it, at some depth. */
  ghost predicate Recursive(pool: Pool, n: Name) {
    exists p: seq<Name> :: Nested(pool, p, false) && |p| > 1 && p[0] == n && p[|p| - 1] == n
  }

  lemma NestedIsPath(pool: Pool, p: seq<Name>, visibleOnly: bool)
    ensures IsPath(Successors(pool, visibleOnly), p) <==> Nested(pool, p, visibleOnly)
  {
    var succ := Successors(pool, visibleOnly);
    forall a, b ensures Edge(succ, a, b) <==> HasField(pool, a, b, visibleOnly) { }
    hide Edge, HasField, Successors;
  }

  lemma HashedExactly(pool: Pool, n: Name)
    ensures ReachedFrom(Successors(pool, true), Hashable(pool), n) <==> Hashed(pool, n)
  {
    var succ := Successors(pool, true);
    hide Successors, HasField;
    if r :| r in Hashable(pool) && Reaches(succ, r, n) {
      var p :| Joins(succ, p, r, n);
      NestedIsPath(pool, p, true);
      assert p[0] in Hashable(pool);
    }
    if p: seq<Name> :| Nested(pool, p, true) && p[0] in pool && pool[p[0]].hashable && p[|p| - 1] == n {
      NestedIsPath(pool, p, true);
      assert Joins(succ, p, p[0], n);
      assert p[0] in Hashable(pool) && Reaches(succ, p[0], n);
    }
  }

  lemma RecursiveExactly(pool: Pool, n: Name)
    ensures OnCycle(Successors(pool, false), n) <==> Recursive(pool, n)
  {
    var succ := Successors(pool, false);
    hide Successors, Nested, HasField;
    if b :| Edge(succ, n, b) && Reaches(succ, b, n) {
      var p :| Joins(succ, p, b, n);
      var q := [n] + p;
      assert forall i | 1 <= i < |q| :: q[i] == p[i - 1];
      assert IsPath(succ, q);
      NestedIsPath(pool, q, false);
    }
    if p: seq<Name> :| Nested(pool, p, false) && |p| > 1 && p[0] == n && p[|p| - 1] == n {
      NestedIsPath(pool, p, false);
      var q := p[1..];
      assert Edge(succ, p[0], p[1]);
      assert forall i | 0 <= i < |q| - 1 :: Edge(succ, q[i], q[i + 1]) by {
        assert forall i | 0 <= i < |q| :: q[i] == p[i + 1];
      }
      assert Joins(succ, q, p[1], n);
    }
  }

  // --- The searches ---

  function Hashable(pool: Pool): set<Name> { set n | n in pool && pool[n].hashable }

  method HashableMessages(pool: Pool, all: seq<Name>) returns (queue: seq<Name>)
    requires forall n :: n in all <==> n in pool
    ensures forall n :: n in queue <==> n in Hashable(pool)
  {
    queue := [];
    for i := 0 to |all|
      invariant forall n :: n in queue <==> n in all[..i] && n in Hashable(pool)
    {
      assert all[i] in all;
      if pool[all[i]].hashable {
        queue := queue + [all[i]];
      }
      assert all[..i + 1] == all[..i] + [all[i]];
    }
    assert all[..|all|] == all;
  }

  /** Exactly the messages some hashable message reaches along fields that are
      not metadata. */
  method HashReachable(pool: Pool, all: seq<Name>) returns (reachable: set<Name>)
    requires ClosedPool(pool) && forall n :: n in all <==> n in pool
    ensures forall n :: n in reachable <==> Hashed(pool, n)
  {
    ghost var (succ, roots) := (Successors(pool, true), Hashable(pool));
    var queue := HashableMessages(pool, all);
    reachable := {};
    ExploreStart(succ, roots, queue);
    while queue != []
      invariant forall n | n in queue :: n in pool
      invariant Exploring(succ, roots, reachable, queue)
      decreases |pool.Keys - reachable|, |queue|
    {
      var name := queue[0];
      if name in reachable {
        ExploreSkip(succ, roots, reachable, queue);
        queue := queue[1..];
        continue;
      }
      var nested := NestedMessages(pool[name].fields, true);
      NestedAreEdges(pool, true, name);
      ExploreVisit(succ, roots, reachable, queue, nested);
      VisitShrinks(pool.Keys, reachable, name);
      reachable := reachable + {name};
      queue := queue[1..] + nested;
    }
    ExploreDone(succ, roots, reachable);
    forall n ensures n in reachable <==> Hashed(pool, n) {
      HashedExactly(pool, n);
    }
  }

  /** Whether `start` can contain itself: the search from its fields stops at the
      first sight of it. */
  method ContainsItself(pool: Pool, start: Name) returns (r: bool)
    requires ClosedPool(pool) && start in pool
    ensures r <==> Recursive(pool, start)
  {
    hide Successors, Exploring, OnCycle, ReachedFrom, Recursive;
    RecursiveExactly(pool, start);
    ghost var succ := Successors(pool, false);
    var seen: set<Name> := {};
    var queue := NestedMessages(pool[start].fields, false);
    ghost var roots := set n | n in queue;
    NestedAreEdges(pool, false, start);
    ExploreStart(succ, roots, queue);
    while queue != []
      invariant forall n | n in queue :: n in pool
      invariant start !in seen && Exploring(succ, roots, seen, queue)
      decreases |pool.Keys - seen|, |queue|
    {
      var next := queue[0];
      if next == start {
        ExploreReached(succ, roots, seen, queue, next);
        CycleFound(succ, roots, start);
        return true;
      }
      if next in seen {
        ExploreSkip(succ, roots, seen, queue);
        queue := queue[1..];
        continue;
      }
      var nested := NestedMessages(pool[next].fields, false);
      NestedAreEdges(pool, false, next);
      ExploreVisit(succ, roots, seen, queue, nested);
      VisitShrinks(pool.Keys, seen, next);
      seen := seen + {next};
      queue := queue[1..] + nested;
    }
    ExploreDone(succ, roots, seen);
    CycleFound(succ, roots, start);
    return false;
  }

  lemma CycleFound(succ: Succ<Name>, roots: set<Name>, start: Name)
    requires forall n :: n in roots <==> Edge(succ, start, n)
    ensures ReachedFrom(succ, roots, start) <==> OnCycle(succ, start)
  {
  }

  /** Exactly the messages on a cycle of fields. */
  method SelfReferential(pool: Pool, all: seq<Name>) returns (recursive: set<Name>)
    requires ClosedPool(pool) && forall n :: n in all <==> n in pool
    ensures forall n :: n in recursive <==> n in pool && Recursive(pool, n)
  {
    hide Recursive, ClosedPool;
    recursive := {};
    for i := 0 to |all|
      invariant forall n :: n in recursive <==> n in all[..i] && Recursive(pool, n)
    {
      assert all[i] in all;
      var cyclic := ContainsItself(pool, all[i]);
      if cyclic {
        recursive := recursive + {all[i]};
      }
      assert all[..i + 1] == all[..i] + [all[i]];
    }
    assert all[..|all|] == all;
  }
}
