/** Finite directed graphs given by successor lists, and reachability by paths:
    the specification the worklists are held to. */
module Graphs {
  type Succ<!N> = map<N, seq<N>>

  predicate Edge<N(==)>(succ: Succ<N>, a: N, b: N) { a in succ && b in succ[a] }

  ghost predicate IsPath<N>(succ: Succ<N>, p: seq<N>) {
    |p| >= 1 && forall i | 0 <= i < |p| - 1 :: Edge(succ, p[i], p[i + 1])
  }

  ghost predicate Joins<N>(succ: Succ<N>, p: seq<N>, a: N, b: N) {
    IsPath(succ, p) && p[0] == a && p[|p| - 1] == b
  }

  /** Some path, of any length, leads from `a` to `b`. */
  ghost predicate Reaches<N(!new)>(succ: Succ<N>, a: N, b: N) {
    exists p :: Joins(succ, p, a, b)
  }

  /** Some path of at least one step leads from `a` back to it. */
  ghost predicate OnCycle<N(!new)>(succ: Succ<N>, a: N) {
    exists b :: Edge(succ, a, b) && Reaches(succ, b, a)
  }

  lemma ReachesSelf<N(!new)>(succ: Succ<N>, a: N)
    ensures Reaches(succ, a, a)
  {
    assert Joins(succ, [a], a, a);
  }

  lemma ReachesStep<N(!new)>(succ: Succ<N>, a: N, b: N, c: N)
    requires Reaches(succ, a, b) && Edge(succ, b, c)
    ensures Reaches(succ, a, c)
  {
    var p :| Joins(succ, p, a, b);
    var q := p + [c];
    forall i | 0 <= i < |q| - 1 ensures Edge(succ, q[i], q[i + 1]) {
      if i < |p| - 1 {
        assert Edge(succ, p[i], p[i + 1]);
      }
    }
    assert Joins(succ, q, a, c);
  }

  ghost predicate Closed<N(!new)>(succ: Succ<N>, s: set<N>) {
    forall a, b | a in s && Edge(succ, a, b) :: b in s
  }

  lemma {:induction false} ClosedKeepsPath<N(!new)>(succ: Succ<N>, s: set<N>, p: seq<N>)
    requires Closed(succ, s) && IsPath(succ, p) && p[0] in s
    ensures p[|p| - 1] in s
    decreases |p|
  {
    if |p| > 1 {
      assert Edge(succ, p[0], p[1]);
      var rest := p[1..];
      forall i | 0 <= i < |rest| - 1 ensures Edge(succ, rest[i], rest[i + 1]) {
        assert Edge(succ, p[i + 1], p[i + 2]);
      }
      ClosedKeepsPath(succ, s, rest);
    }
  }

  /** A closed set holds everything its members reach. */
  lemma ClosedHoldsReachable<N(!new)>(succ: Succ<N>, s: set<N>, a: N, b: N)
    requires Closed(succ, s) && a in s && Reaches(succ, a, b)
    ensures b in s
  {
    var p :| Joins(succ, p, a, b);
    ClosedKeepsPath(succ, s, p);
  }

  /** Every node an edge leads to. */
  function Targets<N>(succ: Succ<N>): set<N> {
    set a, b | a in succ && b in succ[a] :: b
  }

  // --- Worklists ---

  ghost predicate ReachedFrom<N(!new)>(succ: Succ<N>, roots: set<N>, n: N) {
    exists r :: r in roots && Reaches(succ, r, n)
  }

  /** A search in progress: everything seen or queued is reached from a root, and
      whatever a seen node leads to is seen or queued. */
  ghost predicate Exploring<N(!new)>(succ: Succ<N>, roots: set<N>, seen: set<N>, queue: seq<N>) {
    && (forall n | n in seen || n in queue :: ReachedFrom(succ, roots, n))
    && (forall r | r in roots :: r in seen || r in queue)
    && (forall a, b | a in seen && Edge(succ, a, b) :: b in seen || b in queue)
  }

  lemma ExploreStart<N(!new)>(succ: Succ<N>, roots: set<N>, queue: seq<N>)
    requires forall n :: n in queue <==> n in roots
    ensures Exploring(succ, roots, {}, queue)
  {
    forall n | n in queue ensures ReachedFrom(succ, roots, n) { ReachesSelf(succ, n); }
  }

  lemma ExploreReached<N(!new)>(succ: Succ<N>, roots: set<N>, seen: set<N>, queue: seq<N>, n: N)
    requires Exploring(succ, roots, seen, queue) && n in queue
    ensures ReachedFrom(succ, roots, n)
  {
  }

  lemma ExploreSkip<N(!new)>(succ: Succ<N>, roots: set<N>, seen: set<N>, queue: seq<N>)
    requires Exploring(succ, roots, seen, queue) && queue != [] && queue[0] in seen
    ensures Exploring(succ, roots, seen, queue[1..])
  {
    assert forall n :: n in queue <==> n == queue[0] || n in queue[1..];
  }

  lemma ExploreVisit<N(!new)>(succ: Succ<N>, roots: set<N>, seen: set<N>, queue: seq<N>, nested: seq<N>)
    requires Exploring(succ, roots, seen, queue) && queue != []
    requires forall b :: b in nested <==> Edge(succ, queue[0], b)
    ensures Exploring(succ, roots, seen + {queue[0]}, queue[1..] + nested)
  {
    var (next, rest) := (queue[0], queue[1..]);
    assert forall n :: n in queue <==> n == next || n in rest;
    assert forall n :: n in rest + nested <==> n in rest || n in nested;
    ExploreReached(succ, roots, seen, queue, next);
    forall b | b in nested ensures ReachedFrom(succ, roots, b) {
      var r :| r in roots && Reaches(succ, r, next);
      ReachesStep(succ, r, next, b);
    }
  }

  /** A finished search has seen exactly what the roots reach. */
  lemma ExploreDone<N(!new)>(succ: Succ<N>, roots: set<N>, seen: set<N>)
    requires Exploring(succ, roots, seen, [])
    ensures forall n :: n in seen <==> ReachedFrom(succ, roots, n)
  {
    forall n | ReachedFrom(succ, roots, n) ensures n in seen {
      var r :| r in roots && Reaches(succ, r, n);
      ClosedHoldsReachable(succ, seen, r, n);
    }
  }

  lemma VisitShrinks<N>(universe: set<N>, seen: set<N>, next: N)
    requires next in universe && next !in seen
    ensures |universe - (seen + {next})| < |universe - seen|
  {
    var left := universe - seen;
    assert universe - (seen + {next}) == left - {next} && next in left;
  }
}
