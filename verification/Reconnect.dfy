/** When an ended stream is opened again (`orchestration/src/stream.rs`,
    `ReconnectPolicy`). Durations are nanoseconds, saturating where Rust's do. */
module Reconnect {
  import opened Bytes

  datatype StreamEnd = NotConnected(retryable: bool) | Closed | Failed(retryable: bool) {
    predicate Retryable() { Closed? || retryable }
  }

  datatype Policy = Policy(first: nat, max: nat, stagger: nat)

  const NANOS := 1_000_000_000
  const MAX_DURATION := TWO64 * NANOS - 1
  /** 366 days. */
  const MAX_INTERVAL := 366 * 24 * 3600 * NANOS

  /** What `validate_reconnect` admits. */
  predicate Validated(p: Policy) {
    0 < p.first <= p.max <= MAX_INTERVAL && p.stagger <= 100
  }

  /** What is refused: no first retry, one above the longest, one longest above 366
      days, or a share above the whole. */
  lemma RefusedPolicies(first: nat, max: nat, stagger: nat)
    ensures !Validated(Policy(first, max, stagger)) <==>
            first == 0 || first > max || max > 31_622_400 * NANOS || stagger > 100
  {
  }

  function Min(a: nat, b: nat): nat { if a < b then a else b }

  function SatMul(d: nat, k: nat): nat { Min(d * k, MAX_DURATION) }

  function SatAdd(d: nat, e: nat): nat { Min(d + e, MAX_DURATION) }

  function Doublings(unproductive: nat): nat { Min(if unproductive == 0 then 0 else unproductive - 1, 31) }

  function Base(p: Policy, unproductive: nat): nat {
    Min(SatMul(p.first, Pow2(Doublings(unproductive))), p.max)
  }

  /** FNV-1a over the endpoint id. */
  function Place(id: seq<bv8>): bv32 { PlaceFrom(0x811c_9dc5, id) }

  function PlaceFrom(hash: bv32, id: seq<bv8>): bv32
    decreases |id|
  {
    if id == [] then hash else PlaceFrom((hash ^ (id[0] as bv32)) * 0x0100_0193, id[1..])
  }

  function Share(p: Policy, id: seq<bv8>): (s: nat)
    ensures s <= p.stagger
  {
    (Place(id) as int) % (p.stagger + 1)
  }

  function Delay(p: Policy, end: StreamEnd, unproductive: nat, id: seq<bv8>): Option<nat> {
    if !end.Retryable() then None else
    var base := Base(p, unproductive);
    Some(SatAdd(base, SatMul(base, Share(p, id)) / 100))
  }

  lemma {:induction false} Pow2Monotone(a: nat, b: nat)
    requires a <= b
    ensures Pow2(a) <= Pow2(b)
    decreases b
  {
    if a < b {
      Pow2Monotone(a, b - 1);
    }
  }

  lemma Pow2At31()
    ensures Pow2(31) == 0x8000_0000
  {
    assert Pow2(8) == 256;
    assert Pow2(16) == 0x1_0000;
    assert Pow2(24) == 0x100_0000;
  }

  lemma Scale(x: nat, y: nat, k: nat)
    requires x <= y
    ensures x * k <= y * k && k * x <= k * y
  {
  }

  /** Under a validated policy nothing saturates: the base is the capped ladder. */
  lemma BaseIsLadder(p: Policy, n: nat)
    requires Validated(p)
    ensures Base(p, n) == Min(p.first * Pow2(Doublings(n)), p.max)
    ensures p.first <= Base(p, n) <= p.max
  {
    Pow2At31();
    Pow2Monotone(Doublings(n), 31);
    Scale(1, Pow2(Doublings(n)), p.first);
    Scale(Pow2(Doublings(n)), 0x8000_0000, p.first);
    Scale(p.first, MAX_INTERVAL, 0x8000_0000);
  }

  /** On the ladder's rungs: doubling from the first retry up to the cap, one rung
      for each unproductive instance after the first, thirty-one at most. */
  lemma BaseOnRung(p: Policy, n: nat)
    requires Validated(p)
    ensures Base(p, 0) == p.first
    ensures 1 <= n <= 32 ==> Base(p, n) == if p.first * Pow2(n - 1) < p.max then p.first * Pow2(n - 1) else p.max
    ensures n >= 32 ==> Base(p, n) == Base(p, 32)
  {
    BaseIsLadder(p, 0);
    BaseIsLadder(p, n);
    BaseIsLadder(p, 32);
    assert Pow2(0) == 1;
  }

  lemma BaseMonotone(p: Policy, m: nat, n: nat)
    requires Validated(p) && m <= n
    ensures Base(p, m) <= Base(p, n)
  {
    BaseIsLadder(p, m);
    BaseIsLadder(p, n);
    Pow2Monotone(Doublings(m), Doublings(n));
    Scale(Pow2(Doublings(m)), Pow2(Doublings(n)), p.first);
  }

  /** The doubling stops after 31 steps, so the cap is reached exactly by policies
      whose first retry can grow that far. */
  lemma CapReached(p: Policy)
    requires Validated(p)
    ensures (exists n :: Base(p, n) == p.max) <==> p.first * 0x8000_0000 >= p.max
  {
    Pow2At31();
    BaseIsLadder(p, 32);
    if exists n :: Base(p, n) == p.max {
      var n :| Base(p, n) == p.max;
      BaseIsLadder(p, n);
      Pow2Monotone(Doublings(n), 31);
      Scale(Pow2(Doublings(n)), 0x8000_0000, p.first);
    }
    assert p.first * 0x8000_0000 >= p.max ==> Base(p, 32) == p.max;
  }

  /** A policy `validate_reconnect` admits and no count brings to its cap: from one
      nanosecond the doubling stops short of three seconds. */
  lemma CapOutOfReach()
    ensures var p := Policy(1, 3 * NANOS, 0);
            Validated(p) && forall n: nat :: Base(p, n) < p.max
  {
    var p := Policy(1, 3 * NANOS, 0);
    CapReached(p);
    forall n: nat ensures Base(p, n) < p.max {
      BaseIsLadder(p, n);
    }
  }

  /** A closed stream, and one whose failure did not say retrying is pointless, is
      retried; no other end is. The delay is the base plus the endpoint's fixed
      share of it, at most the configured percentage. */
  lemma DelayExact(p: Policy, end: StreamEnd, n: nat, id: seq<bv8>)
    requires Validated(p)
    ensures Delay(p, end, n, id).Some? <==> end == Closed || end == NotConnected(true) || end == Failed(true)
    ensures Delay(p, end, n, id).Some? ==>
              var d := Delay(p, end, n, id).value;
              && d == Base(p, n) + Base(p, n) * ((Place(id) as int) % (p.stagger + 1)) / 100
              && p.first <= Base(p, n) <= d <= Base(p, n) + Base(p, n) * p.stagger / 100
              && d <= 2 * p.max
  {
    BaseIsLadder(p, n);
    hide Base, Pow2, Place;
    ShareBound(p, Base(p, n), Share(p, id));
  }

  /** The hash is the published FNV-1a: its offset basis and two of its vectors. */
  lemma PlaceIsFnv1a()
    ensures Place([]) == 0x811c_9dc5
    ensures Place([0x61]) == 0xe40c_292c
    ensures Place([0x66, 0x6f]) == 0x6222_e842
  {
    assert Place([0x61]) == PlaceFrom(0xe40c_292c, [0x61][1..]);
    var fo: seq<bv8> := [0x66, 0x6f];
    assert fo[1..] == [0x6f];
  }

  lemma ShareBound(p: Policy, base: nat, share: nat)
    requires share <= p.stagger <= 100
    ensures base * share / 100 <= base * p.stagger / 100 <= base
  {
    Scale(share, p.stagger, base);
    Scale(p.stagger, 100, base);
    DivMonotone(base * share, base * p.stagger);
    DivMonotone(base * p.stagger, base * 100);
  }

  lemma DivMonotone(x: nat, y: nat)
    requires x <= y
    ensures x / 100 <= y / 100
  {
  }
}
