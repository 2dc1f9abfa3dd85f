/** Uniqueness of keyed elements (`codegen/src/wrapper/plans.rs`): when the keys
    lead the canonical order, one pass over neighbours replaces the set. */
module AdjacentScan {
  import opened Bytes
  import opened Orders
  import opened Schemas
  import opened SchemaOrder
  import opened Canonicalization

  // --- Which scan the generator emits ---

  function SortInts(s: seq<nat>): seq<nat> {
    if s == [] then [] else InsertInt(SortInts(s[1..]), s[0])
  }

  function InsertInt(s: seq<nat>, n: nat): seq<nat> {
    if s == [] then [n] else if n <= s[0] then [n] + s else [s[0]] + InsertInt(s[1..], n)
  }

  function ArmNumberList(arms: seq<Arm>): seq<nat> {
    if arms == [] then [] else [arms[0].number] + ArmNumberList(arms[1..])
  }

  /** Field numbers a plan stands for: a oneof's members are fields too. */
  function FieldNumbers(p: Plan): seq<nat> {
    if p.shape.OneOf? then ArmNumberList(p.shape.arms) else [p.number]
  }

  function VisibleNumbers(plans: seq<Plan>): seq<nat> {
    if plans == [] then []
    else (if plans[0].metadata then [] else FieldNumbers(plans[0])) + VisibleNumbers(plans[1..])
  }

  /** The keys are exactly the leading visible field numbers of a sorted field. */
  predicate ScanSound(plans: seq<Plan>, unordered: bool, keys: seq<nat>) {
    var visible := SortInts(VisibleNumbers(plans));
    unordered && |visible| >= |keys| && visible[..|keys|] == SortInts(keys)
  }

  // --- Keys of elements ---

  /** The slot holding field `number`. */
  function FieldAt(plans: seq<Plan>, slots: seq<Slot>, number: nat): Slot {
    if plans == [] || slots == [] then Absent
    else if plans[0].number == number && !plans[0].shape.OneOf? then slots[0]
    else FieldAt(plans[1..], slots[1..], number)
  }

  function KeyOf(plans: seq<Plan>, keys: seq<nat>, d: Datum): (k: seq<Slot>)
    ensures |k| == |keys|
    ensures d.DMessage? ==> forall i | 0 <= i < |keys| :: k[i] == FieldAt(plans, d.slots, keys[i])
  {
    seq(|keys|, i requires 0 <= i < |keys| => if d.DMessage? then FieldAt(plans, d.slots, keys[i]) else Absent)
  }

  function KeysOf(plans: seq<Plan>, keys: seq<nat>, ds: seq<Datum>): (r: seq<seq<Slot>>)
    ensures |r| == |ds|
    ensures forall i | 0 <= i < |ds| :: r[i] == KeyOf(plans, keys, ds[i])
  {
    seq(|ds|, i requires 0 <= i < |ds| => KeyOf(plans, keys, ds[i]))
  }

  // --- The verdict: the first element repeating an earlier one's key ---

  predicate RepeatAt<T(==)>(keys: seq<T>, i: nat)
    requires i < |keys|
  {
    exists j :: 0 <= j < i && keys[j] == keys[i]
  }

  predicate IsFirstRepeat<T(==)>(keys: seq<T>, r: Option<nat>) {
    match r
    case None => forall i | 0 <= i < |keys| :: !RepeatAt(keys, i)
    case Some(k) => k < |keys| && RepeatAt(keys, k) && forall i | 0 <= i < k :: !RepeatAt(keys, i)
  }

  /** The set-building scan. */
  method SetScan<T(==)>(keys: seq<T>) returns (r: Option<nat>)
    ensures IsFirstRepeat(keys, r)
  {
    var seen: set<T> := {};
    for index := 0 to |keys|
      invariant seen == set i | 0 <= i < index :: keys[i]
      invariant forall i | 0 <= i < index :: !RepeatAt(keys, i)
    {
      if keys[index] in seen {
        return Some(index);
      }
      seen := seen + {keys[index]};
    }
    return None;
  }

  predicate Grouped<T(==)>(keys: seq<T>) {
    forall j, i | 0 <= j < i < |keys| && keys[j] == keys[i] :: keys[i - 1] == keys[i]
  }

  /** The neighbour scan: on grouped keys, the same verdict at the same index. */
  method NeighbourScan<T(==)>(keys: seq<T>) returns (r: Option<nat>)
    requires Grouped(keys)
    ensures IsFirstRepeat(keys, r)
  {
    var index := 1;
    while index < |keys|
      invariant 1 <= index
      invariant forall i | 0 <= i < index && i < |keys| :: !RepeatAt(keys, i)
    {
      if keys[index] == keys[index - 1] {
        return Some(index);
      }
      index := index + 1;
    }
    return None;
  }

  /** The check as generated: the cheap scan where it is sound, over elements
      construction has sorted, and the set otherwise; one verdict either way. */
  method CheckUnique(plans: seq<Plan>, unordered: bool, keys: seq<nat>, ds: seq<Datum>) returns (r: Option<nat>)
    requires WF(Message(plans)) && InFieldOrder(plans) && KeysNameFields(plans, keys)
    requires AllTyped(Message(plans), ds) && (unordered ==> Sorted(Message(plans), ds))
    ensures IsFirstRepeat(KeysOf(plans, keys, ds), r)
  {
    if ScanSound(plans, unordered, keys) {
      SortedKeysGrouped(plans, keys, ds);
      r := NeighbourScan(KeysOf(plans, keys, ds));
    } else {
      r := SetScan(KeysOf(plans, keys, ds));
    }
  }

  // --- Why the keys are grouped ---

  /** Plans stand in field-number order, a oneof by its least member. */
  predicate InFieldOrder(plans: seq<Plan>) {
    && (forall i, j | 0 <= i < j < |plans| :: plans[i].number < plans[j].number)
    && forall p | p in plans :: p.number in Tags(p)
  }

  /** Every key is the number of a visible field outside any oneof. */
  predicate KeysNameFields(plans: seq<Plan>, keys: seq<nat>) {
    forall k | k in keys :: exists p :: p in plans && p.number == k && !p.metadata && !p.shape.OneOf?
  }

  predicate IsKey(p: Plan, keys: seq<nat>) { !p.metadata && !p.shape.OneOf? && p.number in keys }

  /** The schema with every field but the keys put in the tiebreak phase, and the
      one with the keys put there. */
  function OnlyKeys(plans: seq<Plan>, keys: seq<nat>): (r: seq<Plan>)
    ensures |r| == |plans|
    ensures forall i | 0 <= i < |plans| :: r[i] == plans[i].(metadata := !IsKey(plans[i], keys))
  {
    seq(|plans|, i requires 0 <= i < |plans| => plans[i].(metadata := !IsKey(plans[i], keys)))
  }

  function WithoutKeys(plans: seq<Plan>, keys: seq<nat>): (r: seq<Plan>)
    ensures |r| == |plans|
    ensures forall i | 0 <= i < |plans| :: r[i] == plans[i].(metadata := plans[i].metadata || IsKey(plans[i], keys))
  {
    seq(|plans|, i requires 0 <= i < |plans| => plans[i].(metadata := plans[i].metadata || IsKey(plans[i], keys)))
  }

  predicate KeysLead(plans: seq<Plan>, keys: seq<nat>) {
    forall i, j | 0 <= i < j < |plans| && IsKey(plans[j], keys) && !plans[i].metadata :: IsKey(plans[i], keys)
  }

  lemma CmpSlotIgnoresFlag(p: Plan, metadata: bool, a: Slot, b: Slot)
    ensures CmpSlot(p.(metadata := metadata), a, b) == CmpSlot(p, a, b)
  {
  }

  lemma {:induction false} NoPhase(plans: seq<Plan>, a: seq<Slot>, b: seq<Slot>)
    requires forall p | p in plans :: p.metadata
    ensures CmpPhase(plans, a, b, false) == Equal
  {
    if plans != [] && a != [] && b != [] {
      NoPhase(plans[1..], a[1..], b[1..]);
    }
  }

  /** Leading keys are compared first: the visible phase is the keys' phase, then
      the other visible fields'. */
  lemma {:induction false} KeysDecideFirst(plans: seq<Plan>, keys: seq<nat>, a: seq<Slot>, b: seq<Slot>)
    requires KeysLead(plans, keys)
    ensures CmpPhase(plans, a, b, false) ==
            CmpPhase(OnlyKeys(plans, keys), a, b, false).Then(CmpPhase(WithoutKeys(plans, keys), a, b, false))
  {
    if plans != [] && a != [] && b != [] {
      var (p, rest) := (plans[0], plans[1..]);
      assert OnlyKeys(plans, keys)[1..] == OnlyKeys(rest, keys);
      assert WithoutKeys(plans, keys)[1..] == WithoutKeys(rest, keys);
      CmpSlotIgnoresFlag(p, true, a[0], b[0]);
      CmpSlotIgnoresFlag(p, false, a[0], b[0]);
      KeysDecideFirst(rest, keys, a[1..], b[1..]);
      if !p.metadata && !IsKey(p, keys) {
        forall q | q in OnlyKeys(rest, keys) ensures q.metadata {
          var i :| 0 <= i < |rest| && OnlyKeys(rest, keys)[i] == q;
          assert plans[i + 1] == rest[i];
        }
        NoPhase(OnlyKeys(rest, keys), a[1..], b[1..]);
      }
    }
  }

  lemma OnlyKeysWF(plans: seq<Plan>, keys: seq<nat>, slots: seq<Slot>)
    requires WFPlans(plans) && TypedSlots(plans, slots)
    ensures WFPlans(OnlyKeys(plans, keys)) && TypedSlots(OnlyKeys(plans, keys), slots)
  {
    var r := OnlyKeys(plans, keys);
    forall i, j | 0 <= i < j < |r| ensures Tags(r[i]) !! Tags(r[j]) {
      assert Tags(r[i]) == Tags(plans[i]) && Tags(r[j]) == Tags(plans[j]);
    }
    forall p | p in r ensures WFPlan(p) {
      var i :| 0 <= i < |r| && r[i] == p;
      assert WFPlan(plans[i]) && Tags(p) == Tags(plans[i]);
    }
    forall i | 0 <= i < |r| ensures TypedSlot(r[i], slots[i]) {
      TypedAt(plans, slots, i);
    }
    TypedAll(r, slots);
  }

  lemma {:induction false} KeysGiveSlots(plans: seq<Plan>, keys: seq<nat>, a: seq<Slot>, b: seq<Slot>)
    requires |plans| == |a| == |b| && InFieldOrder(plans)
    requires forall k | 0 <= k < |keys| :: FieldAt(plans, a, keys[k]) == FieldAt(plans, b, keys[k])
    ensures SamePhase(OnlyKeys(plans, keys), a, b, false)
  {
    forall i | 0 <= i < |plans| && IsKey(plans[i], keys) ensures a[i] == b[i] {
      var k :| 0 <= k < |keys| && keys[k] == plans[i].number;
      FieldAtIndex(plans, a, i);
      FieldAtIndex(plans, b, i);
    }
  }

  lemma {:induction false} SlotsGiveKeys(plans: seq<Plan>, keys: seq<nat>, a: seq<Slot>, b: seq<Slot>)
    requires |plans| == |a| == |b| && InFieldOrder(plans) && KeysNameFields(plans, keys)
    requires SamePhase(OnlyKeys(plans, keys), a, b, false)
    ensures forall k | 0 <= k < |keys| :: FieldAt(plans, a, keys[k]) == FieldAt(plans, b, keys[k])
  {
    forall k | 0 <= k < |keys| ensures FieldAt(plans, a, keys[k]) == FieldAt(plans, b, keys[k]) {
      assert keys[k] in keys;
      var p :| p in plans && p.number == keys[k] && !p.metadata && !p.shape.OneOf?;
      var i :| 0 <= i < |plans| && plans[i] == p;
      FieldAtIndex(plans, a, i);
      FieldAtIndex(plans, b, i);
      assert !OnlyKeys(plans, keys)[i].metadata;
    }
  }

  /** Equal keys and the keys' phase agree. */
  lemma KeyIsPhase(plans: seq<Plan>, keys: seq<nat>, a: Datum, b: Datum)
    requires WF(Message(plans)) && InFieldOrder(plans) && KeysNameFields(plans, keys)
    requires Typed(Message(plans), a) && Typed(Message(plans), b)
    ensures KeyOf(plans, keys, a) == KeyOf(plans, keys, b) <==>
            CmpPhase(OnlyKeys(plans, keys), a.slots, b.slots, false) == Equal
  {
    assert TypedSlots(plans, a.slots) && TypedSlots(plans, b.slots);
    OnlyKeysWF(plans, keys, a.slots);
    OnlyKeysWF(plans, keys, b.slots);
    CmpPhaseEqual(OnlyKeys(plans, keys), a.slots, b.slots, false);
    hide WF, Typed, TypedSlots, CmpPhase, SamePhase, InFieldOrder, KeysNameFields;
    var (x, y) := (KeyOf(plans, keys, a), KeyOf(plans, keys, b));
    if x == y {
      forall k | 0 <= k < |keys| ensures FieldAt(plans, a.slots, keys[k]) == FieldAt(plans, b.slots, keys[k]) {
        assert x[k] == y[k];
      }
      KeysGiveSlots(plans, keys, a.slots, b.slots);
    }
    if SamePhase(OnlyKeys(plans, keys), a.slots, b.slots, false) {
      SlotsGiveKeys(plans, keys, a.slots, b.slots);
    }
  }

  lemma {:induction false} FieldAtIndex(plans: seq<Plan>, slots: seq<Slot>, i: nat)
    requires i < |plans| == |slots| && !plans[i].shape.OneOf?
    requires forall i, j | 0 <= i < j < |plans| :: plans[i].number < plans[j].number
    ensures FieldAt(plans, slots, plans[i].number) == slots[i]
  {
    if i > 0 {
      assert plans[1..][i - 1] == plans[i];
      FieldAtIndex(plans[1..], slots[1..], i - 1);
    }
  }

  // --- The generator's test puts the keys in the lead ---

  predicate Ascending(s: seq<nat>) {
    forall i, j | 0 <= i < j < |s| :: s[i] <= s[j]
  }

  lemma ConsAscending(n: nat, s: seq<nat>)
    requires Ascending(s) && forall x | x in s :: n <= x
    ensures Ascending([n] + s)
  {
    var r := [n] + s;
    forall i, j | 0 <= i < j < |r| ensures r[i] <= r[j] {
      assert r[j] == s[j - 1] && s[j - 1] in s;
      if i > 0 {
        assert r[i] == s[i - 1];
      }
    }
  }

  lemma {:induction false} InsertIntFacts(s: seq<nat>, n: nat)
    requires Ascending(s)
    ensures forall x :: x in InsertInt(s, n) <==> x in s || x == n
    ensures |InsertInt(s, n)| == |s| + 1 && Ascending(InsertInt(s, n))
  {
    if s != [] {
      var (first, rest) := (s[0], s[1..]);
      assert s == [first] + rest;
      assert forall x | x in rest :: first <= x;
      InsertIntFacts(rest, n);
      if n <= first {
        ConsAscending(n, s);
      } else {
        ConsAscending(first, InsertInt(rest, n));
      }
    }
  }

  lemma {:induction false} SortIntsFacts(s: seq<nat>)
    ensures forall x :: x in SortInts(s) <==> x in s
    ensures |SortInts(s)| == |s| && Ascending(SortInts(s))
  {
    if s != [] {
      assert s == [s[0]] + s[1..];
      SortIntsFacts(s[1..]);
      InsertIntFacts(SortInts(s[1..]), s[0]);
    }
  }

  lemma {:induction false} ArmNumberListFacts(arms: seq<Arm>)
    ensures forall n :: n in ArmNumberList(arms) <==> n in ArmNumbers(arms)
  {
    if arms != [] {
      assert arms == [arms[0]] + arms[1..];
      ArmNumberListFacts(arms[1..]);
    }
  }

  lemma {:induction false} VisibleNumbersFacts(plans: seq<Plan>, n: nat)
    ensures n in VisibleNumbers(plans) <==> exists p :: p in plans && !p.metadata && n in Tags(p)
  {
    if plans != [] {
      assert plans == [plans[0]] + plans[1..];
      VisibleNumbersFacts(plans[1..], n);
      if plans[0].shape.OneOf? {
        ArmNumberListFacts(plans[0].shape.arms);
      }
      assert n in FieldNumbers(plans[0]) <==> n in Tags(plans[0]);
    }
  }

  lemma ScanSoundLeads(plans: seq<Plan>, keys: seq<nat>)
    requires WF(Message(plans)) && InFieldOrder(plans) && KeysNameFields(plans, keys)
    requires ScanSound(plans, true, keys)
    ensures KeysLead(plans, keys)
  {
    var visible := SortInts(VisibleNumbers(plans));
    SortIntsFacts(VisibleNumbers(plans));
    SortIntsFacts(keys);
    forall i, j | 0 <= i < j < |plans| && IsKey(plans[j], keys) && !plans[i].metadata
      ensures IsKey(plans[i], keys)
    {
      var (n, k) := (plans[i].number, plans[j].number);
      assert plans[i] in plans && n in Tags(plans[i]);
      VisibleNumbersFacts(plans, n);
      var x :| 0 <= x < |visible| && visible[x] == n;
      assert k in visible[..|keys|];
      var y :| 0 <= y < |keys| && visible[y] == k;
      assert x < |keys|;
      assert n in visible[..|keys|] && n in keys;
      var p :| p in plans && p.number == n && !p.metadata && !p.shape.OneOf?;
      var z :| 0 <= z < |plans| && plans[z] == p;
      assert z == i;
    }
  }

  /** Between two elements of one key, in sorted order, every element has it. */
  lemma KeySqueezed(plans: seq<Plan>, keys: seq<nat>, a: Datum, b: Datum, c: Datum)
    requires WF(Message(plans)) && InFieldOrder(plans) && KeysNameFields(plans, keys) && KeysLead(plans, keys)
    requires Typed(Message(plans), a) && Typed(Message(plans), b) && Typed(Message(plans), c)
    requires Le(Message(plans), a, b) && Le(Message(plans), b, c)
    requires KeyOf(plans, keys, a) == KeyOf(plans, keys, c)
    ensures KeyOf(plans, keys, b) == KeyOf(plans, keys, c)
  {
    var only := OnlyKeys(plans, keys);
    assert TypedSlots(plans, a.slots) && TypedSlots(plans, b.slots) && TypedSlots(plans, c.slots);
    KeysDecideFirst(plans, keys, a.slots, b.slots);
    KeysDecideFirst(plans, keys, b.slots, c.slots);
    KeyIsPhase(plans, keys, a, c);
    KeyIsPhase(plans, keys, b, c);
    OnlyKeysWF(plans, keys, a.slots);
    OnlyKeysWF(plans, keys, b.slots);
    OnlyKeysWF(plans, keys, c.slots);
    CmpPhaseFlip(only, a.slots, b.slots, false);
    CmpPhaseFlip(only, a.slots, c.slots, false);
    PhaseChain(only, b.slots, a.slots, c.slots, false);
  }

  lemma SortedKeysGrouped(plans: seq<Plan>, keys: seq<nat>, ds: seq<Datum>)
    requires WF(Message(plans)) && InFieldOrder(plans) && KeysNameFields(plans, keys)
    requires ScanSound(plans, true, keys)
    requires AllTyped(Message(plans), ds) && Sorted(Message(plans), ds)
    ensures Grouped(KeysOf(plans, keys, ds))
  {
    ScanSoundLeads(plans, keys);
    var r := KeysOf(plans, keys, ds);
    forall j, i | 0 <= j < i < |ds| && r[j] == r[i] ensures r[i - 1] == r[i] {
      if j < i - 1 {
        assert ds[j] in ds && ds[i - 1] in ds && ds[i] in ds;
        KeySqueezed(plans, keys, ds[j], ds[i - 1], ds[i]);
      }
    }
  }

  // --- Repeats do not depend on the order ---

  predicate KeysApart(plans: seq<Plan>, keys: seq<nat>, ds: seq<Datum>) {
    forall i, j | 0 <= i < j < |ds| :: KeyOf(plans, keys, ds[i]) != KeyOf(plans, keys, ds[j])
  }

  predicate KeyFree(plans: seq<Plan>, keys: seq<nat>, ds: seq<Datum>, d: Datum) {
    forall i | 0 <= i < |ds| :: KeyOf(plans, keys, ds[i]) != KeyOf(plans, keys, d)
  }

  /** The scans find nothing exactly when all keys differ. */
  lemma {:induction false} NoRepeatIsApart(plans: seq<Plan>, keys: seq<nat>, ds: seq<Datum>)
    ensures IsFirstRepeat(KeysOf(plans, keys, ds), None) <==> KeysApart(plans, keys, ds)
  {
    hide KeyOf;
    var ks := KeysOf(plans, keys, ds);
    if IsFirstRepeat(ks, None) {
      forall i, j | 0 <= i < j < |ds| ensures KeyOf(plans, keys, ds[i]) != KeyOf(plans, keys, ds[j]) {
        assert !RepeatAt(ks, j);
      }
    }
  }

  lemma {:induction false} ConsApart(plans: seq<Plan>, keys: seq<nat>, d: Datum, ds: seq<Datum>)
    ensures KeysApart(plans, keys, [d] + ds) <==> KeysApart(plans, keys, ds) && KeyFree(plans, keys, ds, d)
  {
    hide KeyOf;
    var all := [d] + ds;
    assert all[0] == d && forall i | 0 <= i < |ds| :: all[i + 1] == ds[i];
    if KeysApart(plans, keys, all) {
      forall i | 0 <= i < |ds| ensures KeyOf(plans, keys, ds[i]) != KeyOf(plans, keys, d) {
        assert all[i + 1] == ds[i];
      }
      forall i, j | 0 <= i < j < |ds| ensures KeyOf(plans, keys, ds[i]) != KeyOf(plans, keys, ds[j]) {
        assert all[i + 1] == ds[i] && all[j + 1] == ds[j];
      }
    }
  }

  lemma {:induction false} SnocApart(plans: seq<Plan>, keys: seq<nat>, ds: seq<Datum>, d: Datum)
    ensures KeysApart(plans, keys, ds + [d]) <==> KeysApart(plans, keys, ds) && KeyFree(plans, keys, ds, d)
  {
    hide KeyOf;
    var all := ds + [d];
    assert all[|ds|] == d && forall i | 0 <= i < |ds| :: all[i] == ds[i];
  }

  lemma {:induction false} SameFree(plans: seq<Plan>, keys: seq<nat>, a: seq<Datum>, b: seq<Datum>, d: Datum)
    requires forall x :: x in a <==> x in b
    ensures KeyFree(plans, keys, a, d) <==> KeyFree(plans, keys, b, d)
  {
    hide KeyOf;
    if KeyFree(plans, keys, a, d) {
      forall i | 0 <= i < |b| ensures KeyOf(plans, keys, b[i]) != KeyOf(plans, keys, d) { assert b[i] in a; }
    }
    if KeyFree(plans, keys, b, d) {
      forall i | 0 <= i < |a| ensures KeyOf(plans, keys, a[i]) != KeyOf(plans, keys, d) { assert a[i] in b; }
    }
  }

  lemma {:induction false} FreeInserted(plans: seq<Plan>, keys: seq<nat>, rest: seq<Datum>, more: seq<Datum>,
      d: Datum, first: Datum)
    requires forall x :: x in more <==> x in rest || x == d
    ensures KeyFree(plans, keys, more, first) && KeyFree(plans, keys, rest, d) <==>
            KeyFree(plans, keys, rest, first) && KeyFree(plans, keys, [first] + rest, d)
  {
    SameFree(plans, keys, more, rest + [d], first);
    hide KeyOf;
    var (a, b) := (rest + [d], [first] + rest);
    assert a[|rest|] == d && forall i | 0 <= i < |rest| :: a[i] == rest[i];
    assert b[0] == first && forall i | 0 <= i < |rest| :: b[i + 1] == rest[i];
  }

  lemma {:induction false} InsertApart(t: Type, plans: seq<Plan>, keys: seq<nat>, ds: seq<Datum>, d: Datum)
    ensures KeysApart(plans, keys, InsertBy(t, ds, d)) <==> KeysApart(plans, keys, ds) && KeyFree(plans, keys, ds, d)
  {
    hide Cmp, KeysApart, KeyFree;
    if ds == [] {
      ConsApart(plans, keys, d, []);
      assert [d] + [] == [d];
    } else if Cmp(t, d, ds[0]) == Less {
      ConsApart(plans, keys, d, ds);
    } else {
      var (first, rest) := (ds[0], ds[1..]);
      InsertApart(t, plans, keys, rest, d);
      InsertByContents(t, rest, d);
      ConsApart(plans, keys, first, InsertBy(t, rest, d));
      ConsApart(plans, keys, first, rest);
      assert ds == [first] + rest;
      FreeInserted(plans, keys, rest, InsertBy(t, rest, d), d, first);
    }
  }

  lemma {:induction false} SortApart(t: Type, plans: seq<Plan>, keys: seq<nat>, ds: seq<Datum>)
    ensures KeysApart(plans, keys, SortBy(t, ds)) <==> KeysApart(plans, keys, ds)
    ensures forall x :: x in SortBy(t, ds) <==> x in ds
  {
    hide KeysApart, KeyFree, InsertBy;
    if ds != [] {
      var (init, last) := (ds[..|ds| - 1], ds[|ds| - 1]);
      SortApart(t, plans, keys, init);
      InsertApart(t, plans, keys, SortBy(t, init), last);
      InsertByContents(t, SortBy(t, init), last);
      SameFree(plans, keys, SortBy(t, init), init, last);
      SnocApart(plans, keys, init, last);
      assert ds == init + [last];
    }
  }
}
