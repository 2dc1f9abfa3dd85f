/** One decoded document under its schema (`codegen/src/projection/index.rs`), read
    along many paths at once: which chains and assemblies it can leave without a
    value, and how two documents combine along paths that stand apart. */
module SourceDocuments {
  import opened Bytes
  import opened ReadChains

  // --- Schemas and the documents that decode under them ---

  datatype Schema = Leaf | Record(properties: map<string, Property>)

  datatype Property = Property(shape: Shape, of: Schema)

  /** The steps name a leaf of the schema, each with its declared shape. */
  predicate Resolves(s: Schema, steps: seq<Step>)
    decreases steps
  {
    if steps == [] then s.Leaf?
    else
      && s.Record? && steps[0].property in s.properties
      && s.properties[steps[0].property].shape == steps[0].shape
      && Resolves(s.properties[steps[0].property].of, steps[1..])
  }

  predicate Decodes(s: Schema, d: Doc)
    decreases s
  {
    match s
    case Leaf => d.Scalar?
    case Record(properties) => d.Object? && forall k | k in properties :: FieldDecodes(properties[k], Lookup(d, k))
  }

  predicate FieldDecodes(p: Property, presence: Presence)
    decreases p
  {
    Admits(p.shape, presence) && (presence.Present? ==> Decodes(p.of, presence.doc))
  }

  lemma {:induction false} DecodedConforms(s: Schema, d: Doc, steps: seq<Step>)
    requires Resolves(s, steps) && Decodes(s, d)
    ensures Conforms(d, steps)
    decreases steps
  {
    if steps != [] {
      var k := steps[0].property;
      assert FieldDecodes(s.properties[k], Lookup(d, k));
      if Lookup(d, k).Present? {
        DecodedConforms(s.properties[k].of, Lookup(d, k).doc, steps[1..]);
      }
    }
  }

  lemma {:induction false} FoundIsLeaf(s: Schema, d: Doc, steps: seq<Step>)
    requires Resolves(s, steps) && Decodes(s, d) && Walk(d, steps).Found?
    ensures Walk(d, steps).doc.Scalar?
    decreases steps
  {
    if steps != [] {
      var k := steps[0].property;
      assert FieldDecodes(s.properties[k], Lookup(d, k));
      FoundIsLeaf(s.properties[k].of, Lookup(d, k).doc, steps[1..]);
    }
  }

  function Names(steps: seq<Step>): seq<string> {
    if steps == [] then [] else [steps[0].property] + Names(steps[1..])
  }

  /** A document saying as little as the schema allows, with chosen leaves. */
  function Least(s: Schema, at: seq<string>, pick: seq<string> -> int): Doc
    decreases s
  {
    match s
    case Leaf => Scalar(pick(at))
    case Record(properties) => Object(map k | k in properties :: LeastField(properties[k], at + [k], pick))
  }

  function LeastField(p: Property, at: seq<string>, pick: seq<string> -> int): Presence
    decreases p
  {
    match p.shape
    case Bare => Present(Least(p.of, at, pick))
    case RequiredNullable => Null
    case _ => Missing
  }

  lemma {:induction false} LeastDecodes(s: Schema, at: seq<string>, pick: seq<string> -> int)
    ensures Decodes(s, Least(s, at, pick))
    decreases s
  {
    if s.Record? {
      forall k | k in s.properties
        ensures FieldDecodes(s.properties[k], Lookup(Least(s, at, pick), k))
      {
        assert s.properties[k].of < s.properties[k] < s;
        LeastDecodes(s.properties[k].of, at + [k], pick);
      }
    }
  }

  lemma {:induction false} LeastWalk(s: Schema, at: seq<string>, pick: seq<string> -> int, q: seq<Step>)
    requires Resolves(s, q)
    ensures AllBare(q) ==> Walk(Least(s, at, pick), q) == Found(Scalar(pick(at + Names(q))))
    ensures !AllBare(q) ==> !Walk(Least(s, at, pick), q).Found?
    decreases q
  {
    if q == [] {
      assert at + [] == at;
    } else {
      var k := q[0].property;
      LeastWalk(s.properties[k].of, at + [k], pick, q[1..]);
      assert (at + [k]) + Names(q[1..]) == at + Names(q);
      assert AllBare(q) <==> q[0].shape.Bare? && AllBare(q[1..]) by { assert q == [q[0]] + q[1..]; }
    }
  }

  // --- One path chosen, the rest least ---

  function Along(s: Schema, p: seq<Step>, leaf: Presence): Doc
    requires Resolves(s, p)
    decreases p
  {
    if p == [] then Scalar(0)
    else
      var rest := Least(s, [], _ => 0);
      Object(Members(rest)[p[0].property :=
        if |p| == 1 then leaf else Present(Along(s.properties[p[0].property].of, p[1..], leaf))])
  }

  function Members(d: Doc): map<string, Presence> { if d.Object? then d.members else map[] }

  lemma {:induction false} AlongDecodes(s: Schema, p: seq<Step>, leaf: Presence)
    requires Resolves(s, p) && p != [] && Admits(p[|p| - 1].shape, leaf) && (leaf.Present? ==> leaf.doc.Scalar?)
    requires forall i | 0 <= i < |p| - 1 :: p[i].shape.Bare? || p[i].shape.Optional?
    ensures Decodes(s, Along(s, p, leaf))
    decreases p
  {
    var (k, d) := (p[0].property, Along(s, p, leaf));
    LeastDecodes(s, [], _ => 0);
    if |p| > 1 {
      assert p[1..][|p| - 2] == p[|p| - 1];
      AlongDecodes(s.properties[k].of, p[1..], leaf);
    } else {
      assert s.properties[k].of.Leaf?;
    }
    forall j | j in s.properties ensures FieldDecodes(s.properties[j], Lookup(d, j)) {
      if j != k {
        assert Lookup(d, j) == Lookup(Least(s, [], _ => 0), j);
      } else if |p| > 1 {
        assert p[0].shape.Bare? || p[0].shape.Optional?;
      }
    }
  }

  function LeafReading(leaf: Presence): Reading {
    match leaf
    case Missing => Absent
    case Null => ExplicitNull
    case Present(d) => Found(d)
  }

  lemma {:induction false} AlongWalk(s: Schema, p: seq<Step>, leaf: Presence)
    requires Resolves(s, p) && p != []
    ensures Walk(Along(s, p, leaf), p) == LeafReading(leaf)
    decreases p
  {
    if |p| > 1 {
      AlongWalk(s.properties[p[0].property].of, p[1..], leaf);
    } else {
      assert p[1..] == [];
    }
  }

  /** Wherever the path `p` is followed, `q` is found too: past where they part, `q`
      is required and non-nullable throughout. */
  predicate Covers(q: seq<Step>, p: seq<Step>) {
    q == [] || (if p != [] && q[0].property == p[0].property then Covers(q[1..], p[1..]) else AllBare(q))
  }

  lemma {:induction false} AlongOther(s: Schema, p: seq<Step>, leaf: Presence, q: seq<Step>)
    requires Resolves(s, p) && Resolves(s, q) && p != q && !Covers(q, p)
    ensures !Walk(Along(s, p, leaf), q).Found?
    decreases p
  {
    if p != [] {
      var (k, j) := (p[0].property, q[0].property);
      if j == k {
        assert p == [p[0]] + p[1..] && q == [q[0]] + q[1..];
        if |p| > 1 {
          AlongOther(s.properties[k].of, p[1..], leaf, q[1..]);
        }
      } else {
        LeastWalk(s, [], _ => 0, q);
        assert Lookup(Along(s, p, leaf), j) == Lookup(Least(s, [], _ => 0), j);
      }
    }
  }

  lemma {:induction false} CoveredIsFound(s: Schema, d: Doc, p: seq<Step>, q: seq<Step>)
    requires Decodes(s, d) && Resolves(s, p) && Resolves(s, q) && p != q && Covers(q, p)
    requires forall i | 0 <= i < |p| - 1 :: p[i].shape.Bare? || p[i].shape.Optional?
    requires !Walk(d, p).Absent?
    ensures Walk(d, q).Found?
    decreases p
  {
    if p != [] && q != [] && q[0].property == p[0].property {
      var k := p[0].property;
      assert p == [p[0]] + p[1..] && q == [q[0]] + q[1..];
      assert FieldDecodes(s.properties[k], Lookup(d, k));
      assert |p| > 1 && |q| > 1;
      assert p[0].shape.Bare? || p[0].shape.Optional?;
      CoveredIsFound(s.properties[k].of, Lookup(d, k).doc, p[1..], q[1..]);
    } else {
      DecodedConforms(s, d, q);
      BareIsFound(d, q);
    }
  }

  // --- When a chain can go without a value ---

  /** Answered or not, with nothing converted. */
  predicate Valueless(a: Answer) { a.Answer? && a.value.None? }

  /** A chain as the lint admits it: each member's path a leaf of the schema, read
      without conflation, and no source read twice. */
  predicate Admitted(s: Schema, chain: seq<Member>) {
    && (forall i | 0 <= i < |chain| ::
          chain[i].steps != [] && Resolves(s, chain[i].steps) && Readable(chain[i]))
    && forall i, j | 0 <= i < j < |chain| :: chain[i].steps != chain[j].steps
  }

  /** An earlier member answers whenever this one would. */
  predicate Shadowed(chain: seq<Member>, i: nat)
    requires i < |chain|
  {
    exists k | 0 <= k < i :: Covers(chain[k].steps, chain[i].steps)
  }

  /** Whatever this member's leaf holds, an answer by it has a value. */
  ghost predicate Solid(m: Member)
    requires m.steps != []
  {
    && (forall x :: !Valueless(m.conversion.run(Scalar(x))))
    && !(m.nullInvalid && Admits(m.steps[|m.steps| - 1].shape, Null))
  }

  /** Some member is always present, and each one up to it that can be the first to
      answer always has a value when it does. */
  ghost predicate Sure(chain: seq<Member>)
    requires forall i | 0 <= i < |chain| :: chain[i].steps != []
  {
    exists j :: 0 <= j < |chain| && SureAt(chain, j)
  }

  ghost predicate SureAt(chain: seq<Member>, j: nat)
    requires j < |chain| && forall i | 0 <= i < |chain| :: chain[i].steps != []
  {
    AllBare(chain[j].steps) && forall i | 0 <= i <= j :: Shadowed(chain, i) || Solid(chain[i])
  }

  /** The member whose answer is the chain's, or none. */
  lemma {:induction false} FirstAnswer(d: Doc, chain: seq<Member>, primary: Member) returns (a: nat)
    ensures a <= |chain| && forall i | 0 <= i < a :: MemberAnswer(d, chain[i]).None?
    ensures a < |chain| ==> MemberAnswer(d, chain[a]) == Some(ChainAnswer(d, chain, primary))
    ensures a == |chain| ==> ChainAnswer(d, chain, primary) == NoAnswer(primary)
  {
    if chain == [] || MemberAnswer(d, chain[0]).Some? {
      a := 0;
    } else {
      var b := FirstAnswer(d, chain[1..], primary);
      a := b + 1;
      assert forall i | 1 <= i < |chain| :: chain[i] == chain[1..][i - 1];
    }
  }

  lemma PlainPrefix(m: Member)
    requires m.steps != [] && Readable(m)
    ensures forall i | 0 <= i < |m.steps| - 1 :: m.steps[i].shape.Bare? || m.steps[i].shape.Optional?
  {
    var prefix := m.steps[..|m.steps| - 1];
    assert forall i | 0 <= i < |prefix| :: prefix[i] == m.steps[i];
  }

  lemma {:induction false} SureHasValue(s: Schema, d: Doc, chain: seq<Member>, primary: Member)
    requires Admitted(s, chain) && Decodes(s, d) && Sure(chain)
    ensures !Valueless(ChainAnswer(d, chain, primary))
  {
    var j: nat :| j < |chain| && SureAt(chain, j);
    DecodedConforms(s, d, chain[j].steps);
    BareIsFound(d, chain[j].steps);
    var a := FirstAnswer(d, chain, primary);
    assert a <= j;
    var m := chain[a];
    if Shadowed(chain, a) {
      var k: nat :| k < a && Covers(chain[k].steps, m.steps);
      PlainPrefix(m);
      CoveredIsFound(s, d, m.steps, chain[k].steps);
    } else {
      assert Solid(m);
      NullAdmitted(s, d, m);
      if Walk(d, m.steps).Found? {
        FoundIsLeaf(s, d, m.steps);
      }
    }
  }

  /** Explicit null is read only where the leaf admits it. */
  lemma {:induction false} NullAdmitted(s: Schema, d: Doc, m: Member)
    requires m.steps != [] && Resolves(s, m.steps) && Readable(m) && Decodes(s, d)
    ensures Walk(d, m.steps).ExplicitNull? ==> Admits(m.steps[|m.steps| - 1].shape, Null)
  {
    DecodedConforms(s, d, m.steps);
    WalkReach(d, m.steps);
  }

  /** A document on which an unsure chain has no value. */
  lemma {:induction false} UnsureLacks(s: Schema, chain: seq<Member>, primary: Member) returns (d: Doc)
    requires Admitted(s, chain) && !Sure(chain)
    ensures Decodes(s, d) && Valueless(ChainAnswer(d, chain, primary))
  {
    if j: nat :| j < |chain| && AllBare(chain[j].steps) {
      var first := FirstBare(chain, j);
      assert !SureAt(chain, first);
      var i: nat :| i <= first && !Shadowed(chain, i) && !Solid(chain[i]);
      d := UnsolidLacks(s, chain, i, primary);
    } else {
      d := Least(s, [], _ => 0);
      LeastDecodes(s, [], _ => 0);
      var a := FirstAnswer(d, chain, primary);
      if a < |chain| {
        LeastWalk(s, [], _ => 0, chain[a].steps);
      }
    }
  }

  lemma {:induction false} FirstBare(chain: seq<Member>, j: nat) returns (first: nat)
    requires j < |chain| && AllBare(chain[j].steps)
    ensures first <= j && AllBare(chain[first].steps) && forall i | 0 <= i < first :: !AllBare(chain[i].steps)
  {
    first := j;
    if i: nat :| i < j && AllBare(chain[i].steps) {
      first := FirstBare(chain, i);
    }
  }

  lemma {:induction false} UnsolidLacks(s: Schema, chain: seq<Member>, i: nat, primary: Member) returns (d: Doc)
    requires Admitted(s, chain) && i < |chain| && !Shadowed(chain, i) && !Solid(chain[i])
    ensures Decodes(s, d) && Valueless(ChainAnswer(d, chain, primary))
  {
    var m := chain[i];
    PlainPrefix(m);
    var leaf: Presence;
    if x :| Valueless(m.conversion.run(Scalar(x))) {
      leaf := Present(Scalar(x));
    } else {
      leaf := Null;
    }
    d := Along(s, m.steps, leaf);
    AlongDecodes(s, m.steps, leaf);
    AlongWalk(s, m.steps, leaf);
    var a := FirstAnswer(d, chain, primary);
    assert MemberAnswer(d, m).Some? && a <= i;
    if a < i {
      AlongOther(s, m.steps, leaf, chain[a].steps);
    }
  }

  /** A chain has a value on every document exactly when it is sure. */
  lemma ValueExactly(s: Schema, chain: seq<Member>, primary: Member)
    requires Admitted(s, chain)
    ensures (forall d | Decodes(s, d) :: !Valueless(ChainAnswer(d, chain, primary))) <==> Sure(chain)
  {
    if Sure(chain) {
      forall d | Decodes(s, d) ensures !Valueless(ChainAnswer(d, chain, primary)) {
        SureHasValue(s, d, chain, primary);
      }
    } else {
      var d := UnsureLacks(s, chain, primary);
      assert Decodes(s, d) && Valueless(ChainAnswer(d, chain, primary));
      assert !forall e | Decodes(s, e) :: !Valueless(ChainAnswer(e, chain, primary));
    }
  }

  // --- When an assembly can be empty ---

  /** The entry pushed nothing. */
  predicate Silent(d: Doc, m: Member) {
    MemberAnswer(d, m).None? || Valueless(MemberAnswer(d, m).value)
  }

  predicate Empty(d: Doc, entries: seq<Member>) {
    forall k | 0 <= k < |entries| :: Silent(d, entries[k])
  }

  predicate AdmittedEntries(s: Schema, entries: seq<Member>) {
    forall i | 0 <= i < |entries| :: entries[i].steps != [] && Resolves(s, entries[i].steps) && Readable(entries[i])
  }

  /** At this leaf every entry reading the path converts nothing. */
  ghost predicate AllRefuse(entries: seq<Member>, steps: seq<Step>, x: int) {
    forall k | 0 <= k < |entries| && entries[k].steps == steps :: Valueless(entries[k].conversion.run(Scalar(x)))
  }

  /** Some always-present leaf is converted by an entry whatever it holds. */
  ghost predicate SureEntries(entries: seq<Member>) {
    exists j :: 0 <= j < |entries| && AllBare(entries[j].steps) && !exists x :: AllRefuse(entries, entries[j].steps, x)
  }

  lemma {:induction false} SamePath(s: Schema, p: seq<Step>, q: seq<Step>)
    requires Resolves(s, p) && Resolves(s, q) && Names(p) == Names(q)
    ensures p == q
    decreases p
  {
    if p != [] && q != [] {
      assert Names(p)[0] == Names(q)[0] && Names(p)[1..] == Names(q)[1..];
      SamePath(s.properties[p[0].property].of, p[1..], q[1..]);
      assert p == [p[0]] + p[1..] && q == [q[0]] + q[1..];
      assert p[0] == q[0];
    }
  }

  ghost predicate Refuses(entries: seq<Member>, at: seq<string>, x: int) {
    forall k | 0 <= k < |entries| && Names(entries[k].steps) == at :: Valueless(entries[k].conversion.run(Scalar(x)))
  }

  /** A document on which unsure entries are all silent. */
  lemma {:induction false} UnsureEmpty(s: Schema, entries: seq<Member>) returns (d: Doc)
    requires AdmittedEntries(s, entries) && !SureEntries(entries)
    ensures Decodes(s, d) && Empty(d, entries)
  {
    ghost var pick: seq<string> -> int :=
      at => if exists x :: Refuses(entries, at, x) then var x :| Refuses(entries, at, x); x else 0;
    d := Least(s, [], pick);
    LeastDecodes(s, [], pick);
    forall k | 0 <= k < |entries| ensures Silent(d, entries[k]) {
      var steps := entries[k].steps;
      LeastWalk(s, [], pick, steps);
      assert [] + Names(steps) == Names(steps);
      if AllBare(steps) {
        var x :| AllRefuse(entries, steps, x);
        forall j | 0 <= j < |entries| && Names(entries[j].steps) == Names(steps)
          ensures Valueless(entries[j].conversion.run(Scalar(x)))
        {
          SamePath(s, entries[j].steps, steps);
        }
        assert Refuses(entries, Names(steps), x);
        assert Refuses(entries, Names(steps), pick(Names(steps)));
      }
    }
  }

  /** An assembly has an entry on every document exactly when its entries are
      sure of one. */
  lemma EntriesExactly(s: Schema, entries: seq<Member>)
    requires AdmittedEntries(s, entries)
    ensures (forall d | Decodes(s, d) :: !Empty(d, entries)) <==> SureEntries(entries)
  {
    if SureEntries(entries) {
      var j: nat :| j < |entries| && AllBare(entries[j].steps) && !exists x :: AllRefuse(entries, entries[j].steps, x);
      forall d | Decodes(s, d) ensures !Empty(d, entries) {
        DecodedConforms(s, d, entries[j].steps);
        BareIsFound(d, entries[j].steps);
        FoundIsLeaf(s, d, entries[j].steps);
        var x := Walk(d, entries[j].steps).doc.n;
        assert !AllRefuse(entries, entries[j].steps, x);
        var k: nat :| k < |entries| && entries[k].steps == entries[j].steps
            && !Valueless(entries[k].conversion.run(Scalar(x)));
        assert !Silent(d, entries[k]);
      }
    } else {
      var d := UnsureEmpty(s, entries);
    }
  }

  // --- Two documents combined along paths ---

  function Tails(ps: seq<seq<Step>>, k: string): seq<seq<Step>> {
    if ps == [] then []
    else (if ps[0] != [] && ps[0][0].property == k then [ps[0][1..]] else []) + Tails(ps[1..], k)
  }

  /** `v` along the paths, `f` elsewhere. */
  function Merge(s: Schema, f: Doc, v: Doc, ps: seq<seq<Step>>): Doc
    decreases s
  {
    match s
    case Leaf => v
    case Record(properties) =>
      Object(map k | k in properties :: MergeField(properties[k], Lookup(f, k), Lookup(v, k), Tails(ps, k)))
  }

  function MergeField(p: Property, f: Presence, v: Presence, ps: seq<seq<Step>>): Presence
    decreases p
  {
    if ps == [] then f
    else if p.shape.Bare? && f.Present? && v.Present? then Present(Merge(p.of, f.doc, v.doc, ps))
    else v
  }

  lemma {:induction false} MergeDecodes(s: Schema, f: Doc, v: Doc, ps: seq<seq<Step>>)
    requires Decodes(s, f) && Decodes(s, v)
    ensures Decodes(s, Merge(s, f, v, ps))
    decreases s
  {
    if s.Record? {
      forall k | k in s.properties ensures FieldDecodes(s.properties[k], Lookup(Merge(s, f, v, ps), k)) {
        var (p, pf, pv) := (s.properties[k], Lookup(f, k), Lookup(v, k));
        assert p.of < p < s;
        assert FieldDecodes(p, pf) && FieldDecodes(p, pv);
        if pf.Present? && pv.Present? {
          MergeDecodes(p.of, pf.doc, pv.doc, Tails(ps, k));
        }
      }
    }
  }

  lemma {:induction false} TailsExact(ps: seq<seq<Step>>, k: string)
    ensures forall t :: t in Tails(ps, k) <==>
            exists p: seq<Step> :: p in ps && p != [] && p[0].property == k && p[1..] == t
  {
    if ps != [] {
      TailsExact(ps[1..], k);
      assert ps == [ps[0]] + ps[1..];
    }
  }

  /** On the paths the combined document reads as `v`. */
  lemma {:induction false} MergeTakes(s: Schema, f: Doc, v: Doc, ps: seq<seq<Step>>, q: seq<Step>)
    requires Decodes(s, f) && Decodes(s, v) && Resolves(s, q) && q in ps
    ensures Walk(Merge(s, f, v, ps), q) == Walk(v, q)
    decreases q
  {
    if q != [] {
      var k := q[0].property;
      var (p, pf, pv) := (s.properties[k], Lookup(f, k), Lookup(v, k));
      TailsExact(ps, k);
      assert q[1..] in Tails(ps, k);
      assert FieldDecodes(p, pf) && FieldDecodes(p, pv);
      if p.shape.Bare? {
        MergeTakes(p.of, pf.doc, pv.doc, Tails(ps, k), q[1..]);
      }
    }
  }

  /** The two paths part while both are still required and non-nullable. */
  predicate Apart(q: seq<Step>, r: seq<Step>) {
    q != [] && r != [] && (q[0].property != r[0].property || (q[0].shape.Bare? && Apart(q[1..], r[1..])))
  }

  /** On a path apart from all of them it reads as `f`. */
  lemma {:induction false} MergeKeeps(s: Schema, f: Doc, v: Doc, ps: seq<seq<Step>>, r: seq<Step>)
    requires Decodes(s, f) && Decodes(s, v) && Resolves(s, r) && r != []
    requires forall q | q in ps :: Resolves(s, q) && Apart(q, r)
    ensures Walk(Merge(s, f, v, ps), r) == Walk(f, r)
    decreases r
  {
    var k := r[0].property;
    var (p, pf, pv) := (s.properties[k], Lookup(f, k), Lookup(v, k));
    TailsExact(ps, k);
    assert FieldDecodes(p, pf) && FieldDecodes(p, pv);
    if Tails(ps, k) != [] {
      var t := Tails(ps, k)[0];
      assert t in Tails(ps, k);
      var q: seq<Step> :| q in ps && q != [] && q[0].property == k && q[1..] == t;
      assert p.shape.Bare? && Apart(t, r[1..]);
      MergeKeeps(p.of, pf.doc, pv.doc, Tails(ps, k), r[1..]);
    }
  }

  /** A chain's answer depends only on how its members' paths read. */
  lemma {:induction false} SameAnswer(d: Doc, e: Doc, chain: seq<Member>, primary: Member)
    requires forall i | 0 <= i < |chain| :: Walk(d, chain[i].steps) == Walk(e, chain[i].steps)
    ensures ChainAnswer(d, chain, primary) == ChainAnswer(e, chain, primary)
  {
    if chain != [] {
      assert forall i | 0 <= i < |chain| - 1 :: chain[1..][i] == chain[i + 1];
      SameAnswer(d, e, chain[1..], primary);
    }
  }

  lemma SameEmpty(d: Doc, e: Doc, entries: seq<Member>)
    requires forall i | 0 <= i < |entries| :: Walk(d, entries[i].steps) == Walk(e, entries[i].steps)
    ensures Empty(d, entries) <==> Empty(e, entries)
  {
    assert forall i | 0 <= i < |entries| :: Silent(d, entries[i]) <==> Silent(e, entries[i]);
  }
}
