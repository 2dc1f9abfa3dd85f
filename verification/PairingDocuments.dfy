/** The pairing rule over real documents: every instance reads one decoded document
    through its chains, and the rule is compared with what those documents make of
    the generated projection. */
module PairingDocuments {
  import opened Bytes
  import opened SourceDocuments
  import opened PairingLint
  import R = ReadChains

  // --- What one document gives each instance ---

  function Reads(ch: Chain): (r: seq<R.Member>)
    ensures |r| == |ch|
  {
    seq(|ch|, i requires 0 <= i < |ch| => ch[i].read.(required := ch[i].required))
  }

  function Answered(ch: Chain, d: R.Doc): R.Answer { R.ChainAnswer(d, Reads(ch), Reads(ch)[0]) }

  /** A chain is present when its evaluation is `Some`, an assembly filled when an
      entry was pushed. */
  function EnvOf(i: Instance, d: R.Doc, builds: bool): Env {
    var chains := Chains(i.fields);
    Env(k => 0 <= k < |chains| && !Valueless(Answered(chains[k], d)),
        k => 0 <= k < |i.assemblies| && !Empty(d, i.assemblies[k].entries),
        builds)
  }

  /** A conversion's residual error leaves the generated function at once. */
  predicate Refuses(i: Instance, d: R.Doc) {
    var chains := Chains(i.fields);
    || (exists k | 0 <= k < |chains| :: Answered(chains[k], d).Refused?)
    || (exists k, j | 0 <= k < |i.assemblies| && 0 <= j < |i.assemblies[k].entries| ::
          var a := R.MemberAnswer(d, i.assemblies[k].entries[j]); a.Some? && a.value.Refused?)
  }

  /** What the location and the builders decide. */
  datatype Setting = Setting(subject: bool, keyed: bool, key: nat, builds: nat -> bool)

  const NOWHERE := Env(_ => false, _ => false, false)

  function DocumentOf(instances: seq<Instance>, d: R.Doc, o: Setting): Document {
    Document(o.subject, o.keyed, o.key,
             n => if 0 <= n < |instances| then EnvOf(instances[n], d, o.builds(n)) else NOWHERE)
  }

  function RunOn(c: Contract, instances: seq<Instance>, d: R.Doc, o: Setting): Outcome {
    if exists n | 0 <= n < |instances| :: Refuses(instances[n], d) then Failed
    else Run(c, instances, DocumentOf(instances, d, o))
  }

  /** A group that passes the pairing rule is payable on every document. */
  lemma PairingSafeOnDocuments(c: Contract, group: seq<Projection>, d: R.Doc, o: Setting)
    requires PairingViolations(c, group) == []
    ensures Payable(RunOn(c, Instances(group), d, o), o.key)
  {
    PairingSafe(c, group, DocumentOf(Instances(group), d, o));
  }

  // --- When an instance is emitted on every document ---

  ghost predicate EmittedOn(c: Contract, i: Instance, d: R.Doc) { Emits(c, i, EnvOf(i, d, true)) }

  ghost predicate ChainRefuses(i: Instance, d: R.Doc) {
    exists k: nat :: k < |Chains(i.fields)| && Answered(Chains(i.fields)[k], d) == R.Answer.Refused
  }

  ghost predicate EntryRefuses(i: Instance, d: R.Doc) {
    exists k: nat, j: nat :: k < |i.assemblies| && j < |i.assemblies[k].entries|
                             && R.MemberAnswer(d, i.assemblies[k].entries[j]) == Some(R.Answer.Refused)
  }

  ghost predicate SomeRefuses(instances: seq<Instance>, d: R.Doc) {
    exists n: nat :: n < |instances| && (ChainRefuses(instances[n], d) || EntryRefuses(instances[n], d))
  }

  ghost predicate SomeUnbuilt(c: Contract, instances: seq<Instance>, d: R.Doc, builds: nat -> bool) {
    exists n: nat :: n < |instances| && EmittedOn(c, instances[n], d) && !builds(n)
  }

  /** The generated function fails on a document exactly when some conversion
      refuses, or its subject is found and a key it needs is not, or an instance the
      document emits does not build. */
  lemma FailsOnExactly(c: Contract, instances: seq<Instance>, d: R.Doc, o: Setting)
    ensures RunOn(c, instances, d, o) == Failed <==>
            || SomeRefuses(instances, d)
            || (o.subject && !o.keyed && (SomeOf(instances, Descriptor) || SomeOf(instances, Reading)))
            || (o.subject && SomeUnbuilt(c, instances, d, o.builds))
  {
    SomeRefusesExactly(instances, d);
    RunExactly(c, instances, DocumentOf(instances, d, o));
    SomeUnbuiltExactly(c, instances, d, o);
    hide Run, Refuses, SomeRefuses, SomeUnbuilt, SomeRefused, PartsAre, SomeOf, EnvOf;
  }

  lemma SomeRefusesExactly(instances: seq<Instance>, d: R.Doc)
    ensures (exists n: nat :: n < |instances| && Refuses(instances[n], d)) <==> SomeRefuses(instances, d)
  {
    forall i ensures Refuses(i, d) <==> ChainRefuses(i, d) || EntryRefuses(i, d) { RefusesExactly(i, d); }
    hide Refuses, ChainRefuses, EntryRefuses;
  }

  lemma SomeUnbuiltExactly(c: Contract, instances: seq<Instance>, d: R.Doc, o: Setting)
    ensures SomeRefused(c, instances, DocumentOf(instances, d, o)) <==> SomeUnbuilt(c, instances, d, o.builds)
  {
    var doc := DocumentOf(instances, d, o);
    forall n: nat | n < |instances|
      ensures (Emits(c, instances[n], doc.at(n)) <==> EmittedOn(c, instances[n], d)) && doc.at(n).builds == o.builds(n)
    {
      BuildsAside(c, instances[n], d, o.builds(n));
    }
    hide Emits, EmittedOn, EnvOf, DocumentOf;
  }

  lemma RefusesExactly(i: Instance, d: R.Doc)
    ensures Refuses(i, d) <==> ChainRefuses(i, d) || EntryRefuses(i, d)
  {
    hide Chains, Answered, R.MemberAnswer;
  }

  lemma BuildsAside(c: Contract, i: Instance, d: R.Doc, builds: bool)
    ensures Emits(c, i, EnvOf(i, d, builds)) <==> EmittedOn(c, i, d)
  {
    EmitsExact(c, i, EnvOf(i, d, builds));
    EmitsExact(c, i, EnvOf(i, d, true));
    hide Emits, Chains, Answered, Empty;
  }

  /** Its sources are what the lint admits of them. */
  ghost predicate Sourced(s: Schema, i: Instance) {
    var chains := Chains(i.fields);
    && (forall k | 0 <= k < |chains| :: Admitted(s, Reads(chains[k])))
    && forall k | 0 <= k < |i.assemblies| :: AdmittedEntries(s, i.assemblies[k].entries)
  }

  /** Every read names a field. */
  ghost predicate Stepped(i: Instance) {
    forall k | 0 <= k < |Chains(i.fields)| :: forall j | 0 <= j < |Chains(i.fields)[k]| ::
      Reads(Chains(i.fields)[k])[j].steps != []
  }

  /** No gate of the instance can close. */
  ghost predicate GatesSure(c: Contract, i: Instance)
    requires Stepped(i)
  {
    var chains := Chains(i.fields);
    && (forall k | 0 <= k < |chains| && ChainGates(c, i.target, chains[k]) :: Sure(Reads(chains[k])))
    && forall k | 0 <= k < |i.assemblies| && AssemblyGates(c, i.target, i.assemblies[k]) ::
         SureEntries(i.assemblies[k].entries)
  }

  lemma EmittedOnExactly(c: Contract, i: Instance, d: R.Doc)
    ensures EmittedOn(c, i, d) <==>
            && (forall k: nat | k < |Chains(i.fields)| && ChainGates(c, i.target, Chains(i.fields)[k]) ::
                  !Valueless(Answered(Chains(i.fields)[k], d)))
            && (forall k: nat | k < |i.assemblies| && AssemblyGates(c, i.target, i.assemblies[k]) ::
                  !Empty(d, i.assemblies[k].entries))
  {
    var env := EnvOf(i, d, true);
    var chains: seq<Chain> := Chains(i.fields);
    EmitsExact(c, i, env);
    hide Emits, Chains, Answered, Empty;
    forall k: nat | k < |chains|
      ensures ChainGates(c, i.target, chains[k]) <==>
              chains[k][0].anchor || chains[k][0].required || c(i.target, chains[k][0].target[0])
      ensures env.present(k) <==> !Valueless(Answered(chains[k], d))
    {
    }
    forall k: nat | k < |i.assemblies|
      ensures AssemblyGates(c, i.target, i.assemblies[k]) <==>
              i.assemblies[k].anchor || c(i.target, i.assemblies[k].target)
      ensures env.filled(k) <==> !Empty(d, i.assemblies[k].entries)
    {
    }
    hide ChainGates, AssemblyGates, EnvOf;
  }

  lemma SureIsEmitted(c: Contract, s: Schema, i: Instance, d: R.Doc)
    requires Sourced(s, i) && Stepped(i) && GatesSure(c, i) && Decodes(s, d)
    ensures EmittedOn(c, i, d)
  {
    EmittedOnExactly(c, i, d);
    var chains := Chains(i.fields);
    hide EmittedOn, Chains, Admitted, Decodes, Sure, SureEntries, AdmittedEntries;
    forall k: nat | k < |chains| && ChainGates(c, i.target, chains[k]) ensures !Valueless(Answered(chains[k], d)) {
      SureHasValue(s, d, Reads(chains[k]), Reads(chains[k])[0]);
    }
    forall k: nat | k < |i.assemblies| && AssemblyGates(c, i.target, i.assemblies[k])
      ensures !Empty(d, i.assemblies[k].entries)
    {
      EntriesExactly(s, i.assemblies[k].entries);
    }
  }

  /** The path is read by something that gates the instance. */
  ghost predicate GatingPath(c: Contract, i: Instance, q: seq<R.Step>) {
    var chains := Chains(i.fields);
    || (exists k, j | 0 <= k < |chains| && 0 <= j < |chains[k]| ::
          ChainGates(c, i.target, chains[k]) && chains[k][j].read.steps == q)
    || (exists k, j | 0 <= k < |i.assemblies| && 0 <= j < |i.assemblies[k].entries| ::
          AssemblyGates(c, i.target, i.assemblies[k]) && i.assemblies[k].entries[j].steps == q)
  }

  function Paths(ms: seq<R.Member>): (ps: seq<seq<R.Step>>)
    ensures |ps| == |ms| && forall k | 0 <= k < |ms| :: ps[k] == ms[k].steps
  {
    seq(|ms|, k requires 0 <= k < |ms| => ms[k].steps)
  }

  /** The two documents read alike along the paths. */
  ghost predicate Alike(ps: seq<seq<R.Step>>, d: R.Doc, e: R.Doc) {
    forall k | 0 <= k < |ps| :: R.Walk(d, ps[k]) == R.Walk(e, ps[k])
  }

  /** A document that closes a gate through gating paths: the instance is suppressed
      wherever they read the same. */
  ghost predicate Suppresses(c: Contract, s: Schema, i: Instance, v: R.Doc, ps: seq<seq<R.Step>>) {
    && Decodes(s, v)
    && (forall k | 0 <= k < |ps| :: Resolves(s, ps[k]) && GatingPath(c, i, ps[k]))
    && forall e | Alike(ps, e, v) :: !EmittedOn(c, i, e)
  }

  lemma ChainSuppresses(c: Contract, s: Schema, i: Instance, k: nat) returns (v: R.Doc, ps: seq<seq<R.Step>>)
    requires Sourced(s, i) && k < |Chains(i.fields)| && ChainGates(c, i.target, Chains(i.fields)[k])
    requires !Sure(Reads(Chains(i.fields)[k]))
    ensures Suppresses(c, s, i, v, ps)
  {
    var chains := Chains(i.fields);
    var ms := Reads(chains[k]);
    ps := Paths(ms);
    v := UnsureLacks(s, ms, ms[0]);
    hide Chains, Sure, Admitted, Decodes, EmittedOn, R.ChainAnswer, R.Walk;
    forall e | Alike(ps, e, v) ensures !EmittedOn(c, i, e) {
      assert forall j | 0 <= j < |ms| :: R.Walk(e, ps[j]) == R.Walk(v, ps[j]);
      SameAnswer(e, v, ms, ms[0]);
      EmittedOnExactly(c, i, e);
    }
    forall j | 0 <= j < |ps| ensures Resolves(s, ps[j]) && GatingPath(c, i, ps[j]) {
      assert chains[k][j].read.steps == ps[j];
      ChainResolves(s, ms, j);
    }
  }

  lemma ChainResolves(s: Schema, ms: seq<R.Member>, j: nat)
    requires Admitted(s, ms) && j < |ms|
    ensures Resolves(s, ms[j].steps) && ms[j].steps != []
  {
  }

  lemma EntriesSuppress(c: Contract, s: Schema, i: Instance, k: nat) returns (v: R.Doc, ps: seq<seq<R.Step>>)
    requires Sourced(s, i) && k < |i.assemblies| && AssemblyGates(c, i.target, i.assemblies[k])
    requires !SureEntries(i.assemblies[k].entries)
    ensures Suppresses(c, s, i, v, ps)
  {
    var ms := i.assemblies[k].entries;
    ps := Paths(ms);
    v := UnsureEmpty(s, ms);
    hide Chains, SureEntries, Decodes, EmittedOn, R.Walk;
    forall e | Alike(ps, e, v) ensures !EmittedOn(c, i, e) {
      assert forall j | 0 <= j < |ms| :: R.Walk(e, ps[j]) == R.Walk(v, ps[j]);
      SameEmpty(e, v, ms);
      EmittedOnExactly(c, i, e);
    }
    forall j | 0 <= j < |ps| ensures Resolves(s, ps[j]) && GatingPath(c, i, ps[j]) {
      assert i.assemblies[k].entries[j].steps == ps[j];
    }
  }

  /** An instance with a gate that can close is suppressed by some document. */
  lemma GatedSuppresses(c: Contract, s: Schema, i: Instance) returns (v: R.Doc, ps: seq<seq<R.Step>>)
    requires Sourced(s, i) && Stepped(i) && !GatesSure(c, i)
    ensures Suppresses(c, s, i, v, ps) && !EmittedOn(c, i, v)
  {
    var chains := Chains(i.fields);
    if k: nat :| k < |chains| && ChainGates(c, i.target, chains[k]) && !Sure(Reads(chains[k])) {
      v, ps := ChainSuppresses(c, s, i, k);
    } else {
      var k: nat :| k < |i.assemblies| && AssemblyGates(c, i.target, i.assemblies[k])
          && !SureEntries(i.assemblies[k].entries);
      v, ps := EntriesSuppress(c, s, i, k);
    }
    assert Alike(ps, v, v);
  }

  /** An instance is emitted on every document exactly when no gate can close. */
  lemma EmittedExactly(c: Contract, s: Schema, i: Instance)
    requires Sourced(s, i)
    ensures Stepped(i)
    ensures (forall d | Decodes(s, d) :: EmittedOn(c, i, d)) <==> GatesSure(c, i)
  {
    SourcedStepped(s, [i]);
    assert Stepped([i][0]);
    if GatesSure(c, i) {
      forall d | Decodes(s, d) ensures EmittedOn(c, i, d) { SureIsEmitted(c, s, i, d); }
    } else {
      var v, ps := GatedSuppresses(c, s, i);
      assert !forall d | Decodes(s, d) :: EmittedOn(c, i, d);
    }
  }

  // --- When the rule asks for what the documents need ---

  /** At most one item and one descriptor, and with readings exactly one, none of
      whose gates can close. */
  ghost predicate WellPaired(c: Contract, group: seq<Projection>)
    requires forall n | 0 <= n < |Instances(group)| :: Stepped(Instances(group)[n])
  {
    && CountOf(group, Inventory) <= 1 && CountOf(group, Descriptor) <= 1
    && (CountOf(group, Reading) > 0 ==>
          && CountOf(group, Descriptor) == 1
          && forall n | 0 <= n < |Instances(group)| && Instances(group)[n].target.Descriptor? ::
               GatesSure(c, Instances(group)[n]))
  }

  ghost predicate AllSourced(s: Schema, instances: seq<Instance>) {
    forall n | 0 <= n < |instances| :: Sourced(s, instances[n])
  }

  lemma SourcedStepped(s: Schema, instances: seq<Instance>)
    requires AllSourced(s, instances)
    ensures forall n | 0 <= n < |instances| :: Stepped(instances[n])
  {
    hide Chains;
    forall n, k, j | 0 <= n < |instances| && 0 <= k < |Chains(instances[n].fields)|
        && 0 <= j < |Chains(instances[n].fields)[k]|
      ensures Reads(Chains(instances[n].fields)[k])[j].steps != []
    {
      assert Sourced(s, instances[n]);
      ChainResolves(s, Reads(Chains(instances[n].fields)[k]), j);
    }
  }

  /** Where every descriptor is emitted the parts hold each. */
  lemma {:induction false} DescriptorsEmitted(c: Contract, instances: seq<Instance>, d: Document)
    requires Assemble(c, instances, d).Parts?
    requires forall n: nat | n < |instances| && instances[n].target.Descriptor? :: Emits(c, instances[n], d.at(n))
    ensures |Assemble(c, instances, d).descriptors| == CountIn(instances, Descriptor)
  {
    hide Emits;
    if instances != [] {
      DescriptorsEmitted(c, instances[..|instances| - 1], d);
    }
  }

  lemma {:induction false} BuildsIrrelevant(c: Contract, i: Instance, d: R.Doc, builds: bool)
    ensures Emits(c, i, EnvOf(i, d, builds)) <==> EmittedOn(c, i, d)
  {
  }

  /** A well paired group is payable on every document. */
  lemma WellPairedPayable(c: Contract, s: Schema, group: seq<Projection>, d: R.Doc, o: Setting)
    requires AllSourced(s, Instances(group)) && Decodes(s, d)
    requires (forall n | 0 <= n < |Instances(group)| :: Stepped(Instances(group)[n])) && WellPaired(c, group)
    ensures Payable(RunOn(c, Instances(group), d, o), o.key)
  {
    var instances := Instances(group);
    var doc := DocumentOf(instances, d, o);
    CountInstances(group, Descriptor);
    CountInstances(group, Reading);
    CountInstances(group, Inventory);
    hide Instances, CountOf, Decodes, Sourced, Emits, EnvOf, Refuses;
    if RunOn(c, instances, d, o).Parts? && o.subject {
      AssembleBounds(c, instances, doc);
      var parts := Assemble(c, instances, doc);
      if parts.readings != [] {
        forall n: nat | n < |instances| && instances[n].target.Descriptor? ensures Emits(c, instances[n], doc.at(n)) {
          SureIsEmitted(c, s, instances[n], d);
          BuildsIrrelevant(c, instances[n], d, o.builds(n));
        }
        DescriptorsEmitted(c, instances, doc);
        hide Assemble, CountIn, GatesSure;
        assert |parts.descriptors| == 1 && parts.descriptors[0] in parts.descriptors;
      }
    }
  }

  // --- Converse: documents the rule is there for ---

  /** No conversion fails on what a leaf can hold: the residual tier is not reached
      by a document. */
  ghost predicate Steady(i: Instance) {
    && (forall k | 0 <= k < |i.fields| :: NeverRefuses(i.fields[k].read))
    && forall k, j | 0 <= k < |i.assemblies| && 0 <= j < |i.assemblies[k].entries| ::
         NeverRefuses(i.assemblies[k].entries[j])
  }

  ghost predicate NeverRefuses(m: R.Member) { forall x :: !m.conversion.run(R.Scalar(x)).Refused? }

  lemma {:induction false} SteadyAnswer(s: Schema, d: R.Doc, m: R.Member)
    requires m.steps != [] && Resolves(s, m.steps) && Decodes(s, d) && NeverRefuses(m)
    ensures R.MemberAnswer(d, m).Some? ==> !R.MemberAnswer(d, m).value.Refused?
  {
    if R.Walk(d, m.steps).Found? {
      FoundIsLeaf(s, d, m.steps);
    }
  }

  lemma {:induction false} SteadyChain(s: Schema, d: R.Doc, ms: seq<R.Member>, primary: R.Member)
    requires Admitted(s, ms) && Decodes(s, d) && forall k | 0 <= k < |ms| :: NeverRefuses(ms[k])
    ensures !R.ChainAnswer(d, ms, primary).Refused?
  {
    var a := FirstAnswer(d, ms, primary);
    if a < |ms| {
      ChainResolves(s, ms, a);
      SteadyAnswer(s, d, ms[a]);
    }
  }

  lemma SteadyRuns(s: Schema, d: R.Doc, i: Instance)
    requires Sourced(s, i) && Steady(i) && Decodes(s, d)
    ensures !Refuses(i, d)
  {
    var chains := Chains(i.fields);
    ChainsPartition(i.fields);
    hide Chains, Decodes;
    forall k: nat | k < |chains| ensures !Answered(chains[k], d).Refused? {
      forall j | 0 <= j < |chains[k]| ensures NeverRefuses(Reads(chains[k])[j]) {
        var f := chains[k][j];
        assert f in chains[k] && chains[k] in chains;
        assert InSome(chains, f);
        var n: nat :| n < |i.fields| && i.fields[n] == f;
        assert NeverRefuses(i.fields[n].read);
      }
      SteadyChain(s, d, Reads(chains[k]), Reads(chains[k])[0]);
    }
    forall k, j | 0 <= k < |i.assemblies| && 0 <= j < |i.assemblies[k].entries|
      ensures R.MemberAnswer(d, i.assemblies[k].entries[j]).Some? ==>
              !R.MemberAnswer(d, i.assemblies[k].entries[j]).value.Refused?
    {
      SteadyAnswer(s, d, i.assemblies[k].entries[j]);
    }
  }

  /** The instances are all emitted on this document. */
  ghost predicate Together(c: Contract, s: Schema, instances: seq<Instance>, d: R.Doc) {
    Decodes(s, d) && forall n | 0 <= n < |instances| :: EmittedOn(c, instances[n], d)
  }

  /** What gates a descriptor is read apart from what gates a reading. */
  ghost predicate SourcesApart(c: Contract, instances: seq<Instance>) {
    forall m, n, q, r |
      && 0 <= m < |instances| && 0 <= n < |instances| && instances[m].target.Descriptor? && instances[n].target.Reading?
      && GatingPath(c, instances[m], q) && GatingPath(c, instances[n], r) ::
      Apart(q, r)
  }

  const FAVOURABLE := Setting(true, true, 0, _ => true)

  /** Which instances a document emits decides the parts, where all build. */
  lemma {:induction false} AssembleExact(c: Contract, instances: seq<Instance>, d: Document, dropped: bool)
    requires forall n: nat | n < |instances| :: d.at(n).builds
    requires forall n: nat | n < |instances| && instances[n].target.Descriptor? ::
               Emits(c, instances[n], d.at(n)) <==> !dropped
    requires forall n: nat | n < |instances| && instances[n].target.Reading? :: Emits(c, instances[n], d.at(n))
    requires !dropped ==> forall n: nat | n < |instances| :: Emits(c, instances[n], d.at(n))
    ensures var parts := Assemble(c, instances, d);
            && parts.Parts? && |parts.readings| == CountIn(instances, Reading)
            && |parts.descriptors| == (if dropped then 0 else CountIn(instances, Descriptor))
            && (!dropped ==> parts.items == CountIn(instances, Inventory))
  {
    hide Emits;
    if instances != [] {
      AssembleExact(c, instances[..|instances| - 1], d, dropped);
    }
  }

  lemma RunAssembles(c: Contract, s: Schema, instances: seq<Instance>, d: R.Doc)
    requires AllSourced(s, instances) && (forall n | 0 <= n < |instances| :: Steady(instances[n])) && Decodes(s, d)
    ensures RunOn(c, instances, d, FAVOURABLE) == Assemble(c, instances, DocumentOf(instances, d, FAVOURABLE))
  {
    forall n | 0 <= n < |instances| ensures !Refuses(instances[n], d) { SteadyRuns(s, d, instances[n]); }
    hide Refuses, Assemble, Sourced, Steady;
  }

  /** On a document that emits everything the parts are the counts. */
  lemma AtFavourable(c: Contract, instances: seq<Instance>, d: R.Doc, n: nat)
    requires n < |instances|
    ensures var i := DocumentOf(instances, d, FAVOURABLE).at(n);
            i.builds && (Emits(c, instances[n], i) <==> EmittedOn(c, instances[n], d))
  {
    BuildsIrrelevant(c, instances[n], d, true);
    hide Emits;
  }

  lemma AllTogether(c: Contract, s: Schema, group: seq<Projection>, d: R.Doc)
    requires AllSourced(s, Instances(group)) && (forall n | 0 <= n < |Instances(group)| :: Steady(Instances(group)[n]))
    requires Together(c, s, Instances(group), d)
    ensures var parts := RunOn(c, Instances(group), d, FAVOURABLE);
            && parts.Parts? && parts.items == CountOf(group, Inventory) && |parts.readings| == CountOf(group, Reading)
            && |parts.descriptors| == CountOf(group, Descriptor)
  {
    hide Emits, EnvOf, EmittedOn, RunOn, Instances, DocumentOf, Assemble, AllSourced, Steady, Decodes;
    var instances := Instances(group);
    RunAssembles(c, s, instances, d);
    var doc := DocumentOf(instances, d, FAVOURABLE);
    forall n: nat | n < |instances| ensures doc.at(n).builds && Emits(c, instances[n], doc.at(n)) {
      AtFavourable(c, instances, d, n);
    }
    AssembleExact(c, instances, doc, false);
    CountInstances(group, Descriptor);
    CountInstances(group, Reading);
    CountInstances(group, Inventory);
  }

  /** Reading along the paths that gate it as another document does, an instance is
      emitted as on that one. */
  lemma EmittedAlike(c: Contract, s: Schema, i: Instance, d: R.Doc, e: R.Doc)
    requires Sourced(s, i) && EmittedOn(c, i, d)
    requires forall r | GatingPath(c, i, r) && Resolves(s, r) && r != [] :: R.Walk(d, r) == R.Walk(e, r)
    ensures EmittedOn(c, i, e)
  {
    EmittedOnExactly(c, i, d);
    EmittedOnExactly(c, i, e);
    var chains := Chains(i.fields);
    hide Chains, EmittedOn, R.Walk, R.ChainAnswer;
    forall k: nat | k < |chains| && ChainGates(c, i.target, chains[k]) ensures !Valueless(Answered(chains[k], e)) {
      var ms := Reads(chains[k]);
      forall j | 0 <= j < |ms| ensures R.Walk(d, ms[j].steps) == R.Walk(e, ms[j].steps) {
        ChainResolves(s, ms, j);
        assert chains[k][j].read.steps == ms[j].steps;
        assert GatingPath(c, i, ms[j].steps);
      }
      SameAnswer(d, e, ms, ms[0]);
    }
    forall k: nat | k < |i.assemblies| && AssemblyGates(c, i.target, i.assemblies[k])
      ensures !Empty(e, i.assemblies[k].entries)
    {
      var ms := i.assemblies[k].entries;
      forall j | 0 <= j < |ms| ensures R.Walk(d, ms[j].steps) == R.Walk(e, ms[j].steps) {
        assert GatingPath(c, i, ms[j].steps);
      }
      SameEmpty(d, e, ms);
    }
  }

  /** A document that keeps the readings and loses the descriptor. */
  lemma LostDescriptor(c: Contract, s: Schema, instances: seq<Instance>, full: R.Doc, m: nat) returns (d: R.Doc)
    requires AllSourced(s, instances) && SourcesApart(c, instances) && Together(c, s, instances, full)
    requires m < |instances| && instances[m].target.Descriptor? && Stepped(instances[m]) && !GatesSure(c, instances[m])
    ensures Decodes(s, d) && !EmittedOn(c, instances[m], d)
    ensures forall n | 0 <= n < |instances| && instances[n].target.Reading? :: EmittedOn(c, instances[n], d)
  {
    var v, ps := GatedSuppresses(c, s, instances[m]);
    d := Merge(s, full, v, ps);
    MergeDecodes(s, full, v, ps);
    hide Sourced, Stepped, EmittedOn, Decodes, GatesSure, Merge;
    forall k | 0 <= k < |ps| ensures R.Walk(d, ps[k]) == R.Walk(v, ps[k]) {
      MergeTakes(s, full, v, ps, ps[k]);
    }
    assert Alike(ps, d, v);
    forall n | 0 <= n < |instances| && instances[n].target.Reading? ensures EmittedOn(c, instances[n], d) {
      forall r | GatingPath(c, instances[n], r) && Resolves(s, r) && r != [] ensures R.Walk(full, r) == R.Walk(d, r) {
        forall q | q in ps ensures Resolves(s, q) && Apart(q, r) {
          var k: nat :| k < |ps| && ps[k] == q;
          assert GatingPath(c, instances[m], q);
        }
        MergeKeeps(s, full, v, ps, r);
      }
      EmittedAlike(c, s, instances[n], full, d);
    }
  }

  /** With instances that can be emitted together and gates of descriptors read apart
      from those of readings, a group is payable on every document exactly when it is
      well paired. */
  lemma PairingExact(c: Contract, s: Schema, group: seq<Projection>, full: R.Doc)
    requires AllSourced(s, Instances(group)) && (forall n | 0 <= n < |Instances(group)| :: Steady(Instances(group)[n]))
    requires SourcesApart(c, Instances(group)) && Together(c, s, Instances(group), full)
    ensures forall n | 0 <= n < |Instances(group)| :: Stepped(Instances(group)[n])
    ensures WellPaired(c, group) <==>
            forall d, o | Decodes(s, d) :: Payable(RunOn(c, Instances(group), d, o), o.key)
  {
    var instances := Instances(group);
    SourcedStepped(s, instances);
    if WellPaired(c, group) {
      forall d, o | Decodes(s, d) ensures Payable(RunOn(c, instances, d, o), o.key) {
        WellPairedPayable(c, s, group, d, o);
      }
    } else {
      var d := Unpayable(c, s, group, full);
      assert !Payable(RunOn(c, instances, d, FAVOURABLE), FAVOURABLE.key);
    }
  }

  lemma Unpayable(c: Contract, s: Schema, group: seq<Projection>, full: R.Doc) returns (d: R.Doc)
    requires AllSourced(s, Instances(group)) && (forall n | 0 <= n < |Instances(group)| :: Steady(Instances(group)[n]))
    requires SourcesApart(c, Instances(group)) && Together(c, s, Instances(group), full)
    requires (forall n | 0 <= n < |Instances(group)| :: Stepped(Instances(group)[n])) && !WellPaired(c, group)
    ensures Decodes(s, d) && !Payable(RunOn(c, Instances(group), d, FAVOURABLE), FAVOURABLE.key)
  {
    var instances := Instances(group);
    AllTogether(c, s, group, full);
    d := full;
    if Payable(RunOn(c, instances, full, FAVOURABLE), FAVOURABLE.key) {
      hide RunOn, Sourced, Steady;
      assert CountOf(group, Reading) > 0 && CountOf(group, Descriptor) == 1;
      var m: nat :| m < |instances| && instances[m].target.Descriptor? && !GatesSure(c, instances[m]);
      d := LostDescriptor(c, s, instances, full, m);
      CountInstances(group, Descriptor);
      CountInstances(group, Reading);
      LostIsUnpayable(c, s, instances, d, m);
    }
  }

  lemma {:induction false} OnlyOne(instances: seq<Instance>, target: Target, m: nat, n: nat)
    requires CountIn(instances, target) == 1 && m < |instances| && n < |instances|
    requires instances[m].target == instances[n].target == target
    ensures m == n
  {
    var init := instances[..|instances| - 1];
    if m < |init| {
      CountPositive(init, target, m);
    }
    if n < |init| {
      CountPositive(init, target, n);
    }
    if m < |init| && n < |init| {
      OnlyOne(init, target, m, n);
    }
  }

  lemma {:induction false} CountPositive(instances: seq<Instance>, target: Target, n: nat)
    requires n < |instances| && instances[n].target == target
    ensures CountIn(instances, target) > 0
  {
    if n < |instances| - 1 {
      CountPositive(instances[..|instances| - 1], target, n);
    }
  }

  lemma LostIsUnpayable(c: Contract, s: Schema, instances: seq<Instance>, d: R.Doc, m: nat)
    requires AllSourced(s, instances) && (forall n | 0 <= n < |instances| :: Steady(instances[n])) && Decodes(s, d)
    requires CountIn(instances, Descriptor) == 1 && CountIn(instances, Reading) > 0
    requires m < |instances| && instances[m].target.Descriptor? && !EmittedOn(c, instances[m], d)
    requires forall n | 0 <= n < |instances| && instances[n].target.Reading? :: EmittedOn(c, instances[n], d)
    ensures !Payable(RunOn(c, instances, d, FAVOURABLE), FAVOURABLE.key)
  {
    hide Emits, EnvOf, EmittedOn, RunOn, Sourced, AllSourced, Steady, Decodes;
    RunAssembles(c, s, instances, d);
    var doc := DocumentOf(instances, d, FAVOURABLE);
    forall n: nat | n < |instances|
      ensures doc.at(n).builds && (Emits(c, instances[n], doc.at(n)) <==> EmittedOn(c, instances[n], d))
    {
      AtFavourable(c, instances, d, n);
    }
    forall n: nat | n < |instances| && instances[n].target.Descriptor? ensures !Emits(c, instances[n], doc.at(n)) {
      OnlyOne(instances, Descriptor, m, n);
    }
    AssembleExact(c, instances, doc, true);
  }

  // --- What the rule asks for beyond that ---

  /** A passing group is well paired; and of a well paired group the rule can only
      say that its descriptor has a gate, one that cannot close. */
  lemma RuleAndNeed(c: Contract, group: seq<Projection>)
    requires forall n | 0 <= n < |Instances(group)| :: Stepped(Instances(group)[n])
    ensures PairingViolations(c, group) == [] ==> WellPaired(c, group)
    ensures WellPaired(c, group)
            ==> PairingViolations(c, group) == [] || PairingViolations(c, group) == [GatedDescriptor]
  {
    if PairingViolations(c, group) == [] && CountOf(group, Reading) > 0 {
      forall n: nat | n < |Instances(group)| && Instances(group)[n].target.Descriptor?
          ensures GatesSure(c, Instances(group)[n]) {
        var k, m := InstancesFrom(group, n);
        assert group[k].target == Descriptor;
        GatedAlike(c, group[k], m);
        UngatedIsSure(c, Instances(group)[n]);
      }
    }
  }

  lemma UngatedIsSure(c: Contract, i: Instance)
    requires !Gated(c, i) && Stepped(i)
    ensures GatesSure(c, i)
  {
    ChainsPartition(i.fields);
    var chains := Chains(i.fields);
    hide Chains, FieldGates, AssemblyGates, Sure, SureEntries;
    forall k: nat | k < |chains| ensures !ChainGates(c, i.target, chains[k]) {
      assert chains[k] in chains && chains[k][0] in chains[k];
      assert InSome(chains, chains[k][0]);
      var n: nat :| n < |i.fields| && i.fields[n] == chains[k][0];
    }
  }

  // --- A gate that cannot close ---

  /** A required number on the source type itself, converted without fail, gating
      the descriptor beside a reading. */
  function SureRead(): R.Member {
    R.Member([R.Step("MinReading", R.Bare)], "Sensor.MinReading", false, true,
             R.Conversion(0, _ => R.Answer(Some(0), [])))
  }

  function SureField(): Field { Field(["range", "min"], false, true, SureRead()) }

  function SureGroup(): seq<Projection> {
    [Projection(Descriptor, [SureField()], [], None), Projection(Reading, [], [], None)]
  }

  function SureSchema(): Schema { Record(map["MinReading" := Property(R.Bare, Leaf)]) }

  function NothingRequired(): Contract { (_, _) => false }

  /** The rule refuses the group, and every document's parts are payable: the rule
      looks at declarations, not at what a declaration can lack. */
  lemma RefusedAndPayable(d: R.Doc, o: Setting)
    requires Decodes(SureSchema(), d)
    ensures PairingViolations(NothingRequired(), SureGroup()) == [GatedDescriptor]
    ensures Payable(RunOn(NothingRequired(), Instances(SureGroup()), d, o), o.key)
  {
    hide SureGroup, Instances, SureSchema, GatesSure, AllSourced, PairingViolations, Decodes, CountOf, SureField;
    hide RunOn, Payable, NothingRequired;
    SureInstances();
    SureCounts();
    SureViolation();
    SureIsSourced();
    SourcedStepped(SureSchema(), Instances(SureGroup()));
    hide Stepped;
    SureIsSure();
    WellPairedPayable(NothingRequired(), SureSchema(), SureGroup(), d, o);
  }

  lemma SureInstances()
    ensures Instances(SureGroup()) == [Instance(Descriptor, [SureField()], []), Instance(Reading, [], [])]
  {
    var group := SureGroup();
    assert group[..1] == [group[0]] && group[..1][..0] == [];
    assert Instances(group[..1]) == Instances([]) + InstancesOf(group[0]);
  }

  lemma SureCounts()
    ensures CountOf(SureGroup(), Inventory) == 0
    ensures CountOf(SureGroup(), Descriptor) == CountOf(SureGroup(), Reading) == 1
  {
    var group := SureGroup();
    assert group[..1] == [group[0]] && group[..1][..0] == [];
    hide InstancesOf;
    assert Copies(group[0]) == Copies(group[1]) == 1;
    forall target ensures CountOf(group[..1], target) == if target == Descriptor then 1 else 0 {
      assert CountOf(group[..1], target) == CountOf(group[..1][..0], target) + if target == Descriptor then 1 else 0;
    }
  }

  lemma SureViolation()
    ensures PairingViolations(NothingRequired(), SureGroup()) == [GatedDescriptor]
  {
    SureCounts();
    var p := SureGroup()[0];
    assert FieldGates(NothingRequired(), p.target, p.fields[0]);
    hide CountOf;
    assert DescriptorGated(NothingRequired(), p);
  }

  lemma SureChain()
    ensures Chains([SureField()]) == [[SureField()]] && Chains([]) == []
    ensures Reads([SureField()]) == [SureRead()]
  {
    assert [SureField()][..0] == [];
  }

  lemma SureIsSourced()
    ensures AllSourced(SureSchema(), Instances(SureGroup()))
  {
    SureInstances();
    SureChain();
    var (m, s) := (SureRead(), SureSchema());
    assert m.steps[1..] == [] && m.steps[..0] == [];
    assert Resolves(s, m.steps) && R.Readable(m);
    assert Admitted(s, [m]);
    hide Chains, Reads, Admitted, SureGroup, Instances;
  }

  lemma SureIsSure()
    ensures var i := Instance(Descriptor, [SureField()], []); Stepped(i) && GatesSure(NothingRequired(), i)
  {
    SureChain();
    var m := SureRead();
    assert R.AllBare(m.steps) && Solid(m);
    assert SureAt([m], 0);
    hide Chains, Reads, Sure;
    assert Sure([m]);
  }

  // --- Descriptors that exclude each other ---

  /** One enumeration, mapped to a value from disjoint rows. */
  function ExclusiveRead(row: int): R.Member {
    R.Member([R.Step("ReadingType", R.Bare)], "Sensor.ReadingType", false, false,
             R.Conversion(0, d => if d == R.Scalar(row) then R.Answer(Some(0), []) else R.Answer(None, [])))
  }

  function ExclusiveField(row: int): Field { Field(["kind"], true, false, ExclusiveRead(row)) }

  function ExclusiveGroup(): seq<Projection> {
    [Projection(Descriptor, [ExclusiveField(0)], [], None), Projection(Descriptor, [ExclusiveField(1)], [], None)]
  }

  /** Two descriptors anchored on disjoint rows: refused as duplicates, and never
      emitted together. */
  lemma ExclusiveAndPayable(d: R.Doc, o: Setting)
    ensures PairingViolations(NothingRequired(), ExclusiveGroup()) == [DuplicateDescriptors(2)]
    ensures Payable(RunOn(NothingRequired(), Instances(ExclusiveGroup()), d, o), o.key)
  {
    ExclusiveCounts();
    ExclusiveEmission(0, d);
    ExclusiveEmission(1, d);
    hide Instances, PairingViolations, ExclusiveGroup, ExclusiveField, EmittedOn, RunOn, R.Walk;
    TwoApart(NothingRequired(), Instances(ExclusiveGroup()), d, o);
  }

  lemma TwoApart(c: Contract, instances: seq<Instance>, d: R.Doc, o: Setting)
    requires |instances| == 2 && instances[0].target == instances[1].target == Descriptor
    requires !(EmittedOn(c, instances[0], d) && EmittedOn(c, instances[1], d))
    ensures Payable(RunOn(c, instances, d, o), o.key)
  {
    BuildsIrrelevant(c, instances[0], d, o.builds(0));
    BuildsIrrelevant(c, instances[1], d, o.builds(1));
    hide Emits, EmittedOn, EnvOf, Refuses;
    TwoDescriptors(c, instances, DocumentOf(instances, d, o));
  }

  lemma ExclusiveCounts()
    ensures PairingViolations(NothingRequired(), ExclusiveGroup()) == [DuplicateDescriptors(2)]
    ensures Instances(ExclusiveGroup()) ==
            [Instance(Descriptor, [ExclusiveField(0)], []), Instance(Descriptor, [ExclusiveField(1)], [])]
  {
    var group := ExclusiveGroup();
    assert group[..1] == [group[0]] && group[..1][..0] == [];
    assert Instances(group[..1]) == Instances([]) + InstancesOf(group[0]);
    hide Instances, InstancesOf;
    assert Copies(group[0]) == Copies(group[1]) == 1;
    forall target ensures CountOf(group[..1], target) == if target == Descriptor then 1 else 0 {
      assert CountOf(group[..1], target) == CountOf(group[..1][..0], target) + if target == Descriptor then 1 else 0;
    }
  }

  lemma ExclusiveEmission(row: int, d: R.Doc)
    ensures EmittedOn(NothingRequired(), Instance(Descriptor, [ExclusiveField(row)], []), d) ==>
              R.Walk(d, ExclusiveRead(0).steps) == R.Found(R.Scalar(row))
  {
    var (i, m, ch) := (Instance(Descriptor, [ExclusiveField(row)], []), ExclusiveRead(row), [ExclusiveField(row)]);
    ExclusiveChain(row);
    EmittedOnExactly(NothingRequired(), i, d);
    hide EmittedOn, Chains, Reads, R.Walk, R.ChainAnswer, Empty;
    assert Chains(i.fields)[0] == ch && ChainGates(NothingRequired(), i.target, ch);
    SingleAnswer(d, m);
    assert Answered(ch, d) == R.ChainAnswer(d, [m], m);
  }

  lemma ExclusiveChain(row: int)
    ensures Chains([ExclusiveField(row)]) == [[ExclusiveField(row)]]
    ensures Reads([ExclusiveField(row)]) == [ExclusiveRead(row)]
  {
    assert [ExclusiveField(row)][..0] == [];
  }

  lemma SingleAnswer(d: R.Doc, m: R.Member)
    ensures R.ChainAnswer(d, [m], m) == match R.MemberAnswer(d, m) case Some(a) => a case None => R.NoAnswer(m)
  {
    assert [m][1..] == [];
    assert R.ChainAnswer(d, [m][1..], m) == R.NoAnswer(m);
    hide R.MemberAnswer;
  }

  lemma TwoDescriptors(c: Contract, instances: seq<Instance>, d: Document)
    requires |instances| == 2 && instances[0].target == instances[1].target == Descriptor
    requires !(Emits(c, instances[0], d.at(0)) && Emits(c, instances[1], d.at(1)))
    ensures Payable(Run(c, instances, d), d.key)
  {
    hide Emits;
    var one := instances[..1];
    assert one[..0] == [] && one[0] == instances[0];
    var none := Assemble(c, one[..0], d);
    assert none == Parts([], [], 0);
    var first := Assemble(c, one, d);
    assert first == if !Emits(c, instances[0], d.at(0)) then none
                    else if !d.at(0).builds then Failed else Push(none, Descriptor, d.key);
    assert first.Parts? ==> first == Parts(if Emits(c, instances[0], d.at(0)) then [d.key] else [], [], 0);
    var second := Assemble(c, instances, d);
    assert second.Parts? ==> second.readings == [] && second.items == 0 && |second.descriptors| <= 1;
    hide Assemble;
  }
}
