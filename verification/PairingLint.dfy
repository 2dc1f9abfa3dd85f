/** The lint's pairing rule (`codegen/src/projection/lint.rs`) against what emission
    gates on (`codegen/src/projection/emit.rs`): one source type's projections, the
    generated function they become, and every document it could be run on. */
module PairingLint {
  import opened Bytes
  import R = ReadChains

  // --- Manifests ---

  datatype Target = Descriptor | Reading | Inventory | Other(name: string)

  type SetterPath = p: seq<string> | p != [] witness [""]

  /** A mapping; `read` is its source, null policy and conversion. */
  datatype Field = Field(target: SetterPath, anchor: bool, required: bool, read: R.Member)

  /** A map assembly; each entry is read as a mapping of its own. */
  datatype Assembly = Assembly(target: string, anchor: bool, entries: seq<R.Member>)

  /** An expansion's declarations, substituted per member: sources change, targets
      and gates do not. */
  datatype FieldTemplate = FieldTemplate(target: SetterPath, anchor: bool, required: bool, read: string -> R.Member) {
    function For(member: string): Field { Field(target, anchor, required, read(member)) }
  }

  datatype AssemblyTemplate = AssemblyTemplate(target: string, anchor: bool, entries: string -> seq<R.Member>) {
    function For(member: string): Assembly { Assembly(target, anchor, entries(member)) }
  }

  datatype Expansion = Expansion(members: seq<string>, fields: seq<FieldTemplate>, assemblies: seq<AssemblyTemplate>)

  datatype Projection = Projection(target: Target, fields: seq<Field>, assemblies: seq<Assembly>,
      expansion: Option<Expansion>)

  /** One instance to emit. */
  datatype Instance = Instance(target: Target, fields: seq<Field>, assemblies: seq<Assembly>)

  /** Which root fields of which targets the contract requires. */
  type Contract = (Target, string) -> bool

  function FieldsFor(e: Expansion, member: string): (r: seq<Field>)
    ensures |r| == |e.fields| && forall i | 0 <= i < |r| :: r[i] == e.fields[i].For(member)
  {
    seq(|e.fields|, i requires 0 <= i < |e.fields| => e.fields[i].For(member))
  }

  function AssembliesFor(e: Expansion, member: string): (r: seq<Assembly>)
    ensures |r| == |e.assemblies| && forall i | 0 <= i < |r| :: r[i] == e.assemblies[i].For(member)
  {
    seq(|e.assemblies|, i requires 0 <= i < |e.assemblies| => e.assemblies[i].For(member))
  }

  function InstanceFor(p: Projection, e: Expansion, member: string): Instance {
    Instance(p.target, p.fields + FieldsFor(e, member), p.assemblies + AssembliesFor(e, member))
  }

  /** The projection itself, or one instance per member. */
  function InstancesOf(p: Projection): (r: seq<Instance>)
    ensures forall i | 0 <= i < |r| :: r[i].target == p.target
  {
    match p.expansion
    case None => [Instance(p.target, p.fields, p.assemblies)]
    case Some(e) => seq(|e.members|, i requires 0 <= i < |e.members| => InstanceFor(p, e, e.members[i]))
  }

  function Copies(p: Projection): nat { |InstancesOf(p)| }

  function Instances(group: seq<Projection>): seq<Instance> {
    if group == [] then [] else Instances(group[..|group| - 1]) + InstancesOf(group[|group| - 1])
  }

  // --- What the lint counts as gating ---

  predicate Gates(c: Contract, target: Target, path: SetterPath, anchor: bool, required: bool) {
    anchor || required || c(target, path[0])
  }

  predicate FieldGates(c: Contract, target: Target, f: Field) { Gates(c, target, f.target, f.anchor, f.required) }

  predicate AssemblyGates(c: Contract, target: Target, a: Assembly) { a.anchor || c(target, a.target) }

  predicate Gated(c: Contract, i: Instance) {
    || (exists k | 0 <= k < |i.fields| :: FieldGates(c, i.target, i.fields[k]))
    || (exists k | 0 <= k < |i.assemblies| :: AssemblyGates(c, i.target, i.assemblies[k]))
  }

  /** The gates of an expansion's own declarations. */
  predicate TemplatesGate(c: Contract, target: Target, e: Expansion) {
    || (exists k | 0 <= k < |e.fields| ::
          Gates(c, target, e.fields[k].target, e.fields[k].anchor, e.fields[k].required))
    || (exists k | 0 <= k < |e.assemblies| :: e.assemblies[k].anchor || c(target, e.assemblies[k].target))
  }

  /** The lint reads a projection's gates off its declarations, expansion
      templates included. */
  predicate DescriptorGated(c: Contract, p: Projection) {
    || Gated(c, Instance(p.target, p.fields, p.assemblies))
    || (p.expansion.Some? && TemplatesGate(c, p.target, p.expansion.value))
  }

  lemma GatedOver(c: Contract, target: Target, fs: seq<Field>, gs: seq<Field>, xs: seq<Assembly>, ys: seq<Assembly>)
    ensures Gated(c, Instance(target, fs + gs, xs + ys)) <==>
            Gated(c, Instance(target, fs, xs)) || Gated(c, Instance(target, gs, ys))
  {
    hide FieldGates, AssemblyGates;
    var (fields, assemblies) := (fs + gs, xs + ys);
    forall k | 0 <= k < |gs| ensures fields[|fs| + k] == gs[k] { }
    forall k | 0 <= k < |ys| ensures assemblies[|xs| + k] == ys[k] { }
    forall k | 0 <= k < |fs| ensures fields[k] == fs[k] { }
    forall k | 0 <= k < |xs| ensures assemblies[k] == xs[k] { }
  }

  lemma TemplatesAlike(c: Contract, target: Target, e: Expansion, member: string)
    ensures Gated(c, Instance(target, FieldsFor(e, member), AssembliesFor(e, member))) <==> TemplatesGate(c, target, e)
  {
    hide Gates;
    var (fs, xs) := (FieldsFor(e, member), AssembliesFor(e, member));
    if k: nat :| k < |e.fields| && Gates(c, target, e.fields[k].target, e.fields[k].anchor, e.fields[k].required) {
      assert FieldGates(c, target, fs[k]);
    }
    if k: nat :| k < |e.assemblies| && (e.assemblies[k].anchor || c(target, e.assemblies[k].target)) {
      assert AssemblyGates(c, target, xs[k]);
    }
  }

  /** Substitution leaves gates alone. */
  lemma {:induction false} GatedAlike(c: Contract, p: Projection, n: nat)
    requires n < |InstancesOf(p)|
    ensures Gated(c, InstancesOf(p)[n]) <==> DescriptorGated(c, p)
  {
    hide Gated, TemplatesGate;
    if p.expansion.Some? {
      var e := p.expansion.value;
      GatedOver(c, p.target, p.fields, FieldsFor(e, e.members[n]), p.assemblies, AssembliesFor(e, e.members[n]));
      TemplatesAlike(c, p.target, e, e.members[n]);
    }
  }

  function CountOf(group: seq<Projection>, target: Target): nat {
    if group == [] then 0
    else CountOf(group[..|group| - 1], target)
         + if group[|group| - 1].target == target then Copies(group[|group| - 1]) else 0
  }

  datatype Violation = InventoryPairing(items: nat) | DuplicateDescriptors(count: nat) | UnpairedReadings
      | GatedDescriptor

  function PairingViolations(c: Contract, group: seq<Projection>): seq<Violation> {
    var (items, descriptors) := (CountOf(group, Inventory), CountOf(group, Descriptor));
    var readings := CountOf(group, Reading);
    (if items > 1 then [InventoryPairing(items)] else [])
    + (if descriptors > 1 then [DuplicateDescriptors(descriptors)] else [])
    + (if readings == 0 then []
       else if descriptors != 1 then [UnpairedReadings]
       else if exists k | 0 <= k < |group| :: group[k].target == Descriptor && DescriptorGated(c, group[k])
       then [GatedDescriptor]
       else [])
  }

  lemma CountNone()
    ensures forall target :: CountOf([], target) == 0
  {
  }

  lemma CountOne(group: seq<Projection>, i: nat, target: Target)
    requires i < |group|
    ensures CountOf(group[..i + 1], target) ==
            CountOf(group[..i], target) + if group[i].target == target then Copies(group[i]) else 0
  {
    assert group[..i + 1][..i] == group[..i];
  }

  method CheckPayloadPairing(c: Contract, group: seq<Projection>) returns (violations: seq<Violation>)
    ensures violations == PairingViolations(c, group)
  {
    hide DescriptorGated, Copies, CountOf;
    var items, descriptors, readings := 0, 0, 0;
    var gated := false;
    CountNone();
    for i := 0 to |group|
      invariant items == CountOf(group[..i], Inventory)
      invariant descriptors == CountOf(group[..i], Descriptor)
      invariant readings == CountOf(group[..i], Reading)
      invariant gated <==> exists k | 0 <= k < i :: group[k].target == Descriptor && DescriptorGated(c, group[k])
    {
      var p := group[i];
      CountOne(group, i, Inventory);
      CountOne(group, i, Descriptor);
      CountOne(group, i, Reading);
      match p.target {
        case Inventory => items := items + Copies(p);
        case Descriptor =>
          descriptors := descriptors + Copies(p);
          gated := gated || DescriptorGated(c, p);
        case Reading => readings := readings + Copies(p);
        case Other(_) =>
      }
    }
    assert group[..|group|] == group;
    violations := [];
    if items > 1 {
      violations := violations + [InventoryPairing(items)];
    }
    if descriptors > 1 {
      violations := violations + [DuplicateDescriptors(descriptors)];
    }
    if readings == 0 {
      return;
    }
    if descriptors != 1 {
      violations := violations + [UnpairedReadings];
      return;
    }
    if gated {
      violations := violations + [GatedDescriptor];
    }
  }

  // --- Fallback chains ---

  const NO_READ := R.Member([], "", false, false, R.Conversion(0, _ => R.Refused))

  type Chain = ch: seq<Field> | ch != [] witness [Field([""], false, false, NO_READ)]

  /** The field joins the chain of its target, or starts one. */
  function Join(chains: seq<Chain>, f: Field): seq<Chain> {
    if chains == [] then [[f]]
    else if chains[0][0].target == f.target then [chains[0] + [f]] + chains[1..]
    else [chains[0]] + Join(chains[1..], f)
  }

  function Chains(fields: seq<Field>): seq<Chain> {
    if fields == [] then [] else Join(Chains(fields[..|fields| - 1]), fields[|fields| - 1])
  }

  lemma {:induction false} JoinAt(chains: seq<Chain>, f: Field, k: nat)
    requires k <= |chains| && forall j | 0 <= j < k :: chains[j][0].target != f.target
    requires k < |chains| ==> chains[k][0].target == f.target
    ensures Join(chains, f)
            == if k < |chains| then chains[..k] + [chains[k] + [f]] + chains[k + 1..] else chains + [[f]]
  {
    if k > 0 {
      JoinAt(chains[1..], f, k - 1);
      assert chains == [chains[0]] + chains[1..];
    } else if chains != [] {
      assert chains[..0] + [chains[0] + [f]] == [chains[0] + [f]];
    }
  }

  /** Mappings onto one target are one chain, in declaration order. */
  method GroupChains(fields: seq<Field>) returns (chains: seq<Chain>)
    ensures chains == Chains(fields)
  {
    chains := [];
    for i := 0 to |fields|
      invariant chains == Chains(fields[..i])
    {
      var field := fields[i];
      assert fields[..i + 1][..i] == fields[..i];
      var k := 0;
      while k < |chains| && chains[k][0].target != field.target
        invariant k <= |chains| && forall j | 0 <= j < k :: chains[j][0].target != field.target
      {
        k := k + 1;
      }
      JoinAt(chains, field, k);
      chains := if k < |chains| then chains[..k] + [chains[k] + [field]] + chains[k + 1..] else chains + [[field]];
    }
    assert fields[..|fields|] == fields;
  }

  ghost predicate OneTarget(ch: Chain) { forall f | f in ch :: f.target == ch[0].target }

  ghost predicate OneTargetEach(chains: seq<Chain>) { forall k | 0 <= k < |chains| :: OneTarget(chains[k]) }

  lemma {:induction false} JoinKeeps(chains: seq<Chain>, f: Field, g: Field)
    requires OneTargetEach(chains)
    ensures OneTargetEach(Join(chains, f))
    ensures InSome(Join(chains, f), g) <==> InSome(chains, g) || g == f
  {
    if chains == [] {
      assert f in [[f]][0];
    } else {
      assert chains == [chains[0]] + chains[1..];
      InSomeCons(chains[0], chains[1..], g);
      if chains[0][0].target == f.target {
        var grown: Chain := chains[0] + [f];
        assert grown[0] == chains[0][0] && OneTarget(chains[0]) && OneTarget(grown);
        InSomeCons(grown, chains[1..], g);
      } else {
        JoinKeeps(chains[1..], f, g);
        InSomeCons(chains[0], Join(chains[1..], f), g);
      }
    }
  }

  ghost predicate InSome(chains: seq<Chain>, f: Field) { exists ch :: ch in chains && f in ch }

  lemma InSomeCons(ch: Chain, rest: seq<Chain>, f: Field)
    ensures InSome([ch] + rest, f) <==> f in ch || InSome(rest, f)
  {
    assert ch in [ch] + rest;
  }

  /** Chains partition an instance's fields by target. */
  lemma {:induction false} ChainsPartition(fields: seq<Field>)
    ensures OneTargetEach(Chains(fields))
    ensures forall f :: f in fields <==> InSome(Chains(fields), f)
  {
    if fields != [] {
      var (init, last) := (fields[..|fields| - 1], fields[|fields| - 1]);
      ChainsPartition(init);
      assert fields == init + [last];
      forall f ensures f in fields <==> InSome(Chains(fields), f) {
        JoinKeeps(Chains(init), last, f);
      }
      JoinKeeps(Chains(init), last, last);
    }
  }

  predicate ChainGates(c: Contract, target: Target, ch: Chain) { FieldGates(c, target, ch[0]) }

  // --- Emission: outputs and their gates ---

  datatype Gate = IsSome(local: nat) | Hoisted(gates: seq<Gate>)

  predicate Holds(g: Gate, present: nat -> bool) {
    match g
    case IsSome(local) => present(local)
    case Hoisted(gates) => forall k | 0 <= k < |gates| :: Holds(gates[k], present)
  }

  datatype Pending = Pending(path: SetterPath, gates: seq<Gate>)

  datatype Output = Output(setter: string, gates: seq<Gate>)

  predicate AllHold(gates: seq<Gate>, present: nat -> bool) { forall k | 0 <= k < |gates| :: Holds(gates[k], present) }

  predicate OutputsHold(outputs: seq<Output>, present: nat -> bool) {
    forall k | 0 <= k < |outputs| :: AllHold(outputs[k].gates, present)
  }

  predicate PendingHold(pending: seq<Pending>, present: nat -> bool) {
    forall k | 0 <= k < |pending| :: AllHold(pending[k].gates, present)
  }

  function Heads(pending: seq<Pending>): seq<string> {
    if pending == [] then []
    else
      var (heads, last) := (Heads(pending[..|pending| - 1]), pending[|pending| - 1]);
      if |last.path| > 1 && last.path[0] !in heads then heads + [last.path[0]] else heads
  }

  function Flat(pending: seq<Pending>): seq<Output> {
    if pending == [] then []
    else
      var last := pending[|pending| - 1];
      Flat(pending[..|pending| - 1]) + if |last.path| > 1 then [] else [Output(last.path[0], last.gates)]
  }

  /** What lands inside `head`, with that segment taken off. */
  function Inside(pending: seq<Pending>, head: string): (inner: seq<Pending>)
    ensures Height(inner) <= if Height(pending) == 0 then 0 else Height(pending) - 1
  {
    if pending == [] then []
    else
      var (rest, last) := (Inside(pending[..|pending| - 1], head), pending[|pending| - 1]);
      if |last.path| > 1 && last.path[0] == head then
        var inner := rest + [Pending(last.path[1..], last.gates)];
        assert inner[..|inner| - 1] == rest;
        inner
      else rest
  }

  /** The longest setter path. */
  function Height(pending: seq<Pending>): nat {
    if pending == [] then 0
    else
      var (rest, last) := (Height(pending[..|pending| - 1]), |pending[|pending| - 1].path|);
      if last > rest then last else rest
  }

  function GatesOf(outputs: seq<Output>): seq<Gate> {
    if outputs == [] then [] else GatesOf(outputs[..|outputs| - 1]) + outputs[|outputs| - 1].gates
  }

  /** A group's output carries its members' gates hoisted into one flag. */
  function GroupOutput(head: string, members: seq<Output>): Output {
    Output(head, if GatesOf(members) == [] then [] else [Hoisted(GatesOf(members))])
  }

  function Groups(pending: seq<Pending>): seq<Output>
    decreases Height(pending), 1
  {
    Flat(pending) + GroupsOf(pending, Heads(pending))
  }

  function GroupsOf(pending: seq<Pending>, heads: seq<string>): (outputs: seq<Output>)
    requires heads != [] ==> pending != []
    decreases Height(pending), 0, |heads|
  {
    if heads == [] then []
    else
      var (init, head) := (heads[..|heads| - 1], heads[|heads| - 1]);
      GroupsOf(pending, init) + [GroupOutput(head, Groups(Inside(pending, head)))]
  }

  /** Each head seen so far has its members in its bucket. */
  ghost predicate Bucketed(pending: seq<Pending>, grouped: map<string, seq<Pending>>) {
    forall h :: Inside(pending, h) == Held(grouped, h)
  }

  function Held(grouped: map<string, seq<Pending>>, h: string): seq<Pending> { if h in grouped then grouped[h] else [] }

  ghost predicate SameKeys(heads: seq<string>, grouped: map<string, seq<Pending>>) {
    forall h :: h in heads <==> h in grouped
  }

  lemma InsideStep(pending: seq<Pending>, next: Pending, h: string)
    ensures Inside(pending + [next], h) ==
            if |next.path| > 1 && next.path[0] == h then Inside(pending, h) + [Pending(next.path[1..], next.gates)]
            else Inside(pending, h)
  {
    assert (pending + [next])[..|pending|] == pending;
  }

  function AddTo(grouped: map<string, seq<Pending>>, head: string, inner: Pending): map<string, seq<Pending>> {
    grouped[head := Held(grouped, head) + [inner]]
  }

  lemma AddedHeld(grouped: map<string, seq<Pending>>, head: string, inner: Pending, h: string)
    ensures Held(AddTo(grouped, head, inner), h) == if h == head then Held(grouped, h) + [inner] else Held(grouped, h)
  {
  }

  lemma AddedKeys(heads: seq<string>, grouped: map<string, seq<Pending>>, head: string, inner: Pending)
    requires SameKeys(heads, grouped)
    ensures SameKeys(if head in heads then heads else heads + [head], AddTo(grouped, head, inner))
  {
    hide Held;
    assert forall h :: h in AddTo(grouped, head, inner) <==> h in grouped || h == head;
    assert forall h :: h in heads + [head] <==> h in heads || h == head;
  }

  lemma BucketFlat(pending: seq<Pending>, grouped: map<string, seq<Pending>>, next: Pending)
    requires Bucketed(pending, grouped) && |next.path| == 1
    ensures Bucketed(pending + [next], grouped)
  {
    hide Inside, Held;
    forall h ensures Inside(pending + [next], h) == Held(grouped, h) { InsideStep(pending, next, h); }
  }

  lemma BucketInner(pending: seq<Pending>, grouped: map<string, seq<Pending>>, next: Pending)
    requires Bucketed(pending, grouped) && |next.path| > 1
    ensures Bucketed(pending + [next], AddTo(grouped, next.path[0], Pending(next.path[1..], next.gates)))
  {
    hide Inside, Held, AddTo;
    var inner := Pending(next.path[1..], next.gates);
    forall h ensures Inside(pending + [next], h) == Held(AddTo(grouped, next.path[0], inner), h) {
      InsideStep(pending, next, h);
      AddedHeld(grouped, next.path[0], inner, h);
    }
  }

  method Bucket(pending: seq<Pending>)
    returns (flat: seq<Output>, heads: seq<string>, grouped: map<string, seq<Pending>>)
    ensures flat == Flat(pending) && heads == Heads(pending)
    ensures SameKeys(heads, grouped) && Bucketed(pending, grouped)
  {
    flat, heads, grouped := [], [], map[];
    assert Bucketed(pending[..0], grouped);
    hide Bucketed, SameKeys, AddTo;
    for i := 0 to |pending|
      invariant flat == Flat(pending[..i]) && heads == Heads(pending[..i])
      invariant SameKeys(heads, grouped) && Bucketed(pending[..i], grouped)
    {
      var output := pending[i];
      assert pending[..i + 1] == pending[..i] + [output];
      assert pending[..i + 1][..i] == pending[..i];
      if |output.path| > 1 {
        var (head, inner) := (output.path[0], Pending(output.path[1..], output.gates));
        BucketInner(pending[..i], grouped, output);
        AddedKeys(heads, grouped, head, inner);
        grouped := AddTo(grouped, head, inner);
        if head !in heads {
          heads := heads + [head];
        }
      } else {
        BucketFlat(pending[..i], grouped, output);
        flat := flat + [Output(output.path[0], output.gates)];
      }
    }
    assert pending[..|pending|] == pending;
  }

  /** Bucketing by head, then building each group inside out. */
  method BuildGroups(pending: seq<Pending>) returns (outputs: seq<Output>)
    ensures outputs == Groups(pending)
    decreases Height(pending)
  {
    var flat, heads, grouped := Bucket(pending);
    GroupsUnfold(pending);
    hide Groups, Height, GatesOf, Inside, Flat, Heads;
    if heads == [] {
      assert flat + [] == flat;
      return flat;
    }
    HeightFalls(pending);
    outputs := flat;
    for k := 0 to |heads|
      invariant outputs == flat + GroupsOf(pending, heads[..k])
    {
      BucketAt(pending, heads, grouped, k);
      var members := BuildGroups(grouped[heads[k]]);
      var gates := CollectGates(members);
      NextGroup(pending, heads, flat, k);
      outputs := outputs + [Output(heads[k], if gates == [] then [] else [Hoisted(gates)])];
    }
    assert heads[..|heads|] == heads;
  }

  lemma BucketAt(pending: seq<Pending>, heads: seq<string>, grouped: map<string, seq<Pending>>, k: nat)
    requires k < |heads| && SameKeys(heads, grouped) && Bucketed(pending, grouped)
    ensures heads[k] in grouped && Inside(pending, heads[k]) == grouped[heads[k]]
  {
    hide Inside;
    assert heads[k] in heads && Inside(pending, heads[k]) == Held(grouped, heads[k]);
  }

  lemma NextGroup(pending: seq<Pending>, heads: seq<string>, flat: seq<Output>, k: nat)
    requires k < |heads| && pending != []
    ensures flat + GroupsOf(pending, heads[..k + 1])
            == (flat + GroupsOf(pending, heads[..k])) + [GroupOutput(heads[k], Groups(Inside(pending, heads[k])))]
  {
    hide Inside, Groups;
    assert heads[..k + 1][..k] == heads[..k];
    Assoc(flat, GroupsOf(pending, heads[..k]), [GroupOutput(heads[k], Groups(Inside(pending, heads[k])))]);
  }

  lemma GroupsUnfold(pending: seq<Pending>)
    ensures Groups(pending) == Flat(pending) + GroupsOf(pending, Heads(pending))
  {
  }

  lemma HeightFalls(pending: seq<Pending>)
    ensures forall h | pending != [] :: Height(Inside(pending, h)) < Height(pending)
    ensures Heads(pending) != [] ==> pending != []
  {
  }

  method CollectGates(members: seq<Output>) returns (gates: seq<Gate>)
    ensures gates == GatesOf(members)
  {
    gates := [];
    for i := 0 to |members|
      invariant gates == GatesOf(members[..i])
    {
      assert members[..i + 1][..i] == members[..i];
      gates := gates + members[i].gates;
    }
    assert members[..|members|] == members;
  }

  // --- Grouping keeps every gate ---

  lemma {:induction false} GatesOfHold(outputs: seq<Output>, present: nat -> bool)
    ensures AllHold(GatesOf(outputs), present) <==> OutputsHold(outputs, present)
  {
    if outputs != [] {
      var (init, last) := (outputs[..|outputs| - 1], outputs[|outputs| - 1]);
      GatesOfHold(init, present);
      AllHoldConcat(GatesOf(init), last.gates, present);
      OutputsHoldConcat(init, [last], present);
      assert outputs == init + [last];
    }
  }

  lemma AllHoldConcat(x: seq<Gate>, y: seq<Gate>, present: nat -> bool)
    ensures AllHold(x + y, present) <==> AllHold(x, present) && AllHold(y, present)
  {
    if AllHold(x + y, present) {
      forall k | 0 <= k < |x| ensures Holds(x[k], present) { assert (x + y)[k] == x[k]; }
      forall k | 0 <= k < |y| ensures Holds(y[k], present) { assert (x + y)[|x| + k] == y[k]; }
    }
  }

  lemma OutputsHoldConcat(x: seq<Output>, y: seq<Output>, present: nat -> bool)
    ensures OutputsHold(x + y, present) <==> OutputsHold(x, present) && OutputsHold(y, present)
  {
    hide AllHold;
    if OutputsHold(x + y, present) {
      forall k | 0 <= k < |x| ensures AllHold(x[k].gates, present) { assert (x + y)[k] == x[k]; }
      forall k | 0 <= k < |y| ensures AllHold(y[k].gates, present) { assert (x + y)[|x| + k] == y[k]; }
    }
  }

  lemma GroupOutputHolds(head: string, members: seq<Output>, present: nat -> bool)
    ensures AllHold(GroupOutput(head, members).gates, present) <==> OutputsHold(members, present)
  {
    GatesOfHold(members, present);
    var gates := GatesOf(members);
    if gates != [] {
      assert Holds(Hoisted(gates), present) <==> AllHold(gates, present);
      assert AllHold([Hoisted(gates)], present) <==> Holds([Hoisted(gates)][0], present);
    }
  }

  predicate InsideHold(pending: seq<Pending>, heads: seq<string>, present: nat -> bool) {
    forall k | 0 <= k < |heads| :: PendingHold(Inside(pending, heads[k]), present)
  }

  /** Hoisting a group's gates into a flag loses none and adds none: the outputs'
      conditions hold exactly when every pending mapping's do, at any nesting. */
  lemma {:induction false} GroupsKeepGates(pending: seq<Pending>, present: nat -> bool)
    ensures OutputsHold(Groups(pending), present) <==> PendingHold(pending, present)
    decreases Height(pending), 1
  {
    var heads := Heads(pending);
    GroupsOfKeepGates(pending, heads, present);
    OutputsHoldConcat(Flat(pending), GroupsOf(pending, heads), present);
    PendingSplits(pending, present);
  }

  lemma {:induction false} GroupsOfKeepGates(pending: seq<Pending>, heads: seq<string>, present: nat -> bool)
    requires heads != [] ==> pending != []
    ensures OutputsHold(GroupsOf(pending, heads), present) <==> InsideHold(pending, heads, present)
    decreases Height(pending), 0, |heads|
  {
    if heads != [] {
      var (init, head) := (heads[..|heads| - 1], heads[|heads| - 1]);
      var inner := Inside(pending, head);
      GroupsOfKeepGates(pending, init, present);
      HeightFalls(pending);
      GroupsKeepGates(inner, present);
      InsideHoldLast(pending, heads, present);
      GroupOutputHolds(head, Groups(inner), present);
      GroupsOfLast(pending, heads, present);
      hide Groups, PendingHold, GatesOf, AllHold, Inside, GroupOutput, GroupsOf, OutputsHold, InsideHold, Height;
    }
  }

  lemma GroupsOfLast(pending: seq<Pending>, heads: seq<string>, present: nat -> bool)
    requires heads != [] && pending != []
    ensures var (init, head) := (heads[..|heads| - 1], heads[|heads| - 1]);
            OutputsHold(GroupsOf(pending, heads), present) <==>
            && OutputsHold(GroupsOf(pending, init), present)
            && AllHold(GroupOutput(head, Groups(Inside(pending, head))).gates, present)
  {
    var (init, head) := (heads[..|heads| - 1], heads[|heads| - 1]);
    var last := GroupOutput(head, Groups(Inside(pending, head)));
    assert GroupsOf(pending, heads) == GroupsOf(pending, init) + [last];
    hide Groups, GroupsOf, AllHold, Inside, GroupOutput;
    OutputsHoldConcat(GroupsOf(pending, init), [last], present);
    assert OutputsHold([last], present) <==> AllHold([last][0].gates, present);
  }

  lemma InsideHoldLast(pending: seq<Pending>, heads: seq<string>, present: nat -> bool)
    requires heads != []
    ensures InsideHold(pending, heads, present) <==>
            InsideHold(pending, heads[..|heads| - 1], present)
                && PendingHold(Inside(pending, heads[|heads| - 1]), present)
  {
    hide Inside, PendingHold;
    var init := heads[..|heads| - 1];
    assert forall k | 0 <= k < |init| :: init[k] == heads[k];
  }

  // --- Which setters are called ---

  ghost function CallsOf(outputs: seq<Output>, setter: string): set<nat> {
    set n: nat | n < |outputs| && outputs[n].setter == setter
  }

  ghost function Landing(pending: seq<Pending>, setter: string): set<nat> {
    set k: nat | k < |pending| && pending[k].path == [setter]
  }

  ghost predicate LandsInside(pending: seq<Pending>, setter: string) {
    exists k: nat :: k < |pending| && |pending[k].path| > 1 && pending[k].path[0] == setter
  }

  lemma CallsPush(outputs: seq<Output>, o: Output, setter: string)
    ensures |CallsOf(outputs + [o], setter)| == |CallsOf(outputs, setter)| + if o.setter == setter then 1 else 0
  {
    var (before, after) := (CallsOf(outputs, setter), CallsOf(outputs + [o], setter));
    assert after == before + if o.setter == setter then {|outputs|} else {};
    assert |outputs| !in before;
  }

  lemma LandingPush(pending: seq<Pending>, p: Pending, setter: string)
    ensures |Landing(pending + [p], setter)| == |Landing(pending, setter)| + if p.path == [setter] then 1 else 0
  {
    var (before, after) := (Landing(pending, setter), Landing(pending + [p], setter));
    assert after == before + if p.path == [setter] then {|pending|} else {};
    assert |pending| !in before;
  }

  lemma {:induction false} FlatCalls(pending: seq<Pending>, setter: string)
    ensures |CallsOf(Flat(pending), setter)| == |Landing(pending, setter)|
  {
    if pending == [] {
      assert CallsOf([], setter) == {} && Landing([], setter) == {};
    } else {
      var (init, last) := (pending[..|pending| - 1], pending[|pending| - 1]);
      FlatCalls(init, setter);
      LandingPush(init, last, setter);
      assert pending == init + [last];
      if |last.path| == 1 {
        CallsPush(Flat(init), Output(last.path[0], last.gates), setter);
        assert last.path == [setter] <==> last.path[0] == setter;
      } else {
        assert Flat(pending) == Flat(init) + [] == Flat(init);
      }
    }
  }

  lemma {:induction false} HeadsOnce(pending: seq<Pending>)
    ensures forall i, j | 0 <= i < j < |Heads(pending)| :: Heads(pending)[i] != Heads(pending)[j]
    ensures forall h :: h in Heads(pending) <==> LandsInside(pending, h)
  {
    if pending != [] {
      var (init, last) := (pending[..|pending| - 1], pending[|pending| - 1]);
      HeadsOnce(init);
      assert pending == init + [last];
      forall h ensures LandsInside(pending, h) <==> LandsInside(init, h) || (|last.path| > 1 && last.path[0] == h) {
        if k: nat :| k < |init| && |init[k].path| > 1 && init[k].path[0] == h {
          assert pending[k] == init[k];
        }
        assert pending[|init|] == last;
      }
      hide LandsInside;
    }
  }

  lemma {:induction false} GroupCalls(pending: seq<Pending>, heads: seq<string>, setter: string)
    requires heads != [] ==> pending != []
    requires forall i, j | 0 <= i < j < |heads| :: heads[i] != heads[j]
    ensures |CallsOf(Flat(pending) + GroupsOf(pending, heads), setter)|
            == |CallsOf(Flat(pending), setter)| + if setter in heads then 1 else 0
  {
    hide Groups, Inside, Flat, CallsOf, GroupOutput;
    if heads == [] {
      assert Flat(pending) + [] == Flat(pending);
    } else {
      var (init, head) := (heads[..|heads| - 1], heads[|heads| - 1]);
      GroupCalls(pending, init, setter);
      hide GroupsOf;
      var (before, last) := (Flat(pending) + GroupsOf(pending, init), GroupOutput(head, Groups(Inside(pending, head))));
      assert Flat(pending) + GroupsOf(pending, heads) == before + [last] by {
        assert heads[..|init| + 1] == heads;
        NextGroup(pending, heads, Flat(pending), |init|);
      }
      CallsPush(before, last, setter);
      assert last.setter == head by { CalledAs(head, Groups(Inside(pending, head))); }
      assert heads == init + [head] && head !in init;
    }
  }

  lemma CalledAs(head: string, members: seq<Output>)
    ensures GroupOutput(head, members).setter == head
  {
  }

  /** A setter is called once for each mapping that lands on it and once more, with
      the group built inside it, if any mapping lands deeper. */
  lemma SettersExactly(pending: seq<Pending>, setter: string)
    ensures |CallsOf(Groups(pending), setter)|
            == |Landing(pending, setter)| + if LandsInside(pending, setter) then 1 else 0
  {
    GroupsUnfold(pending);
    HeadsOnce(pending);
    HeightFalls(pending);
    FlatCalls(pending, setter);
    hide Groups, Heads, Flat, CallsOf, LandsInside;
    GroupCalls(pending, Heads(pending), setter);
  }

  /** Every pending mapping is either flat or inside exactly its own head. */
  lemma {:induction false} PendingSplits(pending: seq<Pending>, present: nat -> bool)
    ensures PendingHold(pending, present) <==>
            OutputsHold(Flat(pending), present) && InsideHold(pending, Heads(pending), present)
  {
    HeadsExact(pending);
    FlatHolds(pending, present);
    forall h: string ensures PendingHold(Inside(pending, h), present) <==> InHeadHold(pending, h, present) {
      InsideHolds(pending, h, present);
    }
    var heads := Heads(pending);
    hide AllHold, Heads, Flat, Inside;
    if OutputsHold(Flat(pending), present) && InsideHold(pending, heads, present) {
      forall k | 0 <= k < |pending| ensures AllHold(pending[k].gates, present) {
        if |pending[k].path| > 1 {
          var j :| 0 <= j < |heads| && heads[j] == pending[k].path[0];
          assert PendingHold(Inside(pending, heads[j]), present);
        }
      }
    }
  }

  predicate InHeadHold(pending: seq<Pending>, h: string, present: nat -> bool) {
    forall k | 0 <= k < |pending| && |pending[k].path| > 1 && pending[k].path[0] == h ::
      AllHold(pending[k].gates, present)
  }

  lemma {:induction false} HeadsExact(pending: seq<Pending>)
    ensures forall k | 0 <= k < |pending| && |pending[k].path| > 1 :: pending[k].path[0] in Heads(pending)
  {
    if pending != [] {
      var init := pending[..|pending| - 1];
      HeadsExact(init);
      assert forall k | 0 <= k < |init| :: init[k] == pending[k];
    }
  }

  predicate FlatHold(pending: seq<Pending>, present: nat -> bool) {
    forall k | 0 <= k < |pending| && |pending[k].path| == 1 :: AllHold(pending[k].gates, present)
  }

  lemma FlatHoldLast(init: seq<Pending>, last: Pending, present: nat -> bool)
    ensures FlatHold(init + [last], present) <==>
            FlatHold(init, present) && (|last.path| == 1 ==> AllHold(last.gates, present))
  {
    hide AllHold;
    var all := init + [last];
    assert all[|init|] == last && forall k | 0 <= k < |init| :: init[k] == all[k];
  }

  lemma {:induction false} FlatHolds(pending: seq<Pending>, present: nat -> bool)
    ensures OutputsHold(Flat(pending), present) <==> FlatHold(pending, present)
  {
    if pending != [] {
      var (init, last) := (pending[..|pending| - 1], pending[|pending| - 1]);
      FlatHolds(init, present);
      FlatHoldLast(init, last, present);
      assert pending == init + [last];
      hide AllHold, FlatHold;
      if |last.path| == 1 {
        var own := Output(last.path[0], last.gates);
        assert Flat(pending) == Flat(init) + [own];
        OutputsHoldConcat(Flat(init), [own], present);
        assert OutputsHold([own], present) <==> AllHold([own][0].gates, present);
      } else {
        assert Flat(pending) == Flat(init) + [] == Flat(init);
      }
    }
  }

  lemma {:induction false} InsideHolds(pending: seq<Pending>, h: string, present: nat -> bool)
    ensures PendingHold(Inside(pending, h), present) <==> InHeadHold(pending, h, present)
  {
    if pending != [] {
      var (init, last) := (pending[..|pending| - 1], pending[|pending| - 1]);
      InsideHolds(init, h, present);
      assert InHeadHold(pending, h, present) <==>
             InHeadHold(init, h, present)
             && (|last.path| > 1 && last.path[0] == h ==> AllHold(last.gates, present)) by {
        hide AllHold, Inside;
        assert forall k | 0 <= k < |init| :: init[k] == pending[k];
      }
      if |last.path| > 1 && last.path[0] == h {
        assert Inside(pending, h) == Inside(init, h) + [Pending(last.path[1..], last.gates)];
        hide Inside, AllHold, InHeadHold;
        PendingHoldOne(Inside(init, h), Pending(last.path[1..], last.gates), present);
      }
    }
  }

  lemma PendingHoldOne(x: seq<Pending>, y: Pending, present: nat -> bool)
    ensures PendingHold(x + [y], present) <==> PendingHold(x, present) && AllHold(y.gates, present)
  {
    hide AllHold;
    if PendingHold(x + [y], present) {
      forall k | 0 <= k < |x| ensures AllHold(x[k].gates, present) { assert (x + [y])[k] == x[k]; }
      assert (x + [y])[|x|] == y;
    }
  }

  // --- One instance's condition ---

  /** What one document gives one instance: which chains converted a value, which
      assemblies have an entry, and whether the builder accepts. */
  datatype Env = Env(present: nat -> bool, filled: nat -> bool, builds: bool)

  function PendingOf(c: Contract, target: Target, chains: seq<Chain>): (pending: seq<Pending>)
    ensures |pending| == |chains|
    ensures forall k: nat | k < |chains| ::
              pending[k] == Pending(chains[k][0].target, if ChainGates(c, target, chains[k]) then [IsSome(k)] else [])
  {
    if chains == [] then []
    else
      var last := |chains| - 1;
      PendingOf(c, target, chains[..last])
      + [Pending(chains[last][0].target, if ChainGates(c, target, chains[last]) then [IsSome(last)] else [])]
  }

  /** The emitted `if`: the outputs' gates and the gating assemblies. */
  predicate Emits(c: Contract, i: Instance, env: Env) {
    && OutputsHold(Groups(PendingOf(c, i.target, Chains(i.fields))), env.present)
    && forall k: nat | k < |i.assemblies| && AssemblyGates(c, i.target, i.assemblies[k]) :: env.filled(k)
  }

  /** The condition read off the manifest: every chain whose first member is an
      anchor, or required, or lands where the contract requires a value, has its
      value; every assembly that is an anchor or so lands, an entry. */
  lemma EmitsExact(c: Contract, i: Instance, env: Env)
    ensures Emits(c, i, env) <==>
            && (forall k: nat | k < |Chains(i.fields)| ::
                  var first := Chains(i.fields)[k][0];
                  first.anchor || first.required || c(i.target, first.target[0]) ==> env.present(k))
            && (forall k: nat | k < |i.assemblies| ::
                  i.assemblies[k].anchor || c(i.target, i.assemblies[k].target) ==> env.filled(k))
  {
    var chains := Chains(i.fields);
    var pending := PendingOf(c, i.target, chains);
    GroupsKeepGates(pending, env.present);
    hide Groups, Chains;
    forall k: nat | k < |chains|
      ensures AllHold(pending[k].gates, env.present) <==> (ChainGates(c, i.target, chains[k]) ==> env.present(k))
    {
      if ChainGates(c, i.target, chains[k]) {
        assert pending[k].gates == [IsSome(k)];
        assert AllHold(pending[k].gates, env.present) <==> Holds(pending[k].gates[0], env.present);
      }
    }
  }

  /** An instance the lint calls ungated is emitted for every document. */
  lemma {:induction false} UngatedEmits(c: Contract, i: Instance, env: Env)
    requires !Gated(c, i)
    ensures Emits(c, i, env)
  {
    ChainsPartition(i.fields);
    var chains := Chains(i.fields);
    EmitsExact(c, i, env);
    hide Chains;
    forall k: nat | k < |chains| ensures !ChainGates(c, i.target, chains[k]) {
      assert chains[k] in chains && chains[k][0] in chains[k];
      assert InSome(chains, chains[k][0]);
      var n: nat :| n < |i.fields| && i.fields[n] == chains[k][0];
    }
  }

  // --- Running the generated projection ---

  /** One document as the generated function sees it; each instance reads its own
      part. */
  datatype Document = Document(subject: bool, keyed: bool, key: nat, at: nat -> Env)

  /** The residual error tier, or the parts: the keys of descriptors and readings,
      and how many inventory items share the one subject. */
  datatype Outcome = Failed | Parts(descriptors: seq<nat>, readings: seq<nat>, items: nat)

  function Push(parts: Outcome, target: Target, key: nat): Outcome
    requires parts.Parts?
  {
    match target
    case Descriptor => parts.(descriptors := parts.descriptors + [key])
    case Reading => parts.(readings := parts.readings + [key])
    case Inventory => parts.(items := parts.items + 1)
    case Other(_) => parts
  }

  function Assemble(c: Contract, instances: seq<Instance>, d: Document): Outcome {
    if instances == [] then Parts([], [], 0)
    else
      var n := |instances| - 1;
      match Assemble(c, instances[..n], d)
      case Failed => Failed
      case parts =>
        if !Emits(c, instances[n], d.at(n)) then parts
        else if !d.at(n).builds then Failed
        else Push(parts, instances[n].target, d.key)
  }

  predicate NeedsKey(instances: seq<Instance>) {
    exists n | 0 <= n < |instances| :: instances[n].target.Descriptor? || instances[n].target.Reading?
  }

  function Run(c: Contract, instances: seq<Instance>, d: Document): Outcome {
    if !d.subject then Parts([], [], 0)
    else if NeedsKey(instances) && !d.keyed then Failed
    else Assemble(c, instances, d)
  }

  /** What the provider relies on when it builds payloads from the parts. */
  predicate Payable(o: Outcome, key: nat) {
    o.Parts? ==>
      && o.items <= 1 && |o.descriptors| <= 1
      && (o.readings != [] ==> o.descriptors == [key] && forall r | r in o.readings :: r == key)
  }

  function CountIn(instances: seq<Instance>, target: Target): nat {
    if instances == [] then 0
    else CountIn(instances[..|instances| - 1], target) + if instances[|instances| - 1].target == target then 1 else 0
  }

  lemma {:induction false} CountConcat(a: seq<Instance>, b: seq<Instance>, target: Target)
    ensures CountIn(a + b, target) == CountIn(a, target) + CountIn(b, target)
  {
    if b == [] {
      assert a + b == a;
    } else {
      CountConcat(a, b[..|b| - 1], target);
      assert (a + b)[..|a + b| - 1] == a + b[..|b| - 1];
    }
  }

  lemma {:induction false} CountAlike(a: seq<Instance>, target: Target, own: Target)
    requires forall i | 0 <= i < |a| :: a[i].target == own
    ensures CountIn(a, target) == if own == target then |a| else 0
  {
    if a != [] {
      CountAlike(a[..|a| - 1], target, own);
    }
  }

  lemma {:induction false} CountInstances(group: seq<Projection>, target: Target)
    ensures CountIn(Instances(group), target) == CountOf(group, target)
  {
    hide InstancesOf;
    if group != [] {
      var (init, last) := (group[..|group| - 1], group[|group| - 1]);
      CountInstances(init, target);
      CountConcat(Instances(init), InstancesOf(last), target);
      CountAlike(InstancesOf(last), target, last.target);
    }
  }

  /** Each instance comes from a projection, at a member of it. */
  lemma {:induction false} InstancesFrom(group: seq<Projection>, n: nat) returns (k: nat, m: nat)
    requires n < |Instances(group)|
    ensures k < |group| && m < |InstancesOf(group[k])| && Instances(group)[n] == InstancesOf(group[k])[m]
  {
    hide InstancesOf;
    var (init, last) := (group[..|group| - 1], group[|group| - 1]);
    if n < |Instances(init)| {
      k, m := InstancesFrom(init, n);
    } else {
      k, m := |group| - 1, n - |Instances(init)|;
    }
  }

  ghost predicate Bounded(parts: Outcome, instances: seq<Instance>, key: nat)
    requires parts.Parts?
  {
    && |parts.descriptors| <= CountIn(instances, Descriptor) && |parts.readings| <= CountIn(instances, Reading)
    && parts.items <= CountIn(instances, Inventory)
    && (forall k | k in parts.descriptors :: k == key) && (forall k | k in parts.readings :: k == key)
  }

  lemma PushBounded(parts: Outcome, init: seq<Instance>, last: Instance, key: nat)
    requires parts.Parts? && Bounded(parts, init, key)
    ensures Bounded(parts, init + [last], key) && Bounded(Push(parts, last.target, key), init + [last], key)
    ensures |Push(parts, last.target, key).descriptors|
            == |parts.descriptors| + if last.target.Descriptor? then 1 else 0
    ensures CountIn(init + [last], Descriptor) == CountIn(init, Descriptor) + if last.target.Descriptor? then 1 else 0
  {
    assert (init + [last])[..|init|] == init;
  }

  /** The parts never hold more than the instances counted, and only the key. */
  lemma {:induction false} AssembleBounds(c: Contract, instances: seq<Instance>, d: Document)
    requires Assemble(c, instances, d).Parts?
    ensures Bounded(Assemble(c, instances, d), instances, d.key)
    ensures (forall n | 0 <= n < |instances| && instances[n].target.Descriptor? :: !Gated(c, instances[n])) ==>
              |Assemble(c, instances, d).descriptors| == CountIn(instances, Descriptor)
  {
    hide Emits, Gated;
    if instances != [] {
      var (init, last) := (instances[..|instances| - 1], instances[|instances| - 1]);
      assert instances == init + [last];
      AssembleBounds(c, init, d);
      PushBounded(Assemble(c, init, d), init, last, d.key);
      hide Bounded, CountIn, Push;
      if last.target.Descriptor? && !Gated(c, last) {
        UngatedEmits(c, last, d.at(|init|));
      }
    }
  }

  /** A group that passes the pairing rule is payable whatever the document: at most
      one item, and readings only beside the one descriptor of their key. */
  lemma PairingSafe(c: Contract, group: seq<Projection>, d: Document)
    requires PairingViolations(c, group) == []
    ensures Payable(Run(c, Instances(group), d), d.key)
  {
    var instances := Instances(group);
    CountInstances(group, Descriptor);
    CountInstances(group, Reading);
    CountInstances(group, Inventory);
    PassingCounts(c, group);
    if Run(c, instances, d).Parts? && d.subject {
      AssembleBounds(c, instances, d);
      if CountOf(group, Reading) > 0 {
        DescriptorsUngated(c, group);
      }
      hide PairingViolations, Instances, CountOf, CountIn, Assemble, Gated;
      BoundedPays(Assemble(c, instances, d), instances, d.key);
    }
  }

  /** What the rule passes, in the instances themselves: no two items and no two
      descriptors, and beside a reading one descriptor none of whose declarations,
      templates included, is an anchor, required, or a landing the contract requires. */
  lemma PassesExactly(c: Contract, group: seq<Projection>)
    ensures var instances := Instances(group);
            PairingViolations(c, group) == [] <==>
            && AtMostOne(instances, Inventory) && AtMostOne(instances, Descriptor)
            && (SomeOf(instances, Reading) ==>
                  && SomeOf(instances, Descriptor)
                  && forall k | 0 <= k < |group| && group[k].target == Descriptor ::
                       && Unconditional(c, Descriptor, group[k].fields, group[k].assemblies)
                       && (group[k].expansion.Some? ==> UnconditionalTemplates(c, Descriptor, group[k].expansion.value)))
  {
    CountInstances(group, Inventory);
    CountInstances(group, Descriptor);
    CountInstances(group, Reading);
    CountMeans(Instances(group), Inventory);
    CountMeans(Instances(group), Descriptor);
    CountMeans(Instances(group), Reading);
    forall k | 0 <= k < |group| && group[k].target == Descriptor
      ensures !DescriptorGated(c, group[k]) <==>
              && Unconditional(c, Descriptor, group[k].fields, group[k].assemblies)
              && (group[k].expansion.Some? ==> UnconditionalTemplates(c, Descriptor, group[k].expansion.value))
    {
      UngatedMeans(c, group[k]);
    }
    NoViolations(c, group);
    hide CountOf, CountIn, Instances, AtMostOne, SomeOf, DescriptorGated, Unconditional, UnconditionalTemplates,
         PairingViolations;
  }

  lemma NoViolations(c: Contract, group: seq<Projection>)
    ensures PairingViolations(c, group) == [] <==>
            && CountOf(group, Inventory) <= 1 && CountOf(group, Descriptor) <= 1
            && (CountOf(group, Reading) > 0 ==>
                  && CountOf(group, Descriptor) > 0
                  && forall k | 0 <= k < |group| && group[k].target == Descriptor :: !DescriptorGated(c, group[k]))
  {
    hide CountOf, DescriptorGated;
  }

  ghost predicate AtMostOne(instances: seq<Instance>, target: Target) {
    forall n, m | 0 <= n < m < |instances| :: instances[n].target != target || instances[m].target != target
  }

  ghost predicate SomeOf(instances: seq<Instance>, target: Target) {
    exists n :: 0 <= n < |instances| && instances[n].target == target
  }

  /** No declaration is an anchor, required, or a landing the contract requires. */
  ghost predicate Unconditional(c: Contract, target: Target, fields: seq<Field>, assemblies: seq<Assembly>) {
    && (forall f | f in fields :: !f.anchor && !f.required && !c(target, f.target[0]))
    && forall a | a in assemblies :: !a.anchor && !c(target, a.target)
  }

  ghost predicate UnconditionalTemplates(c: Contract, target: Target, e: Expansion) {
    && (forall i | 0 <= i < |e.fields| ::
          !e.fields[i].anchor && !e.fields[i].required && !c(target, e.fields[i].target[0]))
    && forall i | 0 <= i < |e.assemblies| :: !e.assemblies[i].anchor && !c(target, e.assemblies[i].target)
  }

  lemma UngatedMeans(c: Contract, p: Projection)
    ensures !DescriptorGated(c, p) <==>
            && Unconditional(c, p.target, p.fields, p.assemblies)
            && (p.expansion.Some? ==> UnconditionalTemplates(c, p.target, p.expansion.value))
  {
    var own := Instance(p.target, p.fields, p.assemblies);
    if Unconditional(c, p.target, p.fields, p.assemblies) {
      forall k | 0 <= k < |own.fields| ensures !FieldGates(c, p.target, own.fields[k]) {
        assert own.fields[k] in p.fields;
      }
      forall k | 0 <= k < |own.assemblies| ensures !AssemblyGates(c, p.target, own.assemblies[k]) {
        assert own.assemblies[k] in p.assemblies;
      }
    }
    if !Gated(c, own) {
      forall f | f in p.fields ensures !FieldGates(c, p.target, f) { }
      forall a | a in p.assemblies ensures !AssemblyGates(c, p.target, a) { }
    }
  }

  lemma {:induction false} CountMeans(instances: seq<Instance>, target: Target)
    ensures CountIn(instances, target) <= 1 <==> AtMostOne(instances, target)
    ensures CountIn(instances, target) > 0 <==> SomeOf(instances, target)
  {
    if instances != [] {
      var (init, last) := (instances[..|instances| - 1], |instances| - 1);
      CountMeans(init, target);
      assert forall n | 0 <= n < last :: init[n] == instances[n];
      if SomeOf(init, target) {
        var n :| 0 <= n < |init| && init[n].target == target;
        assert instances[n].target == target;
      }
    }
  }

  // --- What a run comes to ---

  /** The instances of one target that the document emits. */
  ghost function EmittedAs(c: Contract, instances: seq<Instance>, target: Target, d: Document): set<nat> {
    set n: nat | n < |instances| && instances[n].target == target && Emits(c, instances[n], d.at(n))
  }

  /** The generated function fails exactly when a subject is found and either a key
      it needs is not, or some emitted instance does not build; else each emitted
      instance is one part under the key, and nothing else is. */
  lemma RunExactly(c: Contract, instances: seq<Instance>, d: Document)
    ensures Run(c, instances, d) == Failed <==>
            d.subject && (SomeRefused(c, instances, d)
                          || (!d.keyed && (SomeOf(instances, Descriptor) || SomeOf(instances, Reading))))
    ensures Run(c, instances, d).Parts? && d.subject ==> PartsAre(c, instances, d, Run(c, instances, d))
    ensures !d.subject ==> Run(c, instances, d) == Parts([], [], 0)
  {
    AssembleExactly(c, instances, d);
    hide Assemble, Emits, EmittedAs, SomeRefused, PartsAre;
  }

  ghost predicate SomeRefused(c: Contract, instances: seq<Instance>, d: Document) {
    exists n: nat :: n < |instances| && Emits(c, instances[n], d.at(n)) && !d.at(n).builds
  }

  /** The parts are the emitted instances, counted by target. */
  ghost predicate PartsAre(c: Contract, instances: seq<Instance>, d: Document, o: Outcome)
    requires o.Parts?
  {
    && |o.descriptors| == |EmittedAs(c, instances, Descriptor, d)| && (forall k | k in o.descriptors :: k == d.key)
    && |o.readings| == |EmittedAs(c, instances, Reading, d)| && (forall k | k in o.readings :: k == d.key)
    && o.items == |EmittedAs(c, instances, Inventory, d)|
  }

  lemma {:induction false} AssembleExactly(c: Contract, instances: seq<Instance>, d: Document)
    ensures Assemble(c, instances, d) == Failed <==> SomeRefused(c, instances, d)
    ensures Assemble(c, instances, d).Parts? ==> PartsAre(c, instances, d, Assemble(c, instances, d))
  {
    hide Emits;
    if instances == [] {
      forall target ensures EmittedAs(c, instances, target, d) == {} { }
    } else {
      var n := |instances| - 1;
      var init := instances[..n];
      AssembleExactly(c, init, d);
      RefusedLast(c, instances, d);
      forall target { EmittedLast(c, instances, target, d); }
      var parts := Assemble(c, init, d);
      hide EmittedAs, SomeRefused;
    }
  }

  lemma RefusedLast(c: Contract, instances: seq<Instance>, d: Document)
    requires instances != []
    ensures var n := |instances| - 1;
            SomeRefused(c, instances, d) <==>
            SomeRefused(c, instances[..n], d) || (Emits(c, instances[n], d.at(n)) && !d.at(n).builds)
  {
    hide Emits;
    var init := instances[..|instances| - 1];
    assert forall m: nat | m < |init| :: init[m] == instances[m];
    if m: nat :| m < |init| && Emits(c, init[m], d.at(m)) && !d.at(m).builds {
      assert Emits(c, instances[m], d.at(m));
    }
  }

  lemma EmittedLast(c: Contract, instances: seq<Instance>, target: Target, d: Document)
    requires instances != []
    ensures var n := |instances| - 1;
            |EmittedAs(c, instances, target, d)|
            == |EmittedAs(c, instances[..n], target, d)|
               + if instances[n].target == target && Emits(c, instances[n], d.at(n)) then 1 else 0
  {
    var n := |instances| - 1;
    var (all, init) := (EmittedAs(c, instances, target, d), EmittedAs(c, instances[..n], target, d));
    EmittedSets(c, instances, target, d);
    hide EmittedAs, Emits;
    if n in all {
      assert all == init + {n};
    }
  }

  lemma EmittedSets(c: Contract, instances: seq<Instance>, target: Target, d: Document)
    requires instances != []
    ensures var n := |instances| - 1;
            var (all, init) := (EmittedAs(c, instances, target, d), EmittedAs(c, instances[..n], target, d));
            && n !in init && all == init + (if n in all then {n} else {})
            && (n in all <==> instances[n].target == target && Emits(c, instances[n], d.at(n)))
  {
    hide Emits;
    var n := |instances| - 1;
    assert forall m: nat | m < n :: instances[..n][m] == instances[m];
  }

  lemma PassingCounts(c: Contract, group: seq<Projection>)
    requires PairingViolations(c, group) == []
    ensures CountOf(group, Inventory) <= 1 && CountOf(group, Descriptor) <= 1
    ensures CountOf(group, Reading) > 0 ==> CountOf(group, Descriptor) == 1
  {
    hide CountOf, DescriptorGated;
  }

  lemma DescriptorsUngated(c: Contract, group: seq<Projection>)
    requires PairingViolations(c, group) == [] && CountOf(group, Reading) > 0
    ensures forall n | 0 <= n < |Instances(group)| && Instances(group)[n].target.Descriptor? ::
              !Gated(c, Instances(group)[n])
  {
    hide Gated, Instances, CountOf;
    forall n: nat | n < |Instances(group)| && Instances(group)[n].target.Descriptor?
      ensures !Gated(c, Instances(group)[n])
    {
      var k, m := InstancesFrom(group, n);
      GatedAlike(c, group[k], m);
    }
  }

  lemma BoundedPays(parts: Outcome, instances: seq<Instance>, key: nat)
    requires parts.Parts? && Bounded(parts, instances, key)
    requires CountIn(instances, Inventory) <= 1 && CountIn(instances, Descriptor) <= 1
    requires CountIn(instances, Reading) > 0 ==> |parts.descriptors| == 1
    ensures Payable(parts, key)
  {
    hide CountIn;
    if parts.readings != [] {
      assert parts.descriptors[0] in parts.descriptors;
    }
  }
}
