/** The collection protocol (`orchestration/src/collector.rs`): a registry of
    endpoints, one task per endpoint, and one bounded queue to the consumer. Each
    lock section, queue operation and task event is one atomic step. */
module Collector {
  import opened Bytes

  const CAPACITY := 1024

  type Id = seq<char>

  /** Tasks are numbered in the order they were seated: a generation. */
  datatype Msg = Report(id: Id, gen: nat, content: nat) | Retired(id: Id, gen: nat)

  /** Running the endpoint; delivering what it holds after the runtime stopped;
      giving up the seat, with or without anybody listening; gone. */
  datatype Pc = Running | Draining | Retiring(listened: bool) | Gone

  datatype Task = Task(id: Id, pc: Pc, held: seq<nat>, produced: seq<nat>, stop: bool)

  /** `sent` is every message that ever entered the queue. */
  datatype State = State(
    output: bool, consumer: bool, endpoints: map<Id, nat>, tasks: seq<Task>,
    queue: seq<Msg>, delivered: seq<Msg>, sent: seq<Msg>)

  datatype Step =
    | Add(id: Id)
    | Remove(id: Id)
    | Shutdown
    | DropConsumer
    | Produce(gen: nat, contents: seq<nat>)
    | SendHeld(gen: nat)
    | RuntimeDone(gen: nat)
    | Panic(gen: nat)
    | NobodyListens(gen: nat)
    | DrainEnd(gen: nat)
    | Retire(gen: nat)
    | DropTask(gen: nat)
    | Deliver

  function Init(): State { State(true, true, map[], [], [], [], []) }

  predicate Live(s: State, gen: int) { 0 <= gen < |s.tasks| && !s.tasks[gen].pc.Gone? }

  predicate Room(s: State) { s.consumer && |s.queue| < CAPACITY }

  predicate Enabled(s: State, step: Step) {
    match step
    case Produce(gen, _) => gen < |s.tasks| && s.tasks[gen].pc == Running
    case SendHeld(gen) =>
      gen < |s.tasks| && (s.tasks[gen].pc == Running || s.tasks[gen].pc == Draining) && s.tasks[gen].held != []
          && Room(s)
    case RuntimeDone(gen) => gen < |s.tasks| && s.tasks[gen].pc == Running
    case Panic(gen) => gen < |s.tasks| && s.tasks[gen].pc == Running
    case NobodyListens(gen) => gen < |s.tasks| && s.tasks[gen].pc == Running && !s.consumer
    case DrainEnd(gen) => gen < |s.tasks| && s.tasks[gen].pc == Draining && (s.tasks[gen].held == [] || !s.consumer)
    case Retire(gen) =>
      gen < |s.tasks| && s.tasks[gen].pc.Retiring? && (s.tasks[gen].pc.listened ==> Room(s) || !s.consumer)
    case DropTask(gen) => Live(s, gen)
    case Deliver => s.consumer && s.queue != []
    case _ => true
  }

  // --- The registry's lock sections ---

  /** `Collector::add`: refused once shut down or unheard, or while the id is
      collected or still retiring. */
  function AddSection(output: bool, consumer: bool, endpoints: map<Id, nat>, next: nat, id: Id)
      : (r: (map<Id, nat>, bool)) {
    if output && consumer && id !in endpoints then (endpoints[id := next], true) else (endpoints, false)
  }

  function ApplyAdd(s: State, id: Id): State {
    var (endpoints, seated) := AddSection(s.output, s.consumer, s.endpoints, |s.tasks|, id);
    if seated then s.(endpoints := endpoints, tasks := s.tasks + [Task(id, Running, [], [], false)]) else s
  }

  function Signal(tasks: seq<Task>, gen: nat): seq<Task> {
    if gen < |tasks| then tasks[gen := tasks[gen].(stop := true)] else tasks
  }

  function SignalAll(tasks: seq<Task>, gens: set<nat>): (r: seq<Task>)
    ensures |r| == |tasks|
    ensures forall g | 0 <= g < |tasks| :: r[g] == if g in gens then tasks[g].(stop := true) else tasks[g]
  {
    seq(|tasks|, g requires 0 <= g < |tasks| => if g in gens then tasks[g].(stop := true) else tasks[g])
  }

  function Push(s: State, m: Msg): State { s.(queue := s.queue + [m], sent := s.sent + [m]) }

  /** `Registry::retire`: forget the id and, with a slot, say so under one lock. */
  function ApplyRetire(s: State, gen: nat, slot: bool): State
    requires gen < |s.tasks|
  {
    var id := s.tasks[gen].id;
    var gone := s.tasks[gen].(pc := Gone, held := []);
    var forgotten := s.(endpoints := s.endpoints - {id}, tasks := s.tasks[gen := gone]);
    if slot then Push(forgotten, Retired(id, gen)) else forgotten
  }

  function WithTask(s: State, gen: nat, t: Task): State
    requires gen < |s.tasks|
  {
    s.(tasks := s.tasks[gen := t])
  }

  function Apply(s: State, step: Step): State
    requires Enabled(s, step)
  {
    match step
    case Add(id) => ApplyAdd(s, id)
    case Remove(id) => if id in s.endpoints then s.(tasks := Signal(s.tasks, s.endpoints[id])) else s
    case Shutdown => s.(output := false, tasks := SignalAll(s.tasks, s.endpoints.Values))
    case DropConsumer => s.(consumer := false, queue := [])
    case Produce(gen, contents) =>
      var t := s.tasks[gen];
      WithTask(s, gen, t.(held := t.held + contents, produced := t.produced + contents))
    case SendHeld(gen) =>
      var t := s.tasks[gen];
      Push(WithTask(s, gen, t.(held := t.held[1..])), Report(t.id, gen, t.held[0]))
    case RuntimeDone(gen) => WithTask(s, gen, s.tasks[gen].(pc := Draining))
    case Panic(gen) => WithTask(s, gen, s.tasks[gen].(pc := Draining))
    case NobodyListens(gen) => WithTask(s, gen, s.tasks[gen].(pc := Retiring(false)))
    case DrainEnd(gen) => WithTask(s, gen, s.tasks[gen].(pc := Retiring(true)))
    case Retire(gen) => ApplyRetire(s, gen, s.tasks[gen].pc.listened && Room(s))
    case DropTask(gen) => ApplyRetire(s, gen, Room(s))
    case Deliver => s.(queue := s.queue[1..], delivered := s.delivered + [s.queue[0]])
  }

  // --- What every reachable state keeps ---

  /** The registry names exactly the live tasks, each id's only one. */
  ghost predicate Seated(s: State) {
    && (forall id | id in s.endpoints :: Live(s, s.endpoints[id]) && s.tasks[s.endpoints[id]].id == id)
    && (forall gen | Live(s, gen) :: s.tasks[gen].id in s.endpoints && s.endpoints[s.tasks[gen].id] == gen)
  }

  /** The reports one generation has in a message list, in order. */
  function ReportsOf(msgs: seq<Msg>, gen: nat): seq<nat> {
    if msgs == [] then []
    else
      var m := msgs[|msgs| - 1];
      ReportsOf(msgs[..|msgs| - 1], gen) + if m.Report? && m.gen == gen then [m.content] else []
  }

  lemma ReportsExtend(msgs: seq<Msg>, m: Msg, gen: nat)
    ensures ReportsOf(msgs + [m], gen) ==
            ReportsOf(msgs, gen) + if m.Report? && m.gen == gen then [m.content] else []
  {
    assert (msgs + [m])[..|msgs|] == msgs;
  }

  /** Messages of one id are in generation order, and a retirement is its
      generation's last. */
  ghost predicate InOrder(msgs: seq<Msg>) {
    forall i, j | 0 <= i < j < |msgs| && msgs[i].id == msgs[j].id ::
      msgs[i].gen <= msgs[j].gen && (msgs[i].gen == msgs[j].gen ==> msgs[i].Report?)
  }

  /** Every message is its task's, and a live task's id has heard of no later
      generation nor of this one's retirement. */
  ghost predicate FromTasks(s: State) {
    && (forall m | m in s.sent :: m.gen < |s.tasks| && s.tasks[m.gen].id == m.id)
    && (forall m | m in s.sent :: Live(s, m.gen) ==> m.Report?)
    && (forall m, gen | m in s.sent && Live(s, gen) && m.id == s.tasks[gen].id :: m.gen <= gen)
  }

  /** What a task produced is what was sent, then what it still holds; a task gone
      may have dropped a tail. */
  ghost predicate Conserved(s: State) {
    forall gen | 0 <= gen < |s.tasks| ::
      && (!s.tasks[gen].pc.Gone? ==> ReportsOf(s.sent, gen) + s.tasks[gen].held == s.tasks[gen].produced)
      && ReportsOf(s.sent, gen) <= s.tasks[gen].produced
  }

  /** The queue is bounded; while the consumer listens nothing sent is lost. */
  ghost predicate Queued(s: State) {
    && |s.queue| <= CAPACITY
    && s.delivered <= s.sent
    && (s.consumer ==> s.sent == s.delivered + s.queue)
    && (!s.consumer ==> s.queue == [])
  }

  /** A seat about to be given up with the consumer listening holds nothing. */
  ghost predicate Emptied(s: State) {
    forall gen | 0 <= gen < |s.tasks| && s.tasks[gen].pc.Retiring? && s.consumer ::
      s.tasks[gen].pc.listened && s.tasks[gen].held == []
  }

  ghost predicate Inv(s: State) {
    Emptied(s) && Seated(s) && FromTasks(s) && InOrder(s.sent) && Conserved(s) && Queued(s)
  }

  lemma AddSeated(s: State, id: Id)
    requires Seated(s)
    ensures Seated(ApplyAdd(s, id))
  {
    var s' := ApplyAdd(s, id);
    assert forall g | Live(s', g) :: g == |s.tasks| || (Live(s, g) && s'.tasks[g] == s.tasks[g]);
  }

  lemma RetireSeated(s: State, gen: nat, slot: bool)
    requires Seated(s) && Live(s, gen)
    ensures Seated(ApplyRetire(s, gen, slot))
  {
    var s' := ApplyRetire(s, gen, slot);
    assert forall g | Live(s', g) :: g != gen && Live(s, g) && s'.tasks[g] == s.tasks[g];
  }

  lemma QuietSeated(s: State, s': State)
    requires Seated(s) && s'.endpoints == s.endpoints && |s'.tasks| == |s.tasks|
    requires forall g | 0 <= g < |s.tasks| :: s'.tasks[g].id == s.tasks[g].id && (Live(s', g) <==> Live(s, g))
    ensures Seated(s')
  {
  }

  lemma StepSeated(s: State, step: Step)
    requires Enabled(s, step) && Seated(s)
    ensures Seated(Apply(s, step))
  {
    hide Seated, Live;
    match step {
      case Add(id) => AddSeated(s, id);
      case Retire(gen) => RetireSeated(s, gen, s.tasks[gen].pc.listened && Room(s)) by { LiveRetiring(s, gen); }
      case DropTask(gen) => RetireSeated(s, gen, Room(s));
      case SendHeld(gen) => QuietSeated(s, Apply(s, step)) by { SendIsQuiet(s, gen); }
      case _ =>
        QuietStep(s, step);
        QuietSeated(s, Apply(s, step));
    }
  }

  lemma SendIsQuiet(s: State, gen: nat)
    requires Enabled(s, SendHeld(gen))
    ensures var s' := Apply(s, SendHeld(gen));
            && s'.endpoints == s.endpoints && |s'.tasks| == |s.tasks|
            && forall g | 0 <= g < |s.tasks| :: s'.tasks[g].id == s.tasks[g].id && (Live(s', g) <==> Live(s, g))
  {
  }

  lemma StepEmptied(s: State, step: Step)
    requires Enabled(s, step) && Emptied(s)
    ensures Emptied(Apply(s, step))
  {
  }

  /** A message under the latest generation of its id goes last. */
  lemma LastInOrder(s: State, m: Msg)
    requires FromTasks(s) && InOrder(s.sent) && Live(s, m.gen) && s.tasks[m.gen].id == m.id
    ensures InOrder(s.sent + [m])
  {
    var after := s.sent + [m];
    forall i, j | 0 <= i < j < |after| && after[i].id == after[j].id
      ensures after[i].gen <= after[j].gen && (after[i].gen == after[j].gen ==> after[i].Report?)
    {
      if j == |s.sent| {
        assert s.sent[i] in s.sent;
      }
    }
  }

  lemma SendKeeps(s: State, m: Msg)
    requires FromTasks(s) && InOrder(s.sent) && Live(s, m.gen) && s.tasks[m.gen].id == m.id && m.Report?
    requires forall g | Live(s, g) && s.tasks[g].id == m.id :: g == m.gen
    ensures FromTasks(Push(s, m)) && InOrder(Push(s, m).sent)
  {
    LastInOrder(s, m);
    hide InOrder;
  }

  lemma RetireKeeps(s: State, gen: nat, slot: bool)
    requires Seated(s) && FromTasks(s) && InOrder(s.sent) && Live(s, gen)
    ensures FromTasks(ApplyRetire(s, gen, slot)) && InOrder(ApplyRetire(s, gen, slot).sent)
  {
    var s' := ApplyRetire(s, gen, slot);
    assert forall g | Live(s', g) :: Live(s, g) && g != gen;
    if slot {
      LastInOrder(s, Retired(s.tasks[gen].id, gen));
      hide InOrder, Seated;
    }
  }

  /** A step that sends nothing and neither seats nor unseats keeps the order. */
  lemma QuietKeeps(s: State, s': State)
    requires FromTasks(s) && s'.sent == s.sent && |s'.tasks| == |s.tasks|
    requires forall g | 0 <= g < |s.tasks| :: s'.tasks[g].id == s.tasks[g].id && (Live(s', g) <==> Live(s, g))
    ensures FromTasks(s')
  {
  }

  lemma AddKeeps(s: State, id: Id)
    requires FromTasks(s)
    ensures FromTasks(ApplyAdd(s, id))
  {
    var s' := ApplyAdd(s, id);
    assert forall g | Live(s', g) :: g == |s.tasks| || (Live(s, g) && s'.tasks[g] == s.tasks[g]);
  }

  /** Steps that neither send, seat nor unseat. */
  predicate Quiet(step: Step) { !step.SendHeld? && !step.Retire? && !step.DropTask? && !step.Add? }

  lemma QuietStep(s: State, step: Step)
    requires Enabled(s, step) && Quiet(step)
    ensures var s' := Apply(s, step);
            && s'.sent == s.sent && |s'.tasks| == |s.tasks|
            && forall g | 0 <= g < |s.tasks| ::
                 && s'.tasks[g].id == s.tasks[g].id && (Live(s', g) <==> Live(s, g))
                 && (!step.Produce?
                     ==> s'.tasks[g].held == s.tasks[g].held && s'.tasks[g].produced == s.tasks[g].produced)
  {
  }

  lemma SendOrdered(s: State, gen: nat)
    requires Enabled(s, SendHeld(gen)) && Seated(s) && FromTasks(s) && InOrder(s.sent)
    ensures FromTasks(Apply(s, SendHeld(gen))) && InOrder(Apply(s, SendHeld(gen)).sent)
  {
    var t := s.tasks[gen];
    var mid := WithTask(s, gen, t.(held := t.held[1..]));
    QuietKeeps(s, mid);
    assert forall g | Live(mid, g) :: Live(s, g) && mid.tasks[g].id == s.tasks[g].id;
    SendKeeps(mid, Report(t.id, gen, t.held[0]));
  }

  lemma StepOrdered(s: State, step: Step)
    requires Enabled(s, step) && Seated(s) && FromTasks(s) && InOrder(s.sent)
    ensures FromTasks(Apply(s, step)) && InOrder(Apply(s, step).sent)
  {
    hide FromTasks, InOrder, Seated, Live;
    match step {
      case SendHeld(gen) => SendOrdered(s, gen);
      case Retire(gen) => RetireKeeps(s, gen, s.tasks[gen].pc.listened && Room(s)) by { LiveRetiring(s, gen); }
      case DropTask(gen) => RetireKeeps(s, gen, Room(s));
      case Add(id) => AddKeeps(s, id);
      case _ =>
        QuietStep(s, step);
        hide Apply;
        QuietKeeps(s, Apply(s, step));
    }
  }

  lemma LiveRetiring(s: State, gen: nat)
    requires gen < |s.tasks| && s.tasks[gen].pc.Retiring?
    ensures Live(s, gen)
  {
  }

  lemma PushConserves(s: State, m: Msg, gen: nat)
    ensures ReportsOf(Push(s, m).sent, gen) ==
            ReportsOf(s.sent, gen) + if m.Report? && m.gen == gen then [m.content] else []
  {
    ReportsExtend(s.sent, m, gen);
  }

  lemma {:induction false} NoReportsYet(msgs: seq<Msg>, gen: nat)
    requires forall m | m in msgs :: m.gen < gen
    ensures ReportsOf(msgs, gen) == []
  {
    if msgs != [] {
      assert msgs[|msgs| - 1] in msgs;
      NoReportsYet(msgs[..|msgs| - 1], gen);
    }
  }

  lemma SendConserved(s: State, gen: nat)
    requires Enabled(s, SendHeld(gen)) && Conserved(s)
    ensures Conserved(Apply(s, SendHeld(gen)))
  {
    hide ReportsOf;
    var m := Report(s.tasks[gen].id, gen, s.tasks[gen].held[0]);
    forall g { PushConserves(s, m, g); }
    SentFromHeld(ReportsOf(s.sent, gen), s.tasks[gen].held, s.tasks[gen].produced);
  }

  lemma RetireConserved(s: State, gen: nat, slot: bool)
    requires gen < |s.tasks| && Conserved(s)
    ensures Conserved(ApplyRetire(s, gen, slot))
  {
    hide ReportsOf;
    forall g { PushConserves(s, Retired(s.tasks[gen].id, gen), g); }
  }

  lemma ProduceConserved(s: State, gen: nat, contents: seq<nat>)
    requires Enabled(s, Produce(gen, contents)) && Conserved(s)
    ensures Conserved(Apply(s, Produce(gen, contents)))
  {
    hide ReportsOf;
    var t := s.tasks[gen];
    assert ReportsOf(s.sent, gen) + (t.held + contents) == (ReportsOf(s.sent, gen) + t.held) + contents;
  }

  lemma AddConserved(s: State, id: Id)
    requires FromTasks(s) && Conserved(s)
    ensures Conserved(ApplyAdd(s, id))
  {
    NoReportsYet(s.sent, |s.tasks|);
  }

  lemma QuietConserved(s: State, s': State)
    requires Conserved(s) && s'.sent == s.sent && |s'.tasks| == |s.tasks|
    requires forall g | 0 <= g < |s.tasks| ::
               && (Live(s', g) <==> Live(s, g))
               && s'.tasks[g].held == s.tasks[g].held && s'.tasks[g].produced == s.tasks[g].produced
    ensures Conserved(s')
  {
    hide ReportsOf;
  }

  lemma StepConserved(s: State, step: Step)
    requires Enabled(s, step) && FromTasks(s) && Conserved(s)
    ensures Conserved(Apply(s, step))
  {
    hide ReportsOf, Conserved, FromTasks, Live;
    match step {
      case SendHeld(gen) => SendConserved(s, gen);
      case Retire(gen) => RetireConserved(s, gen, s.tasks[gen].pc.listened && Room(s));
      case DropTask(gen) => RetireConserved(s, gen, Room(s)) by { LiveInRange(s, gen); }
      case Add(id) => AddConserved(s, id);
      case Produce(gen, contents) => ProduceConserved(s, gen, contents);
      case _ =>
        QuietStep(s, step);
        hide Apply;
        QuietConserved(s, Apply(s, step));
    }
  }

  lemma LiveInRange(s: State, gen: nat)
    requires Live(s, gen)
    ensures gen < |s.tasks|
  {
  }

  lemma SentFromHeld(sent: seq<nat>, held: seq<nat>, produced: seq<nat>)
    requires held != [] && sent + held == produced
    ensures (sent + [held[0]]) + held[1..] == produced && sent + [held[0]] <= produced
  {
    assert held == [held[0]] + held[1..];
    assert (sent + [held[0]]) + held[1..] == sent + ([held[0]] + held[1..]);
  }

  lemma StepQueued(s: State, step: Step)
    requires Enabled(s, step) && Queued(s)
    ensures Queued(Apply(s, step))
  {
    if step.Deliver? {
      assert s.queue == [s.queue[0]] + s.queue[1..];
      assert s.delivered + s.queue == (s.delivered + [s.queue[0]]) + s.queue[1..];
    }
  }

  lemma StepInv(s: State, step: Step)
    requires Enabled(s, step) && Inv(s)
    ensures Inv(Apply(s, step))
  {
    StepEmptied(s, step);
    StepSeated(s, step);
    StepOrdered(s, step);
    StepConserved(s, step);
    StepQueued(s, step);
  }

  // --- Over whole runs ---

  ghost predicate IsRun(ss: seq<State>, steps: seq<Step>) {
    && |ss| == |steps| + 1 && ss[0] == Init()
    && forall i | 0 <= i < |steps| :: Enabled(ss[i], steps[i]) && ss[i + 1] == Apply(ss[i], steps[i])
  }

  lemma {:induction false} Always(ss: seq<State>, steps: seq<Step>, k: nat)
    requires IsRun(ss, steps) && k < |ss|
    ensures Inv(ss[k])
  {
    if k > 0 {
      Always(ss, steps, k - 1);
      StepInv(ss[k - 1], steps[k - 1]);
    }
  }

  /** What the consumer has received for one id, whatever the run: generations in
      order, a retirement closing its own, and within a generation its reports as
      produced, none skipped and none repeated. */
  lemma DeliveredInOrder(ss: seq<State>, steps: seq<Step>, k: nat)
    requires IsRun(ss, steps) && k < |ss|
    ensures InOrder(ss[k].delivered)
    ensures forall gen | 0 <= gen < |ss[k].tasks| :: ReportsOf(ss[k].delivered, gen) <= ss[k].tasks[gen].produced
    ensures forall m | m in ss[k].delivered :: m.gen < |ss[k].tasks| && ss[k].tasks[m.gen].id == m.id
  {
    Always(ss, steps, k);
    var s := ss[k];
    assert s.delivered == s.sent[..|s.delivered|];
    forall gen | 0 <= gen < |s.tasks| ensures ReportsOf(s.delivered, gen) <= s.tasks[gen].produced {
      ReportsPrefix(s.sent, |s.delivered|, gen);
    }
  }

  lemma {:induction false} ReportsPrefix(msgs: seq<Msg>, n: nat, gen: nat)
    requires n <= |msgs|
    ensures ReportsOf(msgs[..n], gen) <= ReportsOf(msgs, gen)
  {
    if n < |msgs| {
      ReportsPrefix(msgs[..|msgs| - 1], n, gen);
      assert msgs[..|msgs| - 1][..n] == msgs[..n];
    } else {
      assert msgs[..n] == msgs;
    }
  }

  lemma {:induction false} ReportsConcat(a: seq<Msg>, b: seq<Msg>, gen: nat)
    ensures ReportsOf(a + b, gen) == ReportsOf(a, gen) + ReportsOf(b, gen)
  {
    if b == [] {
      assert a + b == a;
    } else {
      var (init, last) := (b[..|b| - 1], b[|b| - 1]);
      assert a + b == (a + init) + [last] && b == init + [last];
      ReportsConcat(a, init, gen);
      ReportsExtend(a + init, last, gen);
      ReportsExtend(init, last, gen);
    }
  }

  /** While the consumer listens, a task that still has its seat has lost nothing:
      produced is delivered, then queued, then held. */
  lemma NothingLost(ss: seq<State>, steps: seq<Step>, k: nat, gen: nat)
    requires IsRun(ss, steps) && k < |ss| && ss[k].consumer && Live(ss[k], gen)
    ensures ss[k].tasks[gen].produced ==
            ReportsOf(ss[k].delivered, gen) + ReportsOf(ss[k].queue, gen) + ss[k].tasks[gen].held
  {
    Always(ss, steps, k);
    ReportsConcat(ss[k].delivered, ss[k].queue, gen);
  }

  /** A seat given up in the ordinary way was given up after its last report: when
      the consumer listens, a retirement that is not a drop follows everything the
      generation produced. */
  lemma RetiresAfterLastReport(ss: seq<State>, steps: seq<Step>, k: nat)
    requires IsRun(ss, steps) && k < |steps| && steps[k].Retire? && ss[k].consumer
    ensures var gen := steps[k].gen;
            && ss[k + 1].sent == ss[k].sent + [Retired(ss[k].tasks[gen].id, gen)]
            && ReportsOf(ss[k].sent, gen) == ss[k].tasks[gen].produced
  {
    Always(ss, steps, k);
  }

  /** At most one live task per id. */
  lemma OneTaskPerId(ss: seq<State>, steps: seq<Step>, k: nat, g: nat, h: nat)
    requires IsRun(ss, steps) && k < |ss| && Live(ss[k], g) && Live(ss[k], h)
    requires ss[k].tasks[g].id == ss[k].tasks[h].id
    ensures g == h
  {
    Always(ss, steps, k);
  }

  lemma ClosedStep(s: State, step: Step)
    requires Enabled(s, step) && Seated(s) && (!s.output || !s.consumer)
    ensures var s' := Apply(s, step);
            && (!s'.output || !s'.consumer)
            && s'.endpoints.Keys <= s.endpoints.Keys && |s'.tasks| == |s.tasks|
            && (s.endpoints == map[] ==> s'.endpoints == map[] && s'.sent == s.sent)
  {
    if s.endpoints == map[] {
      NobodyLives(s);
    }
  }

  /** Once shut down, or unheard, no id enters; and when every seat is given up
      nothing more is ever sent. */
  lemma {:induction false} ClosedForGood(ss: seq<State>, steps: seq<Step>, i: nat, k: nat)
    requires IsRun(ss, steps) && i <= k < |ss| && (!ss[i].output || !ss[i].consumer)
    ensures !ss[k].output || !ss[k].consumer
    ensures ss[k].endpoints.Keys <= ss[i].endpoints.Keys && |ss[k].tasks| == |ss[i].tasks|
    ensures ss[i].endpoints == map[] ==> ss[k].endpoints == map[] && ss[k].sent == ss[i].sent
  {
    if i < k {
      ClosedForGood(ss, steps, i, k - 1);
      SeatedInRun(ss, steps, k - 1);
      hide Apply, Seated;
      ClosedStep(ss[k - 1], steps[k - 1]);
    }
  }

  lemma SeatedInRun(ss: seq<State>, steps: seq<Step>, k: nat)
    requires IsRun(ss, steps) && k < |ss|
    ensures Seated(ss[k])
  {
    Always(ss, steps, k);
  }

  // --- What each call does ---

  /** An id not collected nor still retiring is seated while the collector is open
      and heard, in a fresh running task; otherwise an add changes nothing. */
  lemma AddSeats(ss: seq<State>, steps: seq<Step>, k: nat)
    requires IsRun(ss, steps) && k < |steps| && steps[k].Add?
    ensures var (s, s', id) := (ss[k], ss[k + 1], steps[k].id);
            if s.output && s.consumer && forall g | 0 <= g < |s.tasks| && s.tasks[g].id == id :: s.tasks[g].pc.Gone?
            then && s'.endpoints == s.endpoints[id := |s.tasks|]
                 && s'.tasks == s.tasks + [Task(id, Running, [], [], false)]
                 && s' == s.(endpoints := s'.endpoints, tasks := s'.tasks)
            else s' == s
  {
    var (s, id) := (ss[k], steps[k].id);
    SeatedInRun(ss, steps, k);
    assert id in s.endpoints <==> exists g :: Live(s, g) && s.tasks[g].id == id;
  }

  /** A removal signals the seated task of its id and a shutdown every seated task,
      and neither touches anything else of any task. */
  lemma SeatedAreSignalled(ss: seq<State>, steps: seq<Step>, k: nat, g: nat)
    requires IsRun(ss, steps) && k < |steps| && g < |ss[k].tasks| && (steps[k].Remove? || steps[k].Shutdown?)
    ensures |ss[k + 1].tasks| == |ss[k].tasks|
    ensures ss[k + 1].tasks[g] == ss[k].tasks[g].(stop := ss[k + 1].tasks[g].stop)
    ensures ss[k + 1].tasks[g].stop <==>
            || ss[k].tasks[g].stop
            || (!ss[k].tasks[g].pc.Gone? && (steps[k].Remove? ==> ss[k].tasks[g].id == steps[k].id))
    ensures ss[k + 1].endpoints == ss[k].endpoints && ss[k + 1].sent == ss[k].sent
    ensures ss[k + 1].output <==> ss[k].output && !steps[k].Shutdown?
  {
    SeatedInRun(ss, steps, k);
    var s := ss[k];
    if Live(s, g) {
      assert s.endpoints[s.tasks[g].id] == g && g in s.endpoints.Values;
    }
  }

  /** The output is open until it is shut down, and the consumer listens until it is
      dropped. */
  lemma {:induction false} OpenUntil(ss: seq<State>, steps: seq<Step>, k: nat)
    requires IsRun(ss, steps) && k < |ss|
    ensures ss[k].output <==> forall i | 0 <= i < k :: steps[i] != Shutdown
    ensures ss[k].consumer <==> forall i | 0 <= i < k :: steps[i] != DropConsumer
  {
    if k > 0 {
      OpenUntil(ss, steps, k - 1);
    }
  }

  /** A stop signal is never withdrawn. */
  lemma {:induction false} SignalStays(ss: seq<State>, steps: seq<Step>, i: nat, k: nat, g: nat)
    requires IsRun(ss, steps) && i <= k < |ss| && g < |ss[i].tasks| && ss[i].tasks[g].stop
    ensures g < |ss[k].tasks| && ss[k].tasks[g].stop
  {
    hide Apply, Enabled;
    if i < k {
      SignalStays(ss, steps, i, k - 1, g);
      StopStays(ss[k - 1], steps[k - 1], g);
    }
  }

  lemma StopStays(s: State, step: Step, g: nat)
    requires Enabled(s, step) && g < |s.tasks| && s.tasks[g].stop
    ensures g < |Apply(s, step).tasks| && Apply(s, step).tasks[g].stop
  {
  }

  // --- Nothing is stuck ---

  /** Steps that can be taken one after another from one state to another. */
  ghost predicate Leads(s: State, steps: seq<Step>, s': State)
    decreases |steps|
  {
    if steps == [] then s == s' else Enabled(s, steps[0]) && Leads(Apply(s, steps[0]), steps[1..], s')
  }

  lemma Prepended(s: State, step: Step, steps: seq<Step>, s': State)
    requires Enabled(s, step) && Leads(Apply(s, step), steps, s')
    ensures Leads(s, [step] + steps, s')
  {
    assert ([step] + steps)[1..] == steps;
  }

  /** A collector's callers and tasks are free: calls come at any time, a running
      task may report, end or panic, and any live task may be dropped. */
  lemma AnythingMayCome(s: State, id: Id, gen: nat, contents: seq<nat>)
    ensures Enabled(s, Add(id)) && Enabled(s, Remove(id)) && Enabled(s, Shutdown) && Enabled(s, DropConsumer)
    ensures gen < |s.tasks| && s.tasks[gen].pc == Running ==>
              Enabled(s, Produce(gen, contents)) && Enabled(s, RuntimeDone(gen)) && Enabled(s, Panic(gen))
    ensures gen < |s.tasks| && s.tasks[gen].pc == Running && !s.consumer ==> Enabled(s, NobodyListens(gen))
    ensures gen < |s.tasks| && s.tasks[gen].pc != Gone ==> Enabled(s, DropTask(gen))
  {
  }

  /** A running or draining task holding a report can send it while the consumer
      listens, at the latest once a full queue has delivered one. */
  lemma HeldCanBeSent(s: State, gen: nat)
    requires Inv(s) && s.consumer && gen < |s.tasks| && s.tasks[gen].held != []
    requires s.tasks[gen].pc == Running || s.tasks[gen].pc == Draining
    ensures |s.queue| < 1024 ==> Enabled(s, SendHeld(gen))
    ensures |s.queue| == 1024 ==>
              && Enabled(s, Deliver) && Apply(s, Deliver).tasks == s.tasks
              && Enabled(Apply(s, Deliver), SendHeld(gen))
    ensures |s.queue| <= 1024
  {
  }

  /** The next step towards giving up a task's seat. */
  function Onward(s: State, gen: nat): Step
    requires gen < |s.tasks|
  {
    var t := s.tasks[gen];
    match t.pc
    case Running => RuntimeDone(gen)
    case Draining =>
      if t.held == [] || !s.consumer then DrainEnd(gen) else if Room(s) then SendHeld(gen) else Deliver
    case Retiring(listened) => if listened && s.consumer && !Room(s) then Deliver else Retire(gen)
    case Gone => Deliver
  }

  function Stage(pc: Pc): nat {
    match pc
    case Running => 3
    case Draining => 2
    case Retiring(_) => 1
    case Gone => 0
  }

  lemma OnwardSteps(s: State, gen: nat)
    requires Live(s, gen) && Queued(s)
    ensures Enabled(s, Onward(s, gen))
    ensures var (s', t) := (Apply(s, Onward(s, gen)), s.tasks[gen]);
            && s'.consumer == s.consumer && |s'.tasks| == |s.tasks|
            && s'.tasks[gen].id == t.id && s'.tasks[gen].produced == t.produced
            && (s'.tasks[gen].pc.Gone? <==> Onward(s, gen) == Retire(gen))
  {
  }

  /** A step towards giving up a seat sends a held report, or keeps those held and
      moves the task on or a queued message out. */
  lemma OnwardProgress(s: State, gen: nat)
    requires Live(s, gen) && Queued(s) && Enabled(s, Onward(s, gen))
    ensures var (s', t) := (Apply(s, Onward(s, gen)), s.tasks[gen]);
            && |s'.tasks| == |s.tasks|
            && (|| |s'.tasks[gen].held| < |t.held|
                || (s'.tasks[gen].held == t.held
                    && (|| Stage(s'.tasks[gen].pc) < Stage(t.pc)
                        || (s'.tasks[gen].pc == t.pc && |s'.queue| < |s.queue|))))
  {
    var (s', t) := (Apply(s, Onward(s, gen)), s.tasks[gen]);
    if Onward(s, gen) == Deliver {
      assert s'.tasks == s.tasks && |s'.queue| < |s.queue|;
    } else if Onward(s, gen) == SendHeld(gen) {
      assert s'.tasks[gen].held == t.held[1..];
    } else {
      assert Stage(s'.tasks[gen].pc) < Stage(t.pc);
      assert s'.tasks[gen].held == t.held || s'.tasks[gen].held == [];
    }
  }

  /** From every reachable state a live task can come to give up its seat; with the
      consumer listening it first delivers everything it produced, and retires. */
  lemma {:induction false} CanRetire(s: State, gen: nat) returns (steps: seq<Step>, s': State)
    requires Inv(s) && Live(s, gen)
    ensures Leads(s, steps, s') && gen < |s'.tasks| && s'.tasks[gen].pc.Gone?
    ensures s'.tasks[gen].produced == s.tasks[gen].produced
    ensures s.consumer ==>
              && s'.sent != [] && s'.sent[|s'.sent| - 1] == Retired(s.tasks[gen].id, gen)
              && ReportsOf(s'.sent, gen) == s.tasks[gen].produced
    decreases |s.tasks[gen].held|, Stage(s.tasks[gen].pc), |s.queue|
  {
    var step := Onward(s, gen);
    assert Queued(s);
    OnwardSteps(s, gen);
    OnwardProgress(s, gen);
    StepInv(s, step);
    if step == Retire(gen) {
      LastOnward(s, gen);
      hide Inv, Apply, Enabled, Onward, ReportsOf;
      steps, s' := [], Apply(s, step);
      assert Leads(s', [], s');
    } else {
      hide Inv, Apply, Enabled, Onward, ReportsOf, Leads;
      steps, s' := CanRetire(Apply(s, step), gen);
    }
    hide Inv, Apply, Enabled, Onward, ReportsOf, Leads;
    Prepended(s, step, steps, s');
    steps := [step] + steps;
  }

  lemma LastOnward(s: State, gen: nat)
    requires Inv(s) && Live(s, gen) && Onward(s, gen) == Retire(gen)
    ensures var s' := Apply(s, Retire(gen));
            s.consumer ==>
              && s'.sent != [] && s'.sent[|s'.sent| - 1] == Retired(s.tasks[gen].id, gen)
              && ReportsOf(s'.sent, gen) == s.tasks[gen].produced
  {
    hide Seated, FromTasks, InOrder, Conserved, ReportsOf;
    if s.consumer {
      RetiresEmptied(s, gen);
    }
  }

  lemma RetiresEmptied(s: State, gen: nat)
    requires Inv(s) && gen < |s.tasks| && s.tasks[gen].pc.Retiring? && s.consumer && Room(s)
    ensures ReportsOf(Apply(s, Retire(gen)).sent, gen) == s.tasks[gen].produced
    ensures var sent := Apply(s, Retire(gen)).sent; sent[|sent| - 1] == Retired(s.tasks[gen].id, gen)
  {
    PushConserves(s, Retired(s.tasks[gen].id, gen), gen);
  }

  lemma NobodyLives(s: State)
    requires Seated(s) && s.endpoints == map[]
    ensures forall gen | 0 <= gen < |s.tasks| :: s.tasks[gen].pc.Gone?
  {
  }

  // --- The registry as the object the collector's handles share ---

  class Registry {
    var output: bool
    var endpoints: map<Id, nat>
    var signalled: set<nat>
    var nextGen: nat

    constructor ()
      ensures output && endpoints == map[] && signalled == {} && nextGen == 0
    {
      output, endpoints, signalled, nextGen := true, map[], {}, 0;
    }

    method Add(id: Id, consumer: bool) returns (gen: Option<nat>)
      modifies this`endpoints, this`nextGen
      ensures (endpoints, gen.Some?) == AddSection(output, consumer, old(endpoints), old(nextGen), id)
      ensures gen.Some? ==> gen.value == old(nextGen)
      ensures nextGen == if gen.Some? then old(nextGen) + 1 else old(nextGen)
    {
      if !output || !consumer || id in endpoints {
        return None;
      }
      endpoints := endpoints[id := nextGen];
      gen := Some(nextGen);
      nextGen := nextGen + 1;
    }

    method Remove(id: Id) returns (found: bool)
      modifies this`signalled
      ensures found <==> id in endpoints
      ensures signalled == if found then old(signalled) + {endpoints[id]} else old(signalled)
    {
      if id !in endpoints {
        return false;
      }
      signalled := signalled + {endpoints[id]};
      return true;
    }

    method Shutdown()
      modifies this`output, this`signalled
      ensures !output && signalled == old(signalled) + endpoints.Values
    {
      output := false;
      var rest := endpoints.Keys;
      while rest != {}
        invariant rest <= endpoints.Keys && !output
        invariant signalled == old(signalled) + set id | id in endpoints.Keys - rest :: endpoints[id]
        decreases |rest|
      {
        var id :| id in rest;
        signalled := signalled + {endpoints[id]};
        rest := rest - {id};
      }
      assert endpoints.Values == set id | id in endpoints.Keys - rest :: endpoints[id];
    }

    method Retire(id: Id)
      modifies this`endpoints
      ensures endpoints == old(endpoints) - {id}
    {
      endpoints := endpoints - {id};
    }
  }

  /** The registry with the tasks and the queue it serves. */
  class Collection {
    const registry: Registry
    var consumer: bool
    var tasks: seq<Task>
    var queue: seq<Msg>
    var delivered: seq<Msg>
    var sent: seq<Msg>

    ghost predicate Valid()
      reads this, registry
    {
      && registry.nextGen == |tasks|
      && (forall g | g in registry.signalled :: g < |tasks|)
      && (forall id | id in registry.endpoints :: registry.endpoints[id] < |tasks|)
      && forall g | 0 <= g < |tasks| :: !tasks[g].stop
    }

    /** A task's stop signal is the registry's to give. */
    function Signalled(): (r: seq<Task>)
      reads this, registry
      ensures |r| == |tasks|
      ensures forall g | 0 <= g < |tasks| :: r[g] == tasks[g].(stop := g in registry.signalled)
    {
      seq(|tasks|, g requires 0 <= g < |tasks| reads this, registry => tasks[g].(stop := g in registry.signalled))
    }

    function View(): State
      reads this, registry
    {
      State(registry.output, consumer, registry.endpoints, Signalled(), queue, delivered, sent)
    }

    constructor ()
      ensures Valid() && View() == Init() && fresh(registry)
    {
      registry := new Registry();
      consumer, tasks, queue, delivered, sent := true, [], [], [], [];
    }

    method Add(id: Id)
      requires Valid()
      modifies this, registry
      ensures Valid() && View() == Apply(old(View()), Step.Add(id))
    {
      var gen := registry.Add(id, consumer);
      if gen.Some? {
        tasks := tasks + [Task(id, Running, [], [], false)];
      }
    }

    method Remove(id: Id)
      requires Valid()
      modifies registry
      ensures Valid() && View() == Apply(old(View()), Step.Remove(id))
    {
      var found := registry.Remove(id);
    }

    method Shutdown()
      requires Valid()
      modifies registry
      ensures Valid() && View() == Apply(old(View()), Step.Shutdown)
    {
      ghost var before := View();
      registry.Shutdown();
      assert forall g | g in registry.endpoints.Values :: g < |tasks|;
      assert View().tasks == Apply(before, Step.Shutdown).tasks;
    }

    method Send(gen: nat)
      requires Valid() && Enabled(View(), SendHeld(gen))
      modifies this
      ensures Valid() && View() == Apply(old(View()), SendHeld(gen))
    {
      var t := tasks[gen];
      var m := Report(t.id, gen, t.held[0]);
      tasks := tasks[gen := t.(held := t.held[1..])];
      queue, sent := queue + [m], sent + [m];
    }

    /** The seat given up, and said so if there is a slot to say it in. */
    method GiveUp(gen: nat, slot: bool)
      requires Valid() && gen < |tasks|
      modifies this, registry
      ensures Valid() && View() == ApplyRetire(old(View()), gen, slot)
    {
      var t := tasks[gen];
      registry.Retire(t.id);
      tasks := tasks[gen := t.(pc := Gone, held := [])];
      if slot {
        queue, sent := queue + [Retired(t.id, gen)], sent + [Retired(t.id, gen)];
      }
    }

    method Become(gen: nat, pc: Pc)
      requires Valid() && gen < |tasks|
      modifies this
      ensures Valid() && View() == WithTask(old(View()), gen, old(View()).tasks[gen].(pc := pc))
    {
      tasks := tasks[gen := tasks[gen].(pc := pc)];
    }

    method Hold(gen: nat, contents: seq<nat>)
      requires Valid() && Enabled(View(), Produce(gen, contents))
      modifies this
      ensures Valid() && View() == Apply(old(View()), Produce(gen, contents))
    {
      var t := tasks[gen];
      tasks := tasks[gen := t.(held := t.held + contents, produced := t.produced + contents)];
    }

    /** One step of the protocol on the objects. */
    method Advance(step: Step)
      requires Valid() && Enabled(View(), step)
      modifies this, registry
      ensures Valid() && View() == Apply(old(View()), step)
    {
      match step {
        case Add(id) => Add(id);
        case Remove(id) => Remove(id);
        case Shutdown => Shutdown();
        case DropConsumer => consumer, queue := false, [];
        case Produce(gen, contents) => Hold(gen, contents);
        case SendHeld(gen) => Send(gen);
        case RuntimeDone(gen) => Become(gen, Draining);
        case Panic(gen) => Become(gen, Draining);
        case NobodyListens(gen) => Become(gen, Retiring(false));
        case DrainEnd(gen) => Become(gen, Retiring(true));
        case Retire(gen) => GiveUp(gen, tasks[gen].pc.listened && consumer && |queue| < CAPACITY);
        case DropTask(gen) => GiveUp(gen, consumer && |queue| < CAPACITY);
        case Deliver => queue, delivered := queue[1..], delivered + [queue[0]];
      }
    }

    /** Whatever calls arrive, those that are due make a run of the protocol. */
    method Execute(calls: seq<Step>) returns (ghost ss: seq<State>, ghost steps: seq<Step>)
      requires Valid() && View() == Init()
      modifies this, registry
      ensures IsRun(ss, steps) && ss[|ss| - 1] == View()
    {
      hide Apply, Enabled, Init;
      ss, steps := [View()], [];
      for i := 0 to |calls|
        invariant Valid() && IsRun(ss, steps) && ss[|ss| - 1] == View()
      {
        if Enabled(View(), calls[i]) {
          Advance(calls[i]);
          ss, steps := ss + [View()], steps + [calls[i]];
        }
      }
    }
  }
}
