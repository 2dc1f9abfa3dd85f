/** The stream's shared state and its three users (`orchestration/src/stream.rs`):
    the connect leaf inside the runtime, the connect attempts it dispatches, and
    the reports outside. Every lock section is one atomic step; the attempt's
    program counter and the reader's own fields move between them. */
module StreamProtocol {
  import opened Bytes
  import opened Reconnect

  const U32_MAX := 0xFFFF_FFFF

  datatype Phase =
    | Due(at: Option<nat>)
    | Connecting
    | Streaming
    | Ended(end: StreamEnd, productive: bool)
    | Stopped

  /** What the lock guards: streams and attempts are named by attempt number. */
  datatype Shared = Shared(phase: Phase, connecting: Option<nat>, waiting: Option<nat>, waker: bool) {
    function WakeReports(): Shared { this.(waker := false) }
  }

  datatype Leaf = Leaf(lastNow: Option<nat>, unproductive: nat, alive: bool)

  datatype Reader = Reader(current: Option<nat>, productive: bool, live: bool, parked: bool, aborting: Option<nat>)

  datatype Outcome = Opened | Refused(retryable: bool)

  datatype Attempt = Created | Performing(aborted: bool) | Performed(o: Outcome) | Cleared(o: Outcome) | Finished

  datatype Item = Data | Terminal(retryable: bool) | Exhausted

  datatype Config = Config(policy: Policy, endpoint: seq<bv8>, maxInstant: nat)

  // --- The lock sections ---

  function InitShared(): Shared { Shared(Due(None), None, None, false) }

  predicate IsDue(phase: Phase, now: nat) {
    phase.Due? && (phase.at.None? || now >= phase.at.value)
  }

  /** An ended instance becomes the next due instant, or the stop. */
  function Schedule(c: Config, sh: Shared, unproductive: nat, now: nat): (r: (Shared, nat))
    requires sh.phase.Ended?
  {
    var count := if sh.phase.productive then 0 else Min(unproductive + 1, U32_MAX);
    match Delay(c.policy, sh.phase.end, count, c.endpoint)
    case Some(d) =>
      if now + d <= c.maxInstant then (sh.(phase := Due(Some(now + d))), count)
      else (sh.(phase := Stopped).WakeReports(), count)
    case None => (sh.(phase := Stopped).WakeReports(), count)
  }

  function TakeSection(sh: Shared, now: nat): (r: (Shared, bool)) {
    if IsDue(sh.phase, now) then (sh.(phase := Connecting), true) else (sh, false)
  }

  /** The attempt's first lock: no request once stopped. */
  function BeginSection(sh: Shared, id: nat): (r: (Shared, bool)) {
    if sh.phase.Stopped? then (sh, false) else (sh.(connecting := Some(id)), true)
  }

  function FinishSection(sh: Shared, id: nat, o: Outcome): Shared {
    if sh.phase.Stopped? then sh
    else match o
      case Opened => sh.(phase := Streaming, waiting := Some(id)).WakeReports()
      case Refused(retryable) => sh.(phase := Ended(NotConnected(retryable), false))
  }

  function EndedSection(sh: Shared, end: StreamEnd, productive: bool): Shared {
    if sh.phase.Stopped? then sh else sh.(phase := Ended(end, productive))
  }

  datatype Polled = Took(stream: nat) | Over | Parked

  function PollSection(sh: Shared): (r: (Shared, Polled)) {
    if sh.waiting.Some? then (sh.(waiting := None), Took(sh.waiting.value))
    else if sh.phase.Stopped? then (sh, Over)
    else (sh.(waker := true), Parked)
  }

  function DropLeafSection(sh: Shared): Shared { sh.(phase := Stopped).WakeReports() }

  function DropReportsSection(sh: Shared): (r: (Shared, Option<nat>)) {
    (sh.(phase := Stopped, connecting := None, waiting := None), sh.connecting)
  }

  // --- The state machine ---

  /** `taken` are the instants attempts were dispatched at; `ended` the productive
      flags of instances as they ended, `counted` those the leaf has scheduled. */
  datatype State = State(
    sh: Shared, leaf: Leaf, reader: Reader, attempts: seq<Attempt>,
    taken: seq<nat>, ended: seq<bool>, counted: seq<bool>)

  datatype Step =
    | Scan(now: nat)
    | Take
    | Begin(id: nat)
    | AbortSeen(id: nat)
    | Perform(id: nat, o: Outcome)
    | Clear(id: nat)
    | Finish(id: nat)
    | Yield(item: Item)
    | Poll
    | DropLeaf
    | Discard(id: nat)
    | DropReports
    | Abort

  function Init(): State {
    State(InitShared(), Leaf(None, 0, true), Reader(None, false, true, false, None), [], [], [], [])
  }

  predicate Enabled(s: State, step: Step) {
    match step
    case Scan(now) => s.leaf.alive && (s.leaf.lastNow.Some? ==> now >= s.leaf.lastNow.value)
    case Take => s.leaf.alive && s.leaf.lastNow.Some?
    case Begin(id) => id < |s.attempts| && s.attempts[id].Created?
    case AbortSeen(id) => id < |s.attempts| && s.attempts[id] == Performing(true)
    case Perform(id, _) => id < |s.attempts| && s.attempts[id] == Performing(false)
    case Clear(id) => id < |s.attempts| && s.attempts[id].Performed?
    case Finish(id) => id < |s.attempts| && s.attempts[id].Cleared?
    case Yield(_) => s.reader.live && s.reader.current.Some?
    case Poll => s.reader.live && s.reader.current.None?
    case DropLeaf => s.leaf.alive
    case Discard(id) => !s.leaf.alive && id < |s.attempts| && !s.attempts[id].Finished?
    case DropReports => s.reader.live
    case Abort => s.reader.aborting.Some?
  }

  /** A parked reader is woken when its waker is taken. */
  function WithShared(s: State, sh: Shared): State {
    s.(sh := sh, reader := s.reader.(parked := s.reader.parked && sh.waker))
  }

  function Apply(c: Config, s: State, step: Step): State
    requires Enabled(s, step)
  {
    match step
    case Scan(now) => ApplyScan(c, s, now)
    case Take => ApplyTake(s)
    case Begin(id) =>
      var (sh, go) := BeginSection(s.sh, id);
      WithShared(s, sh).(attempts := s.attempts[id := if go then Performing(false) else Finished])
    case AbortSeen(id) => s.(attempts := s.attempts[id := Finished])
    case Perform(id, o) => s.(attempts := s.attempts[id := Performed(o)])
    case Clear(id) => WithShared(s, s.sh.(connecting := None)).(attempts := s.attempts[id := Cleared(s.attempts[id].o)])
    case Finish(id) => ApplyFinish(s, id)
    case Yield(item) => ApplyYield(s, item)
    case Poll => ApplyPoll(s)
    case DropLeaf => WithShared(s, DropLeafSection(s.sh)).(leaf := s.leaf.(alive := false))
    case Discard(id) => s.(attempts := s.attempts[id := Finished])
    case DropReports =>
      var (sh, aborting) := DropReportsSection(s.sh);
      s.(sh := sh, reader := Reader(None, s.reader.productive, false, false, aborting))
    case Abort =>
      var id := s.reader.aborting.value;
      var attempts :=
        if id < |s.attempts| && s.attempts[id].Performing? then s.attempts[id := Performing(true)] else s.attempts;
      s.(reader := s.reader.(aborting := None), attempts := attempts)
  }

  function ApplyScan(c: Config, s: State, now: nat): State {
    var leaf := s.leaf.(lastNow := Some(now));
    if s.sh.phase.Ended? then
      var (sh, count) := Schedule(c, s.sh, s.leaf.unproductive, now);
      WithShared(s, sh).(leaf := leaf.(unproductive := count), counted := s.counted + [s.sh.phase.productive])
    else s.(leaf := leaf)
  }

  function ApplyTake(s: State): State
    requires s.leaf.lastNow.Some?
  {
    var (sh, go) := TakeSection(s.sh, s.leaf.lastNow.value);
    if go then WithShared(s, sh).(attempts := s.attempts + [Created], taken := s.taken + [s.leaf.lastNow.value]) else s
  }

  function ApplyFinish(s: State, id: nat): State
    requires id < |s.attempts| && s.attempts[id].Cleared?
  {
    var o := s.attempts[id].o;
    var sh := FinishSection(s.sh, id, o);
    WithShared(s, sh).(attempts := s.attempts[id := Finished],
                       ended := if o.Refused? && !s.sh.phase.Stopped? then s.ended + [false] else s.ended)
  }

  function ApplyYield(s: State, item: Item): State {
    match item
    case Data => s.(reader := s.reader.(productive := true, parked := false))
    case _ =>
      var end := if item.Terminal? then Failed(item.retryable) else Closed;
      var sh := EndedSection(s.sh, end, s.reader.productive);
      s.(sh := sh, reader := s.reader.(current := None, parked := false),
         ended := if s.sh.phase.Stopped? then s.ended else s.ended + [s.reader.productive])
  }

  function ApplyPoll(s: State): State {
    var (sh, polled) := PollSection(s.sh);
    match polled
    case Took(stream) =>
      s.(sh := sh, reader := s.reader.(current := Some(stream), productive := false, parked := false))
    case Over => s.(sh := sh, reader := s.reader.(parked := false))
    case Parked => s.(sh := sh, reader := s.reader.(parked := true))
  }

  // --- What every reachable state keeps ---

  /** The latest attempt has not finished. */
  predicate Busy(s: State) { s.attempts != [] && !s.attempts[|s.attempts| - 1].Finished? }

  /** Only the latest attempt may be unfinished, and unless stopped it is exactly
      while connecting. */
  ghost predicate OneAttempt(s: State) {
    && (forall i | 0 <= i < |s.attempts| - 1 :: s.attempts[i].Finished?)
    && (!s.sh.phase.Stopped? ==> (s.sh.phase.Connecting? <==> Busy(s)))
  }

  /** An opened stream is in one place only: with its unfinished attempt, waiting,
      or being read; and unless stopped, waiting or read exactly while streaming. */
  ghost predicate OneStream(s: State) {
    && !(s.sh.waiting.Some? && s.reader.current.Some?)
    && (s.sh.waiting.Some? || s.reader.current.Some? ==> !Busy(s))
    && (!s.sh.phase.Stopped? && s.reader.live ==>
          (s.sh.phase.Streaming? <==> s.sh.waiting.Some? || s.reader.current.Some?))
  }

  /** The abort handle is the performing attempt's. */
  ghost predicate HandleHeld(s: State) {
    && (s.sh.connecting.Some? ==>
          && s.sh.connecting.value < |s.attempts| && s.reader.live
          && var a := s.attempts[s.sh.connecting.value];
             a == Performing(false) || a.Performed? || (a.Finished? && !s.leaf.alive))
    && (s.reader.live ==> s.reader.aborting.None?)
    && (forall i | 0 <= i < |s.attempts| && s.attempts[i].Performing? && s.reader.live ::
          s.sh.connecting == Some(i) && s.attempts[i] == Performing(false))
  }

  /** Once the reports are dropped nothing more is opened or retained, and an
      attempt still performing is aborted, at the latest by the drop's own next
      step. */
  ghost predicate DropCancels(s: State) {
    !s.reader.live ==>
      && s.sh.phase.Stopped? && s.sh.waiting.None? && s.reader.current.None? && !s.reader.parked
      && s.sh.connecting.None?
      && forall i | 0 <= i < |s.attempts| && s.attempts[i].Performing? ::
           s.attempts[i] == Performing(true) || s.reader.aborting == Some(i)
  }

  /** A parked reader's waker is registered, and then there is neither a stream
      nor an end to deliver. */
  ghost predicate NoLostWakeup(s: State) {
    && (s.reader.live && s.sh.waker ==> s.sh.waiting.None? && !s.sh.phase.Stopped? && s.reader.current.None?)
    && (s.reader.parked ==> s.reader.live && s.sh.waker)
  }

  function TrailingUnproductive(flags: seq<bool>): nat {
    if flags == [] || flags[|flags| - 1] then 0 else 1 + TrailingUnproductive(flags[..|flags| - 1])
  }

  /** Each instance is dispatched, ends and is counted once, in order. */
  ghost predicate CountedOnce(s: State) {
    && |s.taken| == |s.attempts|
    && s.counted <= s.ended
    && s.leaf.unproductive == Min(TrailingUnproductive(s.counted), U32_MAX)
    && (!s.sh.phase.Stopped? ==>
          && |s.attempts| == |s.ended| + (if s.sh.phase.Connecting? || s.sh.phase.Streaming? then 1 else 0)
          && |s.ended| == |s.counted| + (if s.sh.phase.Ended? then 1 else 0)
          && (s.sh.phase.Ended? ==> s.ended[|s.counted|] == s.sh.phase.productive))
    && (!s.leaf.alive ==> s.sh.phase.Stopped?)
  }

  ghost predicate Spaced(c: Config, s: State) {
    && (forall i | 0 <= i < |s.taken| - 1 :: s.taken[i] + c.policy.first <= s.taken[i + 1])
    && (s.taken != [] ==> s.leaf.lastNow.Some? && s.taken[|s.taken| - 1] <= s.leaf.lastNow.value)
    && (s.taken != [] && s.sh.phase.Due? ==>
          s.sh.phase.at.Some? && s.taken[|s.taken| - 1] + c.policy.first <= s.sh.phase.at.value)
  }

  ghost predicate Inv(c: Config, s: State) {
    OneAttempt(s) && OneStream(s) && HandleHeld(s) && DropCancels(s) && NoLostWakeup(s) && CountedOnce(s)
        && Spaced(c, s)
  }

  lemma InitInv(c: Config)
    ensures Inv(c, Init())
  {
  }

  lemma TrailingExtends(flags: seq<bool>, flag: bool)
    ensures TrailingUnproductive(flags + [flag]) == if flag then 0 else 1 + TrailingUnproductive(flags)
  {
    assert (flags + [flag])[..|flags|] == flags;
  }

  /** What follows an ended instance: the stop, for good reason, or an instant at
      least the first retry away. */
  lemma ScheduleSpaced(c: Config, sh: Shared, unproductive: nat, now: nat)
    requires Validated(c.policy) && sh.phase.Ended?
    ensures var (phase, end) := (Schedule(c, sh, unproductive, now).0.phase, sh.phase.end);
            if end == Closed || end == NotConnected(true) || end == Failed(true) then
              || (phase.Due? && phase.at.Some? && now + c.policy.first <= phase.at.value <= now + 2 * c.policy.max)
              || (phase.Stopped? && now + 2 * c.policy.max > c.maxInstant)
            else phase.Stopped?
  {
    var count := if sh.phase.productive then 0 else Min(unproductive + 1, U32_MAX);
    DelayExact(c.policy, sh.phase.end, count, c.endpoint);
    hide Delay, Base, Place;
  }

  // One lemma for each kind of step.

  lemma ScheduleCounts(c: Config, s: State, now: nat)
    requires s.sh.phase.Ended? && CountedOnce(s)
    ensures var (sh, count) := Schedule(c, s.sh, s.leaf.unproductive, now);
            var counted := s.counted + [s.sh.phase.productive];
            && count == Min(TrailingUnproductive(counted), U32_MAX)
            && s.ended == counted
            && (sh.phase.Due? || sh.phase.Stopped?) && sh.connecting == s.sh.connecting
            && sh.waiting == s.sh.waiting && (sh.waker ==> s.sh.waker && !sh.phase.Stopped?)
  {
    hide Delay;
    TrailingExtends(s.counted, s.sh.phase.productive);
    assert s.ended == s.counted + [s.sh.phase.productive];
  }

  lemma ScanKeeps(c: Config, s: State, now: nat)
    requires Validated(c.policy) && Enabled(s, Scan(now)) && Inv(c, s)
    ensures Inv(c, Apply(c, s, Scan(now)))
  {
    hide TrailingUnproductive;
    if s.sh.phase.Ended? {
      hide Inv, Apply;
      ScheduledKeeps(c, s, now);
    } else {
      hide Schedule, Validated;
    }
  }

  lemma ScheduledKeeps(c: Config, s: State, now: nat)
    requires Validated(c.policy) && Enabled(s, Scan(now)) && Inv(c, s) && s.sh.phase.Ended?
    ensures Inv(c, Apply(c, s, Scan(now)))
  {
    ScheduleSpaced(c, s.sh, s.leaf.unproductive, now);
    ScheduleCounts(c, s, now);
    hide Schedule, TrailingUnproductive, Validated;
  }

  lemma TakeKeeps(c: Config, s: State)
    requires Enabled(s, Take) && Inv(c, s)
    ensures Inv(c, Apply(c, s, Take))
  {
    hide TrailingUnproductive;
  }

  lemma BeginKeeps(c: Config, s: State, id: nat)
    requires Enabled(s, Begin(id)) && Inv(c, s)
    ensures Inv(c, Apply(c, s, Begin(id)))
  {
    hide TrailingUnproductive;
  }

  lemma AbortSeenKeeps(c: Config, s: State, id: nat)
    requires Enabled(s, AbortSeen(id)) && Inv(c, s)
    ensures Inv(c, Apply(c, s, AbortSeen(id)))
  {
    hide TrailingUnproductive;
  }

  lemma PerformKeeps(c: Config, s: State, id: nat, o: Outcome)
    requires Enabled(s, Perform(id, o)) && Inv(c, s)
    ensures Inv(c, Apply(c, s, Perform(id, o)))
  {
    hide TrailingUnproductive;
  }

  lemma ClearKeeps(c: Config, s: State, id: nat)
    requires Enabled(s, Clear(id)) && Inv(c, s)
    ensures Inv(c, Apply(c, s, Clear(id)))
  {
    hide TrailingUnproductive;
  }

  lemma FinishKeeps(c: Config, s: State, id: nat)
    requires Enabled(s, Finish(id)) && Inv(c, s)
    ensures Inv(c, Apply(c, s, Finish(id)))
  {
    hide TrailingUnproductive;
    assert Busy(s);
  }

  lemma YieldKeeps(c: Config, s: State, item: Item)
    requires Enabled(s, Yield(item)) && Inv(c, s)
    ensures Inv(c, Apply(c, s, Yield(item)))
  {
    hide TrailingUnproductive;
    if item != Data {
      hide Inv, Apply;
      EndKeeps(c, s, item);
    }
  }

  lemma EndKeeps(c: Config, s: State, item: Item)
    requires Enabled(s, Yield(item)) && Inv(c, s) && item != Data
    ensures Inv(c, Apply(c, s, Yield(item)))
  {
    hide TrailingUnproductive;
  }

  lemma PollKeeps(c: Config, s: State)
    requires Enabled(s, Poll) && Inv(c, s)
    ensures Inv(c, Apply(c, s, Poll))
  {
    hide TrailingUnproductive;
  }

  lemma DropLeafKeeps(c: Config, s: State)
    requires Enabled(s, DropLeaf) && Inv(c, s)
    ensures Inv(c, Apply(c, s, DropLeaf))
  {
    hide TrailingUnproductive;
  }

  lemma DiscardKeeps(c: Config, s: State, id: nat)
    requires Enabled(s, Discard(id)) && Inv(c, s)
    ensures Inv(c, Apply(c, s, Discard(id)))
  {
    hide TrailingUnproductive;
  }

  lemma DropReportsKeeps(c: Config, s: State)
    requires Enabled(s, DropReports) && Inv(c, s)
    ensures Inv(c, Apply(c, s, DropReports))
  {
    hide TrailingUnproductive;
  }

  lemma AbortKeeps(c: Config, s: State)
    requires Enabled(s, Abort) && Inv(c, s)
    ensures Inv(c, Apply(c, s, Abort))
  {
    hide TrailingUnproductive;
  }

  lemma StepInv(c: Config, s: State, step: Step)
    requires Validated(c.policy) && Enabled(s, step) && Inv(c, s)
    ensures Inv(c, Apply(c, s, step))
  {
    hide Validated, Enabled, Inv, Apply;
    match step {
      case Scan(now) => ScanKeeps(c, s, now);
      case Take => TakeKeeps(c, s);
      case Begin(id) => BeginKeeps(c, s, id);
      case AbortSeen(id) => AbortSeenKeeps(c, s, id);
      case Perform(id, o) => PerformKeeps(c, s, id, o);
      case Clear(id) => ClearKeeps(c, s, id);
      case Finish(id) => FinishKeeps(c, s, id);
      case Yield(item) => YieldKeeps(c, s, item);
      case Poll => PollKeeps(c, s);
      case DropLeaf => DropLeafKeeps(c, s);
      case Discard(id) => DiscardKeeps(c, s, id);
      case DropReports => DropReportsKeeps(c, s);
      case Abort => AbortKeeps(c, s);
    }
  }

  // --- Over whole runs ---

  ghost predicate IsRun(c: Config, ss: seq<State>, steps: seq<Step>) {
    && |ss| == |steps| + 1 && ss[0] == Init()
    && forall i | 0 <= i < |steps| :: Enabled(ss[i], steps[i]) && ss[i + 1] == Apply(c, ss[i], steps[i])
  }

  /** Every state of every run, whatever the interleaving. */
  lemma {:induction false} Always(c: Config, ss: seq<State>, steps: seq<Step>, k: nat)
    requires Validated(c.policy) && IsRun(c, ss, steps) && k < |ss|
    ensures Inv(c, ss[k])
  {
    if k == 0 {
      InitInv(c);
    } else {
      Always(c, ss, steps, k - 1);
      StepInv(c, ss[k - 1], steps[k - 1]);
    }
  }

  /** Stopped is absorbing, and nothing is dispatched after it. */
  lemma {:induction false} StoppedForGood(c: Config, ss: seq<State>, steps: seq<Step>, i: nat, k: nat)
    requires IsRun(c, ss, steps) && i <= k < |ss| && ss[i].sh.phase.Stopped?
    ensures ss[k].sh.phase.Stopped? && ss[k].taken == ss[i].taken
  {
    if i < k {
      StoppedForGood(c, ss, steps, i, k - 1);
    }
  }

  /** An end whose failure said retrying is pointless is followed by no attempt:
      the state stays ended until the leaf stops it. */
  lemma {:induction false} NotRetried(c: Config, ss: seq<State>, steps: seq<Step>, i: nat, k: nat)
    requires Validated(c.policy) && IsRun(c, ss, steps) && i <= k < |ss|
    requires ss[i].sh.phase.Ended? && ss[i].reader.live
    requires ss[i].sh.phase.end == NotConnected(false) || ss[i].sh.phase.end == Failed(false)
    ensures ss[k].taken == ss[i].taken
    ensures ss[k].sh.phase.Stopped? || (ss[k].sh.phase == ss[i].sh.phase && ss[k].reader.live)
  {
    hide Validated, Inv, Enabled, Apply;
    if i < k {
      NotRetried(c, ss, steps, i, k - 1);
      Always(c, ss, steps, k - 1);
      if ss[k - 1].sh.phase.Stopped? {
        StoppedForGood(c, ss, steps, k - 1, k);
      } else {
        NotRetriedStep(c, ss[k - 1], steps[k - 1]);
      }
    }
  }

  lemma NotRetriedStep(c: Config, s: State, step: Step)
    requires Validated(c.policy) && Enabled(s, step) && Inv(c, s) && s.sh.phase.Ended? && s.reader.live
    requires s.sh.phase.end == NotConnected(false) || s.sh.phase.end == Failed(false)
    ensures var s' := Apply(c, s, step);
            s'.taken == s.taken && (s'.sh.phase.Stopped? || (s'.sh.phase == s.sh.phase && s'.reader.live))
  {
    if step.Scan? {
      ScheduleSpaced(c, s.sh, s.leaf.unproductive, step.now);
    }
    hide Schedule;
  }

  // --- What follows what ---

  /** The end an instance comes to at this step, if it comes to one. */
  function EndAt(s: State, step: Step): Option<StreamEnd> {
    match step
    case Yield(Terminal(retryable)) => Some(Failed(retryable))
    case Yield(Exhausted) => Some(Closed)
    case Finish(id) =>
      if id < |s.attempts| && s.attempts[id].Cleared? && s.attempts[id].o.Refused?
      then Some(NotConnected(s.attempts[id].o.retryable)) else None
    case _ => None
  }

  /** How an instance ends is what the next scan schedules by: a refused attempt as
      not connected, a terminal item as failed, exhaustion as closed, and only a
      read instance can have been productive. */
  lemma {:induction false} EndIsScheduled(c: Config, ss: seq<State>, steps: seq<Step>, j: nat, k: nat)
    requires Validated(c.policy) && IsRun(c, ss, steps) && j < k < |ss| && !ss[j].sh.phase.Stopped?
    requires EndAt(ss[j], steps[j]).Some?
    requires forall i | j < i < k :: !steps[i].Scan? && !steps[i].DropLeaf? && !steps[i].DropReports?
    ensures ss[k].sh.phase == Ended(EndAt(ss[j], steps[j]).value, steps[j].Yield? && ss[j].reader.productive)
  {
    hide Inv, EndAt, Apply, Enabled;
    Always(c, ss, steps, k - 1);
    StepOfRun(c, ss, steps, k - 1);
    if j + 1 < k {
      EndIsScheduled(c, ss, steps, j, k - 1);
      EndStays(c, ss[k - 1], steps[k - 1]);
    } else {
      EndRecorded(c, ss[j], steps[j]);
    }
  }

  lemma EndRecorded(c: Config, s: State, step: Step)
    requires Enabled(s, step) && !s.sh.phase.Stopped? && EndAt(s, step).Some?
    ensures Apply(c, s, step).sh.phase == Ended(EndAt(s, step).value, step.Yield? && s.reader.productive)
  {
  }

  lemma StepOfRun(c: Config, ss: seq<State>, steps: seq<Step>, k: nat)
    requires IsRun(c, ss, steps) && k < |steps|
    ensures Enabled(ss[k], steps[k]) && ss[k + 1] == Apply(c, ss[k], steps[k])
  {
  }

  /** Nothing but a scan or a drop moves an ended stream. */
  lemma EndStays(c: Config, s: State, step: Step)
    requires Enabled(s, step) && Inv(c, s) && s.sh.phase.Ended?
    requires !step.Scan? && !step.DropLeaf? && !step.DropReports?
    ensures Apply(c, s, step).sh.phase == s.sh.phase
  {
    hide NoLostWakeup, CountedOnce, Spaced;
  }

  /** A scan of an ended stream retries unless the end said otherwise or the instant
      cannot be represented, after the delay of as many unproductive instances as
      have ended in a row. */
  lemma Retried(c: Config, ss: seq<State>, steps: seq<Step>, k: nat)
    requires Validated(c.policy) && IsRun(c, ss, steps) && k < |steps| && steps[k].Scan? && ss[k].sh.phase.Ended?
    ensures var (end, now) := (ss[k].sh.phase.end, steps[k].now);
            var delay := Delay(c.policy, end, Min(TrailingUnproductive(ss[k].ended), U32_MAX), c.endpoint);
            if (end == Closed || end == NotConnected(true) || end == Failed(true))
               && now + delay.value <= c.maxInstant
            then ss[k + 1].sh.phase == Due(Some(now + delay.value))
            else ss[k + 1].sh.phase == Stopped && !ss[k + 1].reader.parked
  {
    Always(c, ss, steps, k);
    var s := ss[k];
    ScheduleCounts(c, s, steps[k].now);
    DelayExact(c.policy, s.sh.phase.end, Min(TrailingUnproductive(s.ended), U32_MAX), c.endpoint);
    hide Delay, TrailingUnproductive, Validated, OneAttempt, OneStream, HandleHeld, DropCancels, Spaced;
  }

  /** An attempt is dispatched exactly when one is due by the last scan. */
  lemma DispatchesExactly(c: Config, ss: seq<State>, steps: seq<Step>, k: nat)
    requires Validated(c.policy) && IsRun(c, ss, steps) && k < |steps| && steps[k] == Take
    ensures var (s, s') := (ss[k], ss[k + 1]);
            if s.sh.phase == Due(None) || exists at: nat :: s.sh.phase == Due(Some(at)) && at <= s.leaf.lastNow.value
            then && s'.sh.phase == Connecting && s'.attempts == s.attempts + [Created]
                 && s'.taken == s.taken + [s.leaf.lastNow.value] && forall a | a in s.attempts :: a == Finished
            else s' == s
  {
    Always(c, ss, steps, k);
    var s := ss[k];
    assert s.sh.phase.Due? && s.sh.phase.at.Some? ==> s.sh.phase == Due(Some(s.sh.phase.at.value));
    hide HandleHeld, DropCancels, NoLostWakeup, CountedOnce, Spaced, TrailingUnproductive;
  }

  /** An attempt begun before the stop makes its request, and its handle is held. */
  lemma BegunPerforms(c: Config, ss: seq<State>, steps: seq<Step>, k: nat)
    requires IsRun(c, ss, steps) && k < |steps| && steps[k].Begin? && !ss[k].sh.phase.Stopped?
    ensures ss[k + 1].attempts == ss[k].attempts[steps[k].id := Performing(false)]
    ensures ss[k + 1].sh == ss[k].sh.(connecting := Some(steps[k].id))
  {
  }

  /** An opened stream reaches the reader: whatever comes between, the next poll
      takes it, even past the leaf's end. */
  lemma {:induction false} OpenedIsRead(c: Config, ss: seq<State>, steps: seq<Step>, j: nat, k: nat)
    requires Validated(c.policy) && IsRun(c, ss, steps) && j < k < |ss| && steps[j].Finish?
    requires ss[j].attempts[steps[j].id].o == Opened && !ss[j].sh.phase.Stopped?
    requires forall i | j < i < k :: !steps[i].Poll? && !steps[i].DropReports?
    ensures ss[k].sh.waiting == Some(steps[j].id) && !ss[k].reader.parked && ss[k].reader.current == None
    ensures k < |steps| && steps[k] == Poll ==>
              ss[k + 1].reader.current == Some(steps[j].id) && !ss[k + 1].reader.productive
              && ss[k + 1].sh.waiting == None
  {
    Always(c, ss, steps, k - 1);
    Always(c, ss, steps, k);
    if j + 1 < k {
      OpenedIsRead(c, ss, steps, j, k - 1);
      hide Inv;
      OpenedWaits(c, ss[k - 1], steps[k - 1]) by { InvParts(c, ss[k - 1]); }
      InvParts(c, ss[k]);
    }
    hide OneAttempt, HandleHeld, DropCancels, CountedOnce, Spaced, TrailingUnproductive;
  }

  lemma InvParts(c: Config, s: State)
    requires Inv(c, s)
    ensures OneAttempt(s) && OneStream(s) && NoLostWakeup(s)
  {
  }

  lemma OpenedWaits(c: Config, s: State, step: Step)
    requires Enabled(s, step) && OneAttempt(s) && OneStream(s) && s.sh.waiting.Some?
    requires !step.Poll? && !step.DropReports?
    ensures Apply(c, s, step).sh.waiting == s.sh.waiting
  {
  }

  /** An instance is productive exactly when it has delivered since it was taken. */
  lemma {:induction false} ProductiveExactly(c: Config, ss: seq<State>, steps: seq<Step>, j: nat, k: nat)
    requires IsRun(c, ss, steps) && j < k < |ss| && steps[j] == Poll && ss[j].sh.waiting.Some?
    requires forall i | j < i <= k :: ss[i].reader.current.Some?
    ensures ss[k].reader.productive <==> exists i :: j < i < k && steps[i] == Yield(Data)
  {
    if j + 1 < k {
      hide Apply, Enabled;
      ProductiveExactly(c, ss, steps, j, k - 1);
      StepOfRun(c, ss, steps, k - 1);
      assert ss[k - 1].reader.current.Some? && ss[k].reader.current.Some?;
      ReadingGoesOn(c, ss[k - 1], steps[k - 1]);
      assert steps[k - 1] == Yield(Data) ==> ss[k].reader.productive;
    }
  }

  lemma ReadingGoesOn(c: Config, s: State, step: Step)
    requires Enabled(s, step) && s.reader.current.Some? && Apply(c, s, step).reader.current.Some?
    ensures Apply(c, s, step).reader.productive == (s.reader.productive || step == Yield(Data))
  {
  }

  /** A poll with nothing to read ends once stopped and parks before. */
  lemma PollExactly(c: Config, ss: seq<State>, steps: seq<Step>, k: nat)
    requires IsRun(c, ss, steps) && k < |steps| && steps[k] == Poll && ss[k].sh.waiting.None?
    ensures PollSection(ss[k].sh).1 == if ss[k].sh.phase == Stopped then Over else Parked
    ensures ss[k + 1].reader == ss[k].reader.(parked := ss[k].sh.phase != Stopped)
    ensures ss[k + 1].sh.waker == (ss[k].sh.waker || ss[k].sh.phase != Stopped) && ss[k + 1].sh.phase == ss[k].sh.phase
  {
  }

  /** Dropping either side stops the stream; the leaf's drop wakes a parked reader
      and leaves it what was opened. */
  lemma DropStops(c: Config, ss: seq<State>, steps: seq<Step>, k: nat)
    requires Validated(c.policy) && IsRun(c, ss, steps) && k < |steps| && (steps[k] == DropLeaf || steps[k] == DropReports)
    ensures ss[k + 1].sh.phase == Stopped && !ss[k + 1].reader.parked
    ensures steps[k] == DropLeaf ==>
              ss[k + 1].sh.waiting == ss[k].sh.waiting && ss[k + 1].reader.current == ss[k].reader.current
    ensures steps[k] == DropReports ==>
              ss[k + 1].reader.aborting == ss[k].sh.connecting && ss[k + 1].sh.connecting == None
  {
  }

  /** A stream stops only when a side is dropped, or at a scan of an end that is not
      retried or whose retry cannot be represented. */
  lemma StopsOnlyFor(c: Config, ss: seq<State>, steps: seq<Step>, k: nat)
    requires Validated(c.policy) && IsRun(c, ss, steps) && k < |steps|
    requires !ss[k].sh.phase.Stopped? && ss[k + 1].sh.phase.Stopped?
    ensures var (phase, step) := (ss[k].sh.phase, steps[k]);
            || step == DropLeaf || step == DropReports
            || (step.Scan? && phase.Ended?
                && (|| phase.end == NotConnected(false) || phase.end == Failed(false)
                    || exists d: nat :: step.now + d > c.maxInstant
                                        && Delay(c.policy, phase.end,
                                                 Min(TrailingUnproductive(ss[k].ended), U32_MAX), c.endpoint) == Some(d)))
  {
    if steps[k].Scan? && ss[k].sh.phase.Ended? {
      Retried(c, ss, steps, k);
      DelayExact(c.policy, ss[k].sh.phase.end, Min(TrailingUnproductive(ss[k].ended), U32_MAX), c.endpoint);
    }
    hide Delay, Validated, Schedule, TrailingUnproductive;
  }

  /** While the reports live, they are parked exactly when their waker is held. */
  lemma {:induction false} ParkedIsRegistered(c: Config, ss: seq<State>, steps: seq<Step>, k: nat)
    requires Validated(c.policy) && IsRun(c, ss, steps) && k < |ss| && ss[k].reader.live
    ensures ss[k].reader.parked <==> ss[k].sh.waker
  {
    if k > 0 {
      Always(c, ss, steps, k - 1);
      StepOfRun(c, ss, steps, k - 1);
      hide Apply, Enabled, Inv, OneAttempt, OneStream, NoLostWakeup, Validated;
      if ss[k - 1].reader.live {
        ParkedIsRegistered(c, ss, steps, k - 1);
      }
      InvParts(c, ss[k - 1]);
      ParkedStays(c, ss[k - 1], steps[k - 1]);
    }
  }

  lemma ParkedStays(c: Config, s: State, step: Step)
    requires Enabled(s, step) && OneStream(s) && NoLostWakeup(s) && (s.reader.live ==> (s.reader.parked <==> s.sh.waker))
    ensures var s' := Apply(c, s, step);
            s'.reader.live ==> s.reader.live && (s'.reader.parked <==> s'.sh.waker)
  {
  }

  /** The history of ends has each instance that ended while the stream ran. */
  lemma EndsAreKept(c: Config, ss: seq<State>, steps: seq<Step>, k: nat)
    requires IsRun(c, ss, steps) && k < |steps|
    ensures ss[k + 1].ended
            == ss[k].ended + if ss[k].sh.phase.Stopped? || EndAt(ss[k], steps[k]).None? then []
                             else [steps[k].Yield? && ss[k].reader.productive]
  {
    assert forall s: seq<bool> :: s + [] == s;
  }

  // --- Nothing is stuck ---

  /** Steps that can be taken one after another from one state to another. */
  ghost predicate Leads(c: Config, s: State, steps: seq<Step>, s': State)
    decreases |steps|
  {
    if steps == [] then s == s' else Enabled(s, steps[0]) && Leads(c, Apply(c, s, steps[0]), steps[1..], s')
  }

  lemma Prepended(c: Config, s: State, step: Step, steps: seq<Step>, s': State)
    requires Enabled(s, step) && Leads(c, Apply(c, s, step), steps, s')
    ensures Leads(c, s, [step] + steps, s')
  {
    assert ([step] + steps)[1..] == steps;
  }

  /** Time passes, a performing attempt comes to any outcome, a read stream yields
      anything, either side is dropped at any time, and what a dropped leaf left
      unfinished is discarded. */
  lemma AnythingMayCome(s: State, now: nat, id: nat, o: Outcome, item: Item)
    ensures s.leaf.alive && (s.leaf.lastNow == None || s.leaf.lastNow.value <= now) ==> Enabled(s, Scan(now))
    ensures id < |s.attempts| && s.attempts[id] == Performing(false) ==> Enabled(s, Perform(id, o))
    ensures s.reader.live && s.reader.current != None ==> Enabled(s, Yield(item))
    ensures s.leaf.alive ==> Enabled(s, DropLeaf)
    ensures s.reader.live ==> Enabled(s, DropReports)
    ensures !s.leaf.alive && id < |s.attempts| && s.attempts[id] != Finished ==> Enabled(s, Discard(id))
  {
  }

  /** From every reachable state in which an attempt is or will be due, one scan, no
      sooner than it is due, and one attempt can bring a stream to the reader. */
  lemma CanConnect(c: Config, s: State) returns (steps: seq<Step>, s': State)
    requires Inv(c, s) && s.leaf.alive && s.reader.live && s.sh.phase.Due?
    ensures Leads(c, s, steps, s') && s'.reader.current == Some(|s.attempts|) && s'.sh.phase == Streaming
    ensures |s'.taken| == |s.taken| + 1
    ensures s.sh.phase.at.Some? ==> s'.taken[|s.taken|] >= s.sh.phase.at.value
  {
    var at := if s.sh.phase.at.Some? then s.sh.phase.at.value else 0;
    var now := if s.leaf.lastNow.Some? && s.leaf.lastNow.value > at then s.leaf.lastNow.value else at;
    var s1 := Apply(c, s, Scan(now));
    var s2 := Dispatched(c, s, now);
    var s3 := Begun(c, s2, |s.attempts|);
    var tail;
    s', tail := Opens(c, s3, |s.attempts|);
    hide Apply, Enabled, Inv;
    var begin := Begin(|s.attempts|);
    Prepended(c, s2, begin, tail, s');
    Prepended(c, s1, Take, [begin] + tail, s');
    Prepended(c, s, Scan(now), [Take] + ([begin] + tail), s');
    return [Scan(now)] + ([Take] + ([begin] + tail)), s';
  }

  lemma Dispatched(c: Config, s: State, now: nat) returns (s': State)
    requires Inv(c, s) && s.leaf.alive && s.reader.live && IsDue(s.sh.phase, now)
    requires s.leaf.lastNow.Some? ==> s.leaf.lastNow.value <= now
    ensures Enabled(s, Scan(now)) && Enabled(Apply(c, s, Scan(now)), Take)
    ensures s' == Apply(c, Apply(c, s, Scan(now)), Take)
    ensures s'.sh.phase == Connecting && s'.attempts == s.attempts + [Created] && s'.taken == s.taken + [now]
    ensures s'.reader.live && s'.reader.current == None
  {
    InvParts(c, s);
    hide Inv;
    s' := Apply(c, Apply(c, s, Scan(now)), Take);
  }

  lemma Begun(c: Config, s: State, id: nat) returns (s': State)
    requires s.sh.phase == Connecting && id < |s.attempts| && s.attempts[id] == Created
    ensures Enabled(s, Begin(id)) && s' == Apply(c, s, Begin(id))
    ensures s'.attempts == s.attempts[id := Performing(false)] && s'.sh.phase == Connecting
    ensures s'.taken == s.taken && s'.reader.live == s.reader.live && s'.reader.current == s.reader.current
  {
    s' := Apply(c, s, Begin(id));
  }

  lemma Opens(c: Config, s: State, id: nat) returns (s': State, steps: seq<Step>)
    requires s.reader.live && s.sh.phase == Connecting && s.reader.current == None
    requires id < |s.attempts| && s.attempts[id] == Performing(false)
    ensures Leads(c, s, steps, s') && s'.reader.current == Some(id) && s'.sh.phase == Streaming && s'.taken == s.taken
  {
    var s1 := Apply(c, s, Perform(id, Opened));
    assert s1 == s.(attempts := s.attempts[id := Performed(Opened)]);
    var s2 := Apply(c, s1, Clear(id));
    assert s2.attempts == s.attempts[id := Cleared(Opened)] && s2.sh.phase == Connecting;
    var s3 := Apply(c, s2, Finish(id));
    assert s3.sh.waiting == Some(id) && s3.sh.phase == Streaming;
    s' := Apply(c, s3, Poll);
    hide Apply, Enabled;
    assert Leads(c, s', [], s');
    Prepended(c, s3, Poll, [], s');
    Prepended(c, s2, Finish(id), [Poll], s');
    Prepended(c, s1, Clear(id), [Finish(id)] + [Poll], s');
    Prepended(c, s, Perform(id, Opened), [Clear(id)] + ([Finish(id)] + [Poll]), s');
    steps := [Perform(id, Opened)] + ([Clear(id)] + ([Finish(id)] + [Poll]));
  }

  /** Successive attempts, however far apart in the run, are at least the first
      retry apart for each attempt between them. */
  lemma {:induction false} AttemptsSpaced(c: Config, ss: seq<State>, steps: seq<Step>, k: nat, i: nat, j: nat)
    requires Validated(c.policy) && IsRun(c, ss, steps) && k < |ss| && i <= j < |ss[k].taken|
    ensures ss[k].taken[i] + (j - i) * c.policy.first <= ss[k].taken[j]
    decreases j
  {
    if i < j {
      AttemptsSpaced(c, ss, steps, k, i, j - 1);
      Always(c, ss, steps, k);
      assert (j - i) * c.policy.first == (j - 1 - i) * c.policy.first + c.policy.first;
    }
  }

  /** After the reports are dropped and the drop has run to its end, every attempt
      still performing is aborted and none that has not begun makes a request. */
  lemma DroppedReportsCancel(c: Config, ss: seq<State>, steps: seq<Step>, k: nat)
    requires Validated(c.policy) && IsRun(c, ss, steps) && k < |steps| && !ss[k].reader.live
    ensures ss[k].sh.waiting.None? && ss[k + 1].sh.waiting.None? && ss[k + 1].reader.current.None?
    ensures ss[k].reader.aborting.None? ==>
              forall i | 0 <= i < |ss[k].attempts| && ss[k].attempts[i].Performing? :: ss[k].attempts[i].aborted
    ensures steps[k].Begin? ==> ss[k + 1].attempts[steps[k].id].Finished?
  {
    Always(c, ss, steps, k);
    Always(c, ss, steps, k + 1);
    DroppedStays(c, ss[k], steps[k]);
    hide Validated, OneAttempt, OneStream, HandleHeld, NoLostWakeup, CountedOnce, Spaced, Apply;
  }

  lemma DroppedStays(c: Config, s: State, step: Step)
    requires Enabled(s, step) && !s.reader.live && s.sh.phase.Stopped?
    ensures !Apply(c, s, step).reader.live
    ensures step.Begin? ==> step.id < |Apply(c, s, step).attempts| && Apply(c, s, step).attempts[step.id].Finished?
  {
  }

  /** A reader parked on the shared state has neither a stream nor an end waiting
      for it: whatever made one available has already woken it. */
  lemma ParkedHasNothing(c: Config, ss: seq<State>, steps: seq<Step>, k: nat)
    requires Validated(c.policy) && IsRun(c, ss, steps) && k < |ss| && ss[k].reader.parked
    ensures PollSection(ss[k].sh).1 == Parked
  {
    Always(c, ss, steps, k);
  }
}

/** The same lock sections on the objects that share the state: the leaf and the
    reports hold one cell, and each method is one section of the protocol. */
module StreamObjects {
  import opened Bytes
  import opened Reconnect
  import opened StreamProtocol

  class Cell {
    var phase: Phase
    var connecting: Option<nat>
    var waiting: Option<nat>
    var waker: bool

    function View(): Shared
      reads this
    {
      Shared(phase, connecting, waiting, waker)
    }

    constructor ()
      ensures View() == InitShared()
    {
      phase, connecting, waiting, waker := Due(None), None, None, false;
    }

    method WakeReports()
      modifies this
      ensures View() == old(View()).WakeReports()
    {
      if waker {
        waker := false;
      }
    }

    /** The attempt's locks: begin, clear, finish. */
    method Begin(id: nat) returns (go: bool)
      modifies this
      ensures (View(), go) == BeginSection(old(View()), id)
    {
      if phase == Stopped {
        return false;
      }
      connecting := Some(id);
      return true;
    }

    method Clear()
      modifies this
      ensures View() == old(View()).(connecting := None)
    {
      connecting := None;
    }

    method Finish(id: nat, o: Outcome)
      modifies this
      ensures View() == FinishSection(old(View()), id, o)
    {
      if phase != Stopped {
        match o {
          case Opened =>
            phase := Streaming;
            waiting := Some(id);
            WakeReports();
          case Refused(retryable) => phase := Ended(NotConnected(retryable), false);
        }
      }
    }
  }

  class StreamLeaf {
    const shared: Cell
    const config: Config
    var lastNow: Option<nat>
    var unproductive: nat

    constructor (shared: Cell, config: Config)
      ensures this.shared == shared && this.config == config && lastNow == None && unproductive == 0
    {
      this.shared, this.config, lastNow, unproductive := shared, config, None, 0;
    }

    /** The readiness scan: due now, or when; an ended instance is scheduled. */
    method UpdateReady(now: nat) returns (ready: bool, at: Option<nat>)
      modifies this, shared
      ensures lastNow == Some(now)
      ensures old(shared.phase).Ended? ==>
                (shared.View(), unproductive) == Schedule(config, old(shared.View()), old(unproductive), now)
      ensures !old(shared.phase).Ended? ==> shared.View() == old(shared.View()) && unproductive == old(unproductive)
      ensures !old(shared.phase).Ended? ==> (ready <==> IsDue(shared.phase, now))
      ensures old(shared.phase).Ended? ==> !ready
      ensures at == if shared.phase.Due? && !ready then shared.phase.at else None
    {
      lastNow := Some(now);
      match shared.phase {
        case Due(None) => return true, None;
        case Due(Some(instant)) => if now >= instant { return true, None; } else { return false, Some(instant); }
        case Ended(end, productive) =>
          unproductive := if productive then 0 else Min(unproductive + 1, U32_MAX);
          var delay := Delay(config.policy, end, unproductive, config.endpoint);
          if delay.Some? && now + delay.value <= config.maxInstant {
            shared.phase := Due(Some(now + delay.value));
            return false, Some(now + delay.value);
          }
          shared.phase := Stopped;
          shared.WakeReports();
          return false, None;
        case _ => return false, None;
      }
    }

    method TakeNext() returns (taken: bool)
      modifies shared
      ensures lastNow.None? ==> !taken && shared.View() == old(shared.View())
      ensures lastNow.Some? ==> (shared.View(), taken) == TakeSection(old(shared.View()), lastNow.value)
    {
      if lastNow.None? || !IsDue(shared.phase, lastNow.value) {
        return false;
      }
      shared.phase := Connecting;
      return true;
    }

    method Drop()
      modifies shared
      ensures shared.View() == DropLeafSection(old(shared.View()))
    {
      shared.phase := Stopped;
      shared.WakeReports();
    }
  }

  class StreamReports {
    const shared: Cell
    var current: Option<nat>
    var productive: bool

    constructor (shared: Cell)
      ensures this.shared == shared && current == None && !productive
    {
      this.shared, current, productive := shared, None, false;
    }

    method EndedWith(end: StreamEnd)
      modifies this, shared
      ensures current == None && productive == old(productive)
      ensures shared.View() == EndedSection(old(shared.View()), end, productive)
    {
      current := None;
      if shared.phase != Stopped {
        shared.phase := Ended(end, productive);
      }
    }

    /** One yield of the current stream. */
    method Yielded(item: Item)
      requires current.Some?
      modifies this, shared
      ensures item.Data? ==> productive && current == old(current) && shared.View() == old(shared.View())
      ensures !item.Data? ==> current == None && productive == old(productive)
      ensures !item.Data? ==> shared.View() == EndedSection(old(shared.View()),
                                if item.Terminal? then Failed(item.retryable) else Closed, productive)
    {
      match item {
        case Data => productive := true;
        case Terminal(retryable) => EndedWith(Failed(retryable));
        case Exhausted => EndedWith(Closed);
      }
    }

    /** The shared half of a poll: take a stream, or end, or park. */
    method PollShared() returns (p: Polled)
      requires current.None?
      modifies this, shared
      ensures (shared.View(), p) == PollSection(old(shared.View()))
      ensures p.Took? ==> current == Some(p.stream) && !productive
      ensures !p.Took? ==> current == old(current) && productive == old(productive)
    {
      if shared.waiting.Some? {
        current := shared.waiting;
        shared.waiting := None;
        productive := false;
        return Took(current.value);
      }
      if shared.phase == Stopped {
        return Over;
      }
      shared.waker := true;
      return Parked;
    }

    method Drop() returns (aborting: Option<nat>)
      modifies this, shared
      ensures (shared.View(), aborting) == DropReportsSection(old(shared.View()))
      ensures current == None && productive == old(productive)
    {
      shared.phase := Stopped;
      aborting := shared.connecting;
      shared.connecting, shared.waiting := None, None;
      current := None;
    }
  }

  /** The objects together with what runs on them: the attempts in flight, the
      reader's parking, and the history the protocol speaks of. */
  class System {
    const config: Config
    const cell: Cell
    const leaf: StreamLeaf
    const reports: StreamReports
    var alive: bool
    var live: bool
    var parked: bool
    var aborting: Option<nat>
    var attempts: seq<Attempt>
    var taken: seq<nat>
    var ended: seq<bool>
    var counted: seq<bool>

    ghost predicate Valid() {
      leaf.shared == cell && reports.shared == cell && leaf.config == config
    }

    function View(): State
      reads this, cell, leaf, reports
    {
      State(cell.View(), Leaf(leaf.lastNow, leaf.unproductive, alive),
            Reader(reports.current, reports.productive, live, parked, aborting),
            attempts, taken, ended, counted)
    }

    constructor (config: Config)
      ensures Valid() && View() == Init() && this.config == config
      ensures fresh(cell) && fresh(leaf) && fresh(reports)
    {
      var shared := new Cell();
      this.config, cell := config, shared;
      leaf := new StreamLeaf(shared, config);
      reports := new StreamReports(shared);
      alive, live, parked, aborting := true, true, false, None;
      attempts, taken, ended, counted := [], [], [], [];
    }

    method Scan(now: nat)
      requires Valid() && Enabled(View(), Step.Scan(now))
      modifies this, cell, leaf
      ensures View() == Apply(config, old(View()), Step.Scan(now))
    {
      var phase := cell.phase;
      var ready, at := leaf.UpdateReady(now);
      if phase.Ended? {
        parked := parked && cell.waker;
        counted := counted + [phase.productive];
      }
    }

    method Take()
      requires Valid() && Enabled(View(), Step.Take)
      modifies this, cell
      ensures View() == Apply(config, old(View()), Step.Take)
    {
      var took := leaf.TakeNext();
      if took {
        parked := parked && cell.waker;
        attempts := attempts + [Created];
        taken := taken + [leaf.lastNow.value];
      }
    }

    method Begin(id: nat)
      requires Valid() && Enabled(View(), Step.Begin(id))
      modifies this, cell
      ensures View() == Apply(config, old(View()), Step.Begin(id))
    {
      var go := cell.Begin(id);
      parked := parked && cell.waker;
      attempts := attempts[id := if go then Performing(false) else Finished];
    }

    method Clear(id: nat)
      requires Valid() && Enabled(View(), Step.Clear(id))
      modifies this, cell
      ensures View() == Apply(config, old(View()), Step.Clear(id))
    {
      cell.Clear();
      parked := parked && cell.waker;
      attempts := attempts[id := Cleared(attempts[id].o)];
    }

    method Finish(id: nat)
      requires Valid() && Enabled(View(), Step.Finish(id))
      modifies this, cell
      ensures View() == Apply(config, old(View()), Step.Finish(id))
    {
      var o, stopped := attempts[id].o, cell.phase.Stopped?;
      cell.Finish(id, o);
      parked := parked && cell.waker;
      attempts := attempts[id := Finished];
      if o.Refused? && !stopped {
        ended := ended + [false];
      }
    }

    method Yield(item: Item)
      requires Valid() && Enabled(View(), Step.Yield(item))
      modifies this, cell, reports
      ensures View() == Apply(config, old(View()), Step.Yield(item))
    {
      var stopped := cell.phase.Stopped?;
      reports.Yielded(item);
      parked := false;
      if !item.Data? && !stopped {
        ended := ended + [reports.productive];
      }
    }

    method Poll()
      requires Valid() && Enabled(View(), Step.Poll)
      modifies this, cell, reports
      ensures View() == Apply(config, old(View()), Step.Poll)
    {
      var polled := reports.PollShared();
      parked := polled.Parked?;
    }

    method DropLeaf()
      requires Valid() && Enabled(View(), Step.DropLeaf)
      modifies this, cell
      ensures View() == Apply(config, old(View()), Step.DropLeaf)
    {
      leaf.Drop();
      parked := parked && cell.waker;
      alive := false;
    }

    method DropReports()
      requires Valid() && Enabled(View(), Step.DropReports)
      modifies this, cell, reports
      ensures View() == Apply(config, old(View()), Step.DropReports)
    {
      aborting := reports.Drop();
      live, parked := false, false;
    }

    method Abort()
      requires Valid() && Enabled(View(), Step.Abort)
      modifies this
      ensures View() == Apply(config, old(View()), Step.Abort)
    {
      var id := aborting.value;
      aborting := None;
      if id < |attempts| && attempts[id].Performing? {
        attempts := attempts[id := Performing(true)];
      }
    }

    /** One step of the protocol on the objects. */
    method Advance(step: Step)
      requires Valid() && Enabled(View(), step)
      modifies this, cell, leaf, reports
      ensures View() == Apply(config, old(View()), step)
    {
      match step {
        case Scan(now) => Scan(now);
        case Take => Take();
        case Begin(id) => Begin(id);
        case AbortSeen(id) => attempts := attempts[id := Finished];
        case Perform(id, o) => attempts := attempts[id := Performed(o)];
        case Clear(id) => Clear(id);
        case Finish(id) => Finish(id);
        case Yield(item) => Yield(item);
        case Poll => Poll();
        case DropLeaf => DropLeaf();
        case Discard(id) => attempts := attempts[id := Finished];
        case DropReports => DropReports();
        case Abort => Abort();
      }
    }

    /** Whatever calls arrive, in whatever order, those that are due make a run of
        the protocol, so everything proved of runs holds of the objects. */
    method Execute(calls: seq<Step>) returns (ghost ss: seq<State>, ghost steps: seq<Step>)
      requires Valid() && View() == Init()
      modifies this, cell, leaf, reports
      ensures IsRun(config, ss, steps) && ss[|ss| - 1] == View()
    {
      hide Apply, Enabled, Init;
      ss, steps := [View()], [];
      for i := 0 to |calls|
        invariant IsRun(config, ss, steps) && ss[|ss| - 1] == View()
      {
        if Enabled(View(), calls[i]) {
          Advance(calls[i]);
          ss, steps := ss + [View()], steps + [calls[i]];
        }
      }
    }
  }
}
