/** What a compiled field mapping means (`codegen/src/projection/emit.rs`:
    `leaf_match`, `absent_tokens`, `field_evaluation`). The emitted Rust is a small
    expression language with an evaluator; the manifest's meaning is a direct walk
    of the document. */
module ReadChains {
  import opened Bytes

  // --- Documents ---

  /** The `Option` nesting generation gives a field. */
  datatype Shape = Bare | Optional | RequiredNullable | Nullable

  datatype Step = Step(property: string, shape: Shape)

  datatype Presence = Missing | Null | Present(doc: Doc)

  datatype Doc = Scalar(n: int) | Object(members: map<string, Presence>)

  function Lookup(d: Doc, property: string): Presence {
    if d.Object? && property in d.members then d.members[property] else Missing
  }

  /** What a decoded field of this shape can hold. */
  predicate Admits(shape: Shape, p: Presence) {
    match shape
    case Bare => p.Present?
    case Optional => !p.Null?
    case RequiredNullable => !p.Missing?
    case Nullable => true
  }

  /** The document decodes as the schema says along this path. */
  predicate Conforms(d: Doc, steps: seq<Step>) {
    steps == [] ||
    (var p := Lookup(d, steps[0].property);
     Admits(steps[0].shape, p) && (p.Present? ==> Conforms(p.doc, steps[1..])))
  }

  /** The path read directly. */
  datatype Reading = Absent | ExplicitNull | Found(doc: Doc)

  function Walk(d: Doc, steps: seq<Step>): Reading {
    if steps == [] then Found(d)
    else match Lookup(d, steps[0].property)
      case Missing => Absent
      case Null => ExplicitNull
      case Present(next) => Walk(next, steps[1..])
  }

  // --- The mapping's meaning ---

  datatype Issue = MissingIssue(path: string) | NullIssue(path: string) | Unusable(path: string)

  /** A converted value with the issues pushed on the way, or a refusal that
      propagates out of the projection. */
  datatype Answer = Answer(value: Option<nat>, issues: seq<Issue>) | Refused

  /** The selected conversion of a present leaf, and the Rust type it yields. */
  datatype Conversion = Conversion(local: nat, run: Doc -> Answer)

  datatype Member = Member(steps: seq<Step>, path: string, nullInvalid: bool, required: bool, conversion: Conversion)

  /** What one mapping answers, or nothing when the document leaves it absent. */
  function MemberAnswer(d: Doc, m: Member): Option<Answer> {
    match Walk(d, m.steps)
    case Absent => None
    case ExplicitNull => if m.nullInvalid then Some(Answer(None, [NullIssue(m.path)])) else None
    case Found(leaf) => Some(m.conversion.run(leaf))
  }

  function NoAnswer(primary: Member): Answer {
    Answer(None, if primary.required then [MissingIssue(primary.path)] else [])
  }

  /** The first mapping that answers; absence is the chain's, reported once if the
      primary is required. */
  function ChainAnswer(d: Doc, chain: seq<Member>, primary: Member): Answer {
    if chain == [] then NoAnswer(primary)
    else match MemberAnswer(d, chain[0])
      case Some(a) => a
      case None => ChainAnswer(d, chain[1..], primary)
  }

  // --- The emitted language ---

  datatype Expr =
    | Source
    | Field(of: Expr, step: Step)
    | AsRef(of: Expr)
    | Map(of: Expr, step: Step)
    | AndThen(of: Expr, step: Step)

  /** A Rust value: a struct or scalar in place, `None`, or `Some`. */
  datatype Held = Plain(doc: Doc) | Nothing | Just(inner: Held)

  /** The field as generation declares it. */
  function Get(d: Doc, step: Step): Held {
    match (step.shape, Lookup(d, step.property))
    case (Bare, Present(x)) => Plain(x)
    case (Nullable, Present(x)) => Just(Just(Plain(x)))
    case (Nullable, Null) => Just(Nothing)
    case (_, Present(x)) => Just(Plain(x))
    case _ => Nothing
  }

  /** Evaluation; `None` is a term the Rust compiler would refuse. */
  function Eval(e: Expr, d: Doc): Option<Held> {
    match e
    case Source => Some(Plain(d))
    case Field(of, step) =>
      (match Eval(of, d)
       case Some(Plain(x)) => Some(Get(x, step))
       case _ => None)
    case AsRef(of) =>
      (match Eval(of, d)
       case Some(Plain(_)) => None
       case other => other)
    case Map(of, step) =>
      (match Eval(of, d)
       case Some(Nothing) => Some(Nothing)
       case Some(Just(Plain(x))) => Some(Just(Get(x, step)))
       case _ => None)
    case AndThen(of, step) =>
      (match Eval(of, d)
       case Some(Nothing) => Some(Nothing)
       case Some(Just(Plain(x))) => if Get(x, step).Plain? then None else Some(Get(x, step))
       case _ => None)
  }

  datatype Code =
    | Silent
    | ReportMissing(path: string)
    | ReportNull(path: string)
    | Convert(conversion: Conversion)
    | Let(e: Expr, body: Code)
    | MatchOption(e: Expr, some: Code, none: Code)
    | MatchNested(e: Expr, some: Code, nil: Code, none: Code)
    | MatchPresent(e: Expr, some: Code, other: Code)

  /** Running emitted code under the `value` in scope, if one is. */
  function Run(c: Code, d: Doc, value: Option<Doc>): Option<Answer> {
    match c
    case Silent => Some(Answer(None, []))
    case ReportMissing(path) => Some(Answer(None, [MissingIssue(path)]))
    case ReportNull(path) => Some(Answer(None, [NullIssue(path)]))
    case Convert(conversion) => if value.Some? then Some(conversion.run(value.value)) else None
    case Let(e, body) =>
      (match Eval(e, d)
       case Some(Plain(x)) => Run(body, d, Some(x))
       case _ => None)
    case MatchOption(e, some, none) =>
      (match Eval(e, d)
       case Some(Just(Plain(x))) => Run(some, d, Some(x))
       case Some(Nothing) => Run(none, d, value)
       case _ => None)
    case MatchNested(e, some, nil, none) =>
      (match Eval(e, d)
       case Some(Just(Just(Plain(x)))) => Run(some, d, Some(x))
       case Some(Just(Nothing)) => Run(nil, d, value)
       case Some(Nothing) => Run(none, d, value)
       case _ => None)
    case MatchPresent(e, some, other) =>
      (match Eval(e, d)
       case Some(Just(Just(Plain(x)))) => Run(some, d, Some(x))
       case Some(Just(Nothing)) => Run(other, d, value)
       case Some(Nothing) => Run(other, d, value)
       case _ => None)
  }

  // --- The compiler ---

  datatype Refusal = NullablePrefix(property: string) | ConflatedLeaf(path: string) | MixedChain(path: string)

  datatype Compiled<T> = Ok(value: T) | Err(refusal: Refusal)

  datatype Access = Access(e: Expr, optional: bool)

  function Through(a: Access, step: Step): Compiled<Access> {
    match step.shape
    case Nullable => Err(NullablePrefix(step.property))
    case RequiredNullable => Err(NullablePrefix(step.property))
    case Bare => Ok(Access(if a.optional then Map(a.e, step) else Field(a.e, step), a.optional))
    case Optional => Ok(Access(if a.optional then AndThen(a.e, step) else AsRef(Field(a.e, step)), true))
  }

  function PrefixAccess(prefix: seq<Step>): Compiled<Access> {
    if prefix == [] then Ok(Access(Source, false))
    else match PrefixAccess(prefix[..|prefix| - 1])
      case Err(r) => Err(r)
      case Ok(a) => Through(a, prefix[|prefix| - 1])
  }

  /** The leaf read over its prefix, and the shape the match sees. */
  function LeafAccess(a: Access, leaf: Step, path: string): Compiled<(Expr, Shape)> {
    if !a.optional then Ok((Field(a.e, leaf), leaf.shape))
    else match leaf.shape
      case Bare => Ok((Map(a.e, leaf), Optional))
      case RequiredNullable => Err(ConflatedLeaf(path))
      case shape => Ok((AndThen(a.e, leaf), shape))
  }

  function MatchCode(e: Expr, shape: Shape, m: Member, absent: Code): Code {
    var convert := Convert(m.conversion);
    match shape
    case Bare => Let(e, convert)
    case RequiredNullable => MatchOption(e, convert, if m.nullInvalid then ReportNull(m.path) else absent)
    case Optional => MatchOption(e, convert, absent)
    case Nullable =>
      if m.nullInvalid then MatchNested(e, convert, ReportNull(m.path), absent) else MatchPresent(e, convert, absent)
  }

  function LeafCode(m: Member, absent: Code): Compiled<Code>
    requires m.steps != []
  {
    var last := |m.steps| - 1;
    match PrefixAccess(m.steps[..last])
    case Err(r) => Err(r)
    case Ok(a) =>
      match LeafAccess(a, m.steps[last], m.path)
      case Err(r) => Err(r)
      case Ok((e, shape)) => Ok(MatchCode(e, shape, m, absent))
  }

  lemma LeafUnfold(m: Member, absent: Code)
    requires m.steps != []
    ensures var (a, leaf) := (PrefixAccess(m.steps[..|m.steps| - 1]), m.steps[|m.steps| - 1]);
            && (a.Err? ==> LeafCode(m, absent) == Err(a.refusal))
            && (a.Ok? && LeafAccess(a.value, leaf, m.path).Err? ==>
                  LeafCode(m, absent) == Err(LeafAccess(a.value, leaf, m.path).refusal))
            && (a.Ok? && LeafAccess(a.value, leaf, m.path).Ok? ==>
                  var (e, shape) := LeafAccess(a.value, leaf, m.path).value;
                  LeafCode(m, absent) == Ok(MatchCode(e, shape, m, absent)))
  {
    hide PrefixAccess, LeafAccess, MatchCode;
  }

  lemma PrefixStep(prefix: seq<Step>, i: nat)
    requires i < |prefix| && PrefixAccess(prefix[..i]).Ok?
    ensures PrefixAccess(prefix[..i + 1]) == Through(PrefixAccess(prefix[..i]).value, prefix[i])
  {
    assert prefix[..i + 1][..i] == prefix[..i];
  }

  method LeafMatch(m: Member, absent: Code) returns (r: Compiled<Code>)
    requires m.steps != []
    ensures r == LeafCode(m, absent)
  {
    var last := |m.steps| - 1;
    var prefix := m.steps[..last];
    var expression, optional := Source, false;
    assert PrefixAccess(prefix[..0]) == Ok(Access(Source, false));
    LeafUnfold(m, absent);
    hide PrefixAccess, MatchCode, LeafCode;
    for i := 0 to |prefix|
      invariant PrefixAccess(prefix[..i]) == Ok(Access(expression, optional))
    {
      var step := prefix[i];
      PrefixStep(prefix, i);
      match step.shape {
        case Nullable =>
          PrefixRefused(prefix, i + 1);
          return Err(NullablePrefix(step.property));
        case RequiredNullable =>
          PrefixRefused(prefix, i + 1);
          return Err(NullablePrefix(step.property));
        case Bare =>
          expression := if optional then Map(expression, step) else Field(expression, step);
        case Optional =>
          expression := if optional then AndThen(expression, step) else AsRef(Field(expression, step));
          optional := true;
      }
    }
    assert prefix[..|prefix|] == prefix;
    var leaf := m.steps[last];
    var effective := leaf.shape;
    if !optional {
      expression := Field(expression, leaf);
    } else if leaf.shape == Bare {
      expression, effective := Map(expression, leaf), Optional;
    } else if leaf.shape == RequiredNullable {
      return Err(ConflatedLeaf(m.path));
    } else {
      expression := AndThen(expression, leaf);
    }
    return Ok(MatchCode(expression, effective, m, absent));
  }

  lemma {:induction false} PrefixRefused(prefix: seq<Step>, i: nat)
    requires i <= |prefix| && PrefixAccess(prefix[..i]).Err?
    ensures PrefixAccess(prefix) == PrefixAccess(prefix[..i])
    decreases |prefix| - i
  {
    if i < |prefix| {
      assert prefix[..i + 1][..i] == prefix[..i];
      PrefixRefused(prefix, i + 1);
    } else {
      assert prefix[..i] == prefix;
    }
  }

  function AbsentCode(primary: Member): Code {
    if primary.required then ReportMissing(primary.path) else Silent
  }

  /** The chain from here on, with the local type its members agree on. */
  function ChainCode(chain: seq<Member>, primary: Member): Compiled<(Code, Option<nat>)>
    requires forall m | m in chain :: m.steps != []
  {
    if chain == [] then Ok((AbsentCode(primary), None))
    else match ChainCode(chain[1..], primary)
      case Err(r) => Err(r)
      case Ok((rest, local)) =>
        if local.Some? && local.value != chain[0].conversion.local then Err(MixedChain(chain[0].path))
        else match LeafCode(chain[0], rest)
          case Err(r) => Err(r)
          case Ok(code) => Ok((code, Some(chain[0].conversion.local)))
  }

  /** Innermost first: each member's absence arm is the next member's read. */
  method FieldEvaluation(chain: seq<Member>) returns (r: Compiled<Code>)
    requires chain != [] && forall m | m in chain :: m.steps != []
    ensures match ChainCode(chain, chain[0]) case Ok((code, _)) => r == Ok(code) case Err(why) => r == Err(why)
  {
    var primary := chain[0];
    var evaluation, local := AbsentCode(primary), None;
    var position := |chain|;
    hide LeafCode, AbsentCode;
    while position > 0
      invariant 0 <= position <= |chain|
      invariant forall m | m in chain[position..] :: m.steps != []
      invariant ChainCode(chain[position..], primary) == Ok((evaluation, local))
    {
      position := position - 1;
      var member := chain[position];
      assert member in chain;
      assert chain[position..] == [member] + chain[position + 1..];
      assert chain[position..][1..] == chain[position + 1..];
      if local.Some? && local.value != member.conversion.local {
        ChainRefused(chain, primary, position);
        return Err(MixedChain(member.path));
      }
      local := Some(member.conversion.local);
      var code := LeafMatch(member, evaluation);
      match code {
        case Err(why) =>
          ChainRefused(chain, primary, position);
          return Err(why);
        case Ok(value) => evaluation := value;
      }
    }
    assert chain[0..] == chain;
    return Ok(evaluation);
  }

  lemma {:induction false} ChainRefused(chain: seq<Member>, primary: Member, i: nat)
    requires i <= |chain| && (forall m | m in chain :: m.steps != []) && (forall m | m in chain[i..] :: m.steps != [])
    requires ChainCode(chain[i..], primary).Err?
    ensures ChainCode(chain, primary) == ChainCode(chain[i..], primary)
    decreases i
  {
    if i == 0 {
      assert chain[0..] == chain;
    } else {
      assert chain[i - 1..][1..] == chain[i..];
      ChainRefused(chain, primary, i - 1);
    }
  }

  // --- Compiled reads mean what the walk means ---

  /** Where a prefix leads, followed from its end. */
  function Reach(d: Doc, prefix: seq<Step>): Option<Doc> {
    if prefix == [] then Some(d)
    else match Reach(d, prefix[..|prefix| - 1])
      case None => None
      case Some(x) =>
        match Lookup(x, prefix[|prefix| - 1].property)
        case Present(y) => Some(y)
        case _ => None
  }

  lemma {:induction false} ReachFront(d: Doc, prefix: seq<Step>)
    requires prefix != []
    ensures Reach(d, prefix)
            == match Lookup(d, prefix[0].property) case Present(x) => Reach(x, prefix[1..]) case _ => None
  {
    var init := prefix[..|prefix| - 1];
    if init != [] {
      ReachFront(d, init);
      assert init[1..] == prefix[1..][..|prefix[1..]| - 1];
    }
  }

  predicate Plainly(prefix: seq<Step>) {
    forall i | 0 <= i < |prefix| :: prefix[i].shape.Bare? || prefix[i].shape.Optional?
  }

  predicate SomeOptional(prefix: seq<Step>) {
    exists i :: 0 <= i < |prefix| && prefix[i].shape.Optional?
  }

  /** The walk is the prefix followed, then the leaf looked up. */
  lemma {:induction false} WalkReach(d: Doc, steps: seq<Step>)
    requires steps != [] && Conforms(d, steps) && Plainly(steps[..|steps| - 1])
    ensures var (prefix, leaf) := (steps[..|steps| - 1], steps[|steps| - 1]);
            match Reach(d, prefix)
            case None => Walk(d, steps) == Absent && SomeOptional(prefix)
            case Some(x) =>
              && Admits(leaf.shape, Lookup(x, leaf.property))
              && Walk(d, steps) == match Lookup(x, leaf.property)
                                   case Missing => Absent case Null => ExplicitNull case Present(y) => Found(y)
  {
    var prefix := steps[..|steps| - 1];
    if prefix != [] {
      var p := Lookup(d, steps[0].property);
      assert prefix[0] == steps[0];
      ReachFront(d, prefix);
      if p.Present? {
        var rest := steps[1..];
        assert prefix[1..] == rest[..|rest| - 1];
        assert forall i | 0 <= i < |prefix| - 1 :: prefix[1..][i] == prefix[i + 1];
        WalkReach(p.doc, rest);
      }
    }
  }

  function Onward(reached: Option<Doc>, last: Step): Option<Doc> {
    if reached.None? then None
    else match Lookup(reached.value, last.property) case Present(y) => Some(y) case _ => None
  }

  /** The access yields the document reached, or says that there is none. */
  predicate Yields(d: Doc, a: Access, reached: Option<Doc>) {
    match reached
    case Some(x) => Eval(a.e, d) == Some(if a.optional then Just(Plain(x)) else Plain(x))
    case None => a.optional && Eval(a.e, d) == Some(Nothing)
  }

  lemma ThroughYields(d: Doc, a: Access, last: Step, reached: Option<Doc>)
    requires Through(a, last).Ok? && Yields(d, a, reached)
    requires reached.Some? ==> Admits(last.shape, Lookup(reached.value, last.property))
    ensures Yields(d, Through(a, last).value, Onward(reached, last))
    ensures Through(a, last).value.optional <==> a.optional || last.shape.Optional?
  {
  }

  /** The prefix expression never gets stuck, and holds what the prefix reaches. */
  lemma {:induction false} AccessReaches(d: Doc, prefix: seq<Step>)
    requires PrefixAccess(prefix).Ok? && (forall k | 0 <= k <= |prefix| :: PrefixAdmits(d, prefix[..k]))
    ensures PrefixAccess(prefix).value.optional == SomeOptional(prefix)
    ensures Yields(d, PrefixAccess(prefix).value, Reach(d, prefix))
  {
    if prefix != [] {
      var init, last := prefix[..|prefix| - 1], prefix[|prefix| - 1];
      assert forall k | 0 <= k <= |init| :: init[..k] == prefix[..k];
      assert prefix[..|prefix|] == prefix;
      assert PrefixAdmits(d, prefix);
      AccessReaches(d, init);
      OptionalLast(prefix);
      ThroughYields(d, PrefixAccess(init).value, last, Reach(d, init));
      hide Yields, SomeOptional, Through;
    }
  }

  lemma OptionalLast(prefix: seq<Step>)
    requires prefix != []
    ensures SomeOptional(prefix) <==> SomeOptional(prefix[..|prefix| - 1]) || prefix[|prefix| - 1].shape.Optional?
  {
    var init := prefix[..|prefix| - 1];
    if SomeOptional(prefix) {
      var i :| 0 <= i < |prefix| && prefix[i].shape.Optional?;
      assert i < |init| ==> init[i].shape.Optional?;
    }
  }

  /** Where the prefix's last step is reached, its field is as declared. */
  predicate PrefixAdmits(d: Doc, prefix: seq<Step>) {
    prefix == [] ||
    (var last := prefix[|prefix| - 1];
     match Reach(d, prefix[..|prefix| - 1])
     case None => true
     case Some(x) => Admits(last.shape, Lookup(x, last.property)))
  }

  lemma MiddleSteps(steps: seq<Step>, k: nat)
    requires 1 < k <= |steps|
    ensures steps[1..][..k - 1][..k - 2] == steps[..k][..k - 1][1..]
    ensures steps[1..][..k - 1] != [] && steps[1..][..k - 1][k - 2] == steps[..k][k - 1]
  {
    var (a, b) := (steps[1..][..k - 1][..k - 2], steps[..k][..k - 1][1..]);
    assert |a| == |b| && forall i | 0 <= i < |a| :: a[i] == b[i];
  }

  lemma {:induction false} ConformsAdmits(d: Doc, steps: seq<Step>, k: nat)
    requires Conforms(d, steps) && k <= |steps|
    ensures PrefixAdmits(d, steps[..k])
  {
    if k > 0 {
      var prefix := steps[..k];
      var init := prefix[..k - 1];
      if k > 1 {
        ReachFront(d, init);
        var p := Lookup(d, steps[0].property);
        if p.Present? {
          ConformsAdmits(p.doc, steps[1..], k - 1);
          MiddleSteps(steps, k);
        }
      }
    }
  }

  lemma {:induction false} AccessCompiles(prefix: seq<Step>)
    ensures PrefixAccess(prefix).Ok? <==> Plainly(prefix)
    ensures PrefixAccess(prefix).Ok? ==> PrefixAccess(prefix).value.optional == SomeOptional(prefix)
  {
    if prefix != [] {
      var init, last := prefix[..|prefix| - 1], prefix[|prefix| - 1];
      AccessCompiles(init);
      OptionalLast(prefix);
      assert Plainly(prefix) <==> Plainly(init) && (last.shape.Bare? || last.shape.Optional?) by {
        assert prefix == init + [last];
      }
    }
  }

  /** A read compiles exactly when absence and explicit null stay apart: no
      nullable segment before the leaf, and no required-nullable leaf below an
      optional one. */
  predicate Readable(m: Member)
    requires m.steps != []
  {
    var (prefix, leaf) := (m.steps[..|m.steps| - 1], m.steps[|m.steps| - 1]);
    Plainly(prefix) && !(SomeOptional(prefix) && leaf.shape.RequiredNullable?)
  }

  lemma LeafCompiles(m: Member, absent: Code)
    requires m.steps != []
    ensures LeafCode(m, absent).Ok? <==> Readable(m)
  {
    AccessCompiles(m.steps[..|m.steps| - 1]);
  }

  /** What an expression matched under a shape holds of a leaf's presence. */
  predicate Holds(e: Expr, d: Doc, shape: Shape, p: Presence) {
    match p
    case Present(y) =>
      Eval(e, d) == Some(if shape.Bare? then Plain(y)
                         else if shape.Nullable? then Just(Just(Plain(y))) else Just(Plain(y)))
    case Null =>
      Eval(e, d) == Some(if shape.Nullable? then Just(Nothing) else Nothing)
      && (shape.Nullable? || shape.RequiredNullable?)
    case Missing => Eval(e, d) == Some(Nothing) && (shape.Nullable? || shape.Optional?)
  }

  lemma LeafHolds(d: Doc, a: Access, leaf: Step, reached: Option<Doc>, path: string)
    requires LeafAccess(a, leaf, path).Ok?
    requires match reached
             case Some(x) => Eval(a.e, d) == Some(if a.optional then Just(Plain(x)) else Plain(x))
                 && Admits(leaf.shape, Lookup(x, leaf.property))
             case None => a.optional && Eval(a.e, d) == Some(Nothing)
    ensures var (e, shape) := LeafAccess(a, leaf, path).value;
            Holds(e, d, shape, if reached.Some? then Lookup(reached.value, leaf.property) else Missing)
  {
  }

  lemma FlatMeans(d: Doc, e: Expr, shape: Shape, m: Member, absent: Code, p: Presence)
    requires Holds(e, d, shape, p) && !shape.Nullable?
    ensures Run(MatchCode(e, shape, m, absent), d, None) ==
            match p
            case Present(y) => Some(m.conversion.run(y))
            case Null => if m.nullInvalid then Some(Answer(None, [NullIssue(m.path)])) else Run(absent, d, None)
            case Missing => Run(absent, d, None)
  {
    hide Eval;
  }

  lemma RunConvert(conversion: Conversion, d: Doc, y: Doc)
    ensures Run(Convert(conversion), d, Some(y)) == Some(conversion.run(y))
  {
  }

  lemma RunNested(e: Expr, d: Doc, some: Code, nil: Code, none: Code, y: Doc)
    ensures Eval(e, d) == Some(Just(Just(Plain(y)))) ==>
              Run(MatchNested(e, some, nil, none), d, None) == Run(some, d, Some(y))
    ensures Eval(e, d) == Some(Just(Nothing)) ==> Run(MatchNested(e, some, nil, none), d, None) == Run(nil, d, None)
    ensures Eval(e, d) == Some(Nothing) ==> Run(MatchNested(e, some, nil, none), d, None) == Run(none, d, None)
  {
    hide Eval;
  }

  lemma RunPresent(e: Expr, d: Doc, some: Code, other: Code, y: Doc)
    ensures Eval(e, d) == Some(Just(Just(Plain(y)))) ==>
              Run(MatchPresent(e, some, other), d, None) == Run(some, d, Some(y))
    ensures Eval(e, d) == Some(Just(Nothing)) || Eval(e, d) == Some(Nothing) ==>
              Run(MatchPresent(e, some, other), d, None) == Run(other, d, None)
  {
    hide Eval;
  }

  lemma NullableMeans(d: Doc, e: Expr, m: Member, absent: Code, p: Presence)
    requires Holds(e, d, Nullable, p)
    ensures Run(MatchCode(e, Nullable, m, absent), d, None) ==
            match p
            case Present(y) => Some(m.conversion.run(y))
            case Null => if m.nullInvalid then Some(Answer(None, [NullIssue(m.path)])) else Run(absent, d, None)
            case Missing => Run(absent, d, None)
  {
    var some := Convert(m.conversion);
    var y := if p.Present? then p.doc else d;
    RunConvert(m.conversion, d, y);
    if m.nullInvalid {
      RunNested(e, d, some, ReportNull(m.path), absent, y);
    } else {
      RunPresent(e, d, some, absent, y);
    }
    hide Eval, Run;
  }

  lemma MatchMeans(d: Doc, e: Expr, shape: Shape, m: Member, absent: Code, p: Presence)
    requires Holds(e, d, shape, p)
    ensures Run(MatchCode(e, shape, m, absent), d, None) ==
            match p
            case Present(y) => Some(m.conversion.run(y))
            case Null => if m.nullInvalid then Some(Answer(None, [NullIssue(m.path)])) else Run(absent, d, None)
            case Missing => Run(absent, d, None)
  {
    if shape.Nullable? {
      NullableMeans(d, e, m, absent, p);
    } else {
      FlatMeans(d, e, shape, m, absent, p);
    }
    hide Holds, MatchCode, Run;
  }

  lemma LeafReads(d: Doc, m: Member)
    requires m.steps != [] && Conforms(d, m.steps) && PrefixAccess(m.steps[..|m.steps| - 1]).Ok?
    requires LeafAccess(PrefixAccess(m.steps[..|m.steps| - 1]).value, m.steps[|m.steps| - 1], m.path).Ok?
    ensures var (prefix, leaf) := (m.steps[..|m.steps| - 1], m.steps[|m.steps| - 1]);
            var (e, shape) := LeafAccess(PrefixAccess(prefix).value, leaf, m.path).value;
            Holds(e, d, shape, LeafPresence(d, m.steps))
  {
    var (prefix, leaf) := (m.steps[..|m.steps| - 1], m.steps[|m.steps| - 1]);
    AccessCompiles(prefix);
    forall k | 0 <= k <= |prefix| ensures PrefixAdmits(d, prefix[..k]) {
      ConformsAdmits(d, m.steps, k);
      assert m.steps[..k] == prefix[..k];
    }
    AccessReaches(d, prefix);
    WalkReach(d, m.steps);
    hide PrefixAccess, Reach, Conforms, Walk, Eval, PrefixAdmits;
    LeafHolds(d, PrefixAccess(prefix).value, leaf, Reach(d, prefix), m.path);
  }

  function LeafPresence(d: Doc, steps: seq<Step>): Presence
    requires steps != []
  {
    match Reach(d, steps[..|steps| - 1])
    case Some(x) => Lookup(x, steps[|steps| - 1].property)
    case None => Missing
  }

  /** The emitted match tells absent, null and present apart as the walk does. */
  lemma LeafMeans(d: Doc, m: Member, absent: Code)
    requires m.steps != [] && Conforms(d, m.steps) && LeafCode(m, absent).Ok?
    ensures Run(LeafCode(m, absent).value, d, None) ==
            match MemberAnswer(d, m) case Some(a) => Some(a) case None => Run(absent, d, None)
  {
    var (prefix, leaf) := (m.steps[..|m.steps| - 1], m.steps[|m.steps| - 1]);
    AccessCompiles(prefix);
    LeafReads(d, m);
    WalkReach(d, m.steps);
    var (e, shape) := LeafAccess(PrefixAccess(prefix).value, leaf, m.path).value;
    hide PrefixAccess, LeafAccess, Reach, Conforms, Walk, Eval, Holds, Run, MatchCode, Plainly, SomeOptional;
    MatchMeans(d, e, shape, m, absent, LeafPresence(d, m.steps));
    assert LeafCode(m, absent).value == MatchCode(e, shape, m, absent);
  }

  /** The compiled chain answers as its first answering member, never reading
      further, and reports absence once and only for a required primary. */
  lemma {:induction false} ChainMeans(d: Doc, chain: seq<Member>, primary: Member)
    requires (forall m | m in chain :: m.steps != [] && Conforms(d, m.steps)) && ChainCode(chain, primary).Ok?
    ensures Run(ChainCode(chain, primary).value.0, d, None) == Some(ChainAnswer(d, chain, primary))
  {
    if chain != [] {
      var rest := ChainCode(chain[1..], primary).value.0;
      ChainMeans(d, chain[1..], primary);
      LeafMeans(d, chain[0], rest);
      hide LeafCode, Conforms, MemberAnswer, Run;
    }
  }

  lemma {:induction false} ChainCompiles(chain: seq<Member>, primary: Member)
    requires forall m | m in chain :: m.steps != []
    ensures ChainCode(chain, primary).Ok? <==>
            && (forall m | m in chain :: Readable(m))
            && forall i, j | 0 <= i < j < |chain| :: chain[i].conversion.local == chain[j].conversion.local
    ensures ChainCode(chain, primary).Ok? ==>
              ChainCode(chain, primary).value.1 == if chain == [] then None else Some(chain[0].conversion.local)
  {
    if chain != [] {
      ChainCompiles(chain[1..], primary);
      if ChainCode(chain[1..], primary).Ok? {
        LeafCompiles(chain[0], ChainCode(chain[1..], primary).value.0);
      }
      hide Readable, LeafCode;
      assert chain == [chain[0]] + chain[1..];
      assert forall i | 0 < i < |chain| :: chain[i] == chain[1..][i - 1];
      if |chain| > 1 {
        assert chain[1] == chain[1..][0];
      }
    }
  }

  // --- When a fallback can run ---

  predicate AllBare(steps: seq<Step>) {
    forall i | 0 <= i < |steps| :: steps[i].shape.Bare?
  }

  lemma BareLast(steps: seq<Step>)
    requires steps != []
    ensures AllBare(steps) <==> AllBare(steps[..|steps| - 1]) && steps[|steps| - 1].shape.Bare?
  {
    var prefix := steps[..|steps| - 1];
    assert forall i | 0 <= i < |prefix| :: prefix[i] == steps[i];
    if AllBare(prefix) && steps[|steps| - 1].shape.Bare? {
      forall i | 0 <= i < |steps| ensures steps[i].shape.Bare? {
        assert i < |prefix| ==> prefix[i].shape.Bare?;
      }
    }
  }

  lemma {:induction false} BareIsFound(d: Doc, steps: seq<Step>)
    requires AllBare(steps) && Conforms(d, steps)
    ensures Walk(d, steps).Found?
  {
    if steps != [] {
      assert steps[0].shape.Bare?;
      BareIsFound(Lookup(d, steps[0].property).doc, steps[1..]);
    }
  }

  /** A document that gives the path as little as its schema allows. */
  function LeastOn(steps: seq<Step>): Doc {
    if steps == [] then Scalar(0)
    else Object(map[steps[0].property :=
      match steps[0].shape
      case Bare => Present(LeastOn(steps[1..]))
      case RequiredNullable => Null
      case _ => Missing])
  }

  lemma {:induction false} LeastOnConforms(steps: seq<Step>)
    ensures Conforms(LeastOn(steps), steps)
    ensures !AllBare(steps) ==> Walk(LeastOn(steps), steps).Absent? || Walk(LeastOn(steps), steps).ExplicitNull?
    ensures steps != [] && Plainly(steps[..|steps| - 1]) && SomeOptional(steps[..|steps| - 1]) ==>
            Walk(LeastOn(steps), steps).Absent?
    ensures steps != [] && AllBare(steps[..|steps| - 1]) ==>
              (Walk(LeastOn(steps), steps).ExplicitNull? <==> steps[|steps| - 1].shape.RequiredNullable?)
  {
    if steps != [] {
      var (prefix, rest) := (steps[..|steps| - 1], steps[1..]);
      LeastOnConforms(rest);
      assert prefix != [] ==> prefix[0] == steps[0] && prefix[1..] == rest[..|rest| - 1];
      assert forall i | 1 <= i < |steps| :: steps[i] == rest[i - 1];
      assert forall i | 1 <= i < |prefix| :: prefix[i] == prefix[1..][i - 1];
      if prefix != [] && SomeOptional(prefix) && !prefix[0].shape.Optional? {
        var i :| 0 <= i < |prefix| && prefix[i].shape.Optional?;
        assert prefix[1..][i - 1].shape.Optional?;
      }
    }
  }

  /** A readable mapping answers every document exactly when its whole path is
      required and non-nullable, or only its leaf is nullable and null is invalid
      there. */
  lemma AlwaysAnswers(m: Member)
    requires m.steps != [] && Readable(m)
    ensures (forall d | Conforms(d, m.steps) :: MemberAnswer(d, m).Some?) <==>
            || AllBare(m.steps)
            || (AllBare(m.steps[..|m.steps| - 1]) && m.steps[|m.steps| - 1].shape.RequiredNullable? && m.nullInvalid)
  {
    var (prefix, leaf) := (m.steps[..|m.steps| - 1], m.steps[|m.steps| - 1]);
    LeastOnConforms(m.steps);
    BareLast(m.steps);
    if AllBare(m.steps) {
      forall d | Conforms(d, m.steps) ensures MemberAnswer(d, m).Some? { BareIsFound(d, m.steps); }
    } else if AllBare(prefix) && leaf.shape.RequiredNullable? && m.nullInvalid {
      forall d | Conforms(d, m.steps) ensures MemberAnswer(d, m).Some? { WalkReach(d, m.steps); }
    } else {
      LeastUnanswered(m);
    }
  }

  lemma LeastUnanswered(m: Member)
    requires m.steps != [] && Readable(m) && !AllBare(m.steps)
    requires var (prefix, leaf) := (m.steps[..|m.steps| - 1], m.steps[|m.steps| - 1]);
             !(AllBare(prefix) && leaf.shape.RequiredNullable? && m.nullInvalid)
    ensures MemberAnswer(LeastOn(m.steps), m).None?
  {
    var (prefix, leaf) := (m.steps[..|m.steps| - 1], m.steps[|m.steps| - 1]);
    BareLast(m.steps);
    LeastOnConforms(m.steps);
    hide LeastOn, Walk, Conforms;
    if AllBare(prefix) {
      assert leaf.shape.RequiredNullable? <==> Walk(LeastOn(m.steps), m.steps).ExplicitNull?;
    } else {
      assert SomeOptional(prefix);
      assert Walk(LeastOn(m.steps), m.steps).Absent?;
    }
  }

  /** What the lint's unreachable-fallback rule protects: behind an always-present
      member, the rest of a chain never runs. */
  lemma {:induction false} UnreachableFallback(d: Doc, chain: seq<Member>, at: nat, primary: Member)
    requires at < |chain| && AllBare(chain[at].steps) && Conforms(d, chain[at].steps)
    ensures ChainAnswer(d, chain, primary) == ChainAnswer(d, chain[..at + 1], primary)
  {
    if at == 0 {
      BareIsFound(d, chain[0].steps);
    } else {
      UnreachableFallback(d, chain[1..], at - 1, primary);
      assert chain[1..][..at] == chain[..at + 1][1..];
    }
  }
}
