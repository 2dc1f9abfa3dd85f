/** The canonical total order over values (`model/src/canonical.rs`,
    `Canonical for Value`): a total order whose `Equal` is identity. */
module ValueOrder {
  import opened Bytes
  import opened Orders
  import opened Values
  import F = Finites

  function CmpTime(a: Timestamp, b: Timestamp): Ordering {
    CmpInt(a.seconds, b.seconds).Then(CmpInt(a.nanos, b.nanos))
  }

  function NumericArm(n: NumericValue): u32 {
    match n case Double(_) => 1 case Int(_) => 2 case Uint(_) => 3
  }

  function CmpNumeric(a: NumericValue, b: NumericValue): Ordering {
    match (a, b)
    case (Double(x), Double(y)) => F.Cmp(x, y)
    case (Int(x), Int(y)) => CmpInt(x, y)
    case (Uint(x), Uint(y)) => CmpInt(x, y)
    case _ => CmpInt(NumericArm(a), NumericArm(b))
  }

  /** The arm's wire field number. */
  function Arm(r: Repr): (n: u32)
    ensures 1 <= n <= 10
  {
    match r
    case Null => 1
    case Bool(_) => 2
    case Int(_) => 3
    case Uint(_) => 4
    case Double(_) => 5
    case Text(_) => 6
    case Blob(_) => 7
    case Time(_) => 8
    case List(_) => 9
    case Map(_) => 10
  }

  function Cmp(a: Value, b: Value): Ordering
    decreases a, 1
  {
    match (a.repr, b.repr)
    case (Null, Null) => Equal
    case (Bool(x), Bool(y)) => CmpBool(x, y)
    case (Int(x), Int(y)) => CmpInt(x, y)
    case (Uint(x), Uint(y)) => CmpInt(x, y)
    case (Double(x), Double(y)) => F.Cmp(x, y)
    case (Text(x), Text(y)) => CmpInts(x, y)
    case (Blob(x), Blob(y)) => CmpInts(x, y)
    case (Time(x), Time(y)) => CmpTime(x, y)
    case (List(x), List(y)) => CmpSlice(x, y)
    case (Map(x), Map(y)) => CmpMap(x, y)
    case _ => CmpInt(Arm(a.repr), Arm(b.repr))
  }

  function CmpSlice(a: seq<Value>, b: seq<Value>): Ordering
    decreases a, 0
  {
    if a == [] || b == [] then CmpInt(|a|, |b|)
    else Cmp(a[0], b[0]).Then(CmpSlice(a[1..], b[1..]))
  }

  function CmpMap(a: seq<Entry>, b: seq<Entry>): Ordering
    decreases a, 0
  {
    if a == [] || b == [] then CmpInt(|a|, |b|)
    else CmpInts(a[0].key, b[0].key).Then(Cmp(a[0].value, b[0].value)).Then(CmpMap(a[1..], b[1..]))
  }

  // --- Which order it is ---

  /** Values of different arms are ordered by arm. */
  lemma ArmOrder(a: Value, b: Value)
    requires Arm(a.repr) != Arm(b.repr)
    ensures Cmp(a, b) == Less <==> Arm(a.repr) < Arm(b.repr)
  {
  }

  /** Within an arm instants are ordered as times, numbers as numbers, text and bytes
      byte by byte, and lists and maps at their first difference. */
  lemma ScalarOrder(a: Value, b: Value)
    requires Valid(a) && Valid(b)
    ensures match (a.repr, b.repr)
            case (Null, Null) => Cmp(a, b) == Equal
            case (Bool(x), Bool(y)) => Cmp(a, b) == Less <==> !x && y
            case (Int(x), Int(y)) => Cmp(a, b) == Less <==> x < y
            case (Uint(x), Uint(y)) => Cmp(a, b) == Less <==> x < y
            case (Double(x), Double(y)) => Cmp(a, b) == Less <==> F.Scaled(x) < F.Scaled(y)
            case (Text(x), Text(y)) => Cmp(a, b) == Less <==> exists k :: FirstAt(x, y, k)
            case (Blob(x), Blob(y)) => Cmp(a, b) == Less <==> exists k :: FirstAt(x, y, k)
            case (Time(x), Time(y)) =>
              Cmp(a, b) == Less <==>
              x.seconds * NANOS_PER_SECOND + x.nanos < y.seconds * NANOS_PER_SECOND + y.nanos
            case (List(x), List(y)) => Cmp(a, b) == Less <==> exists k :: SliceFirstAt(x, y, k)
            case (Map(x), Map(y)) => Cmp(a, b) == Less <==> exists k :: MapFirstAt(x, y, k)
            case _ => true
  {
    hide F.Scaled, SliceFirstAt, MapFirstAt, FirstAt, CmpSlice, CmpMap, CmpInts;
    match (a.repr, b.repr) {
      case (Text(x), Text(y)) => CmpIntsLess(x, y);
      case (Blob(x), Blob(y)) => CmpIntsLess(x, y);
      case (List(x), List(y)) => CmpSliceLess(x, y);
      case (Map(x), Map(y)) => CmpMapLess(x, y);
      case _ =>
    }
  }

  /** The first list comes first at `k`: their elements agree before it, and there it
      ends or holds the lesser. */
  ghost predicate SliceFirstAt(a: seq<Value>, b: seq<Value>, k: nat) {
    && k <= |a| && k < |b| && (forall i | 0 <= i < k :: Cmp(a[i], b[i]) == Equal)
    && (k == |a| || Cmp(a[k], b[k]) == Less)
  }

  lemma {:induction false} CmpSliceLess(a: seq<Value>, b: seq<Value>)
    ensures CmpSlice(a, b) == Less <==> exists k :: SliceFirstAt(a, b, k)
  {
    hide Cmp;
    if a == [] || b == [] {
      assert b != [] ==> SliceFirstAt(a, b, 0);
    } else if Cmp(a[0], b[0]) != Equal {
      assert Cmp(a[0], b[0]) == Less ==> SliceFirstAt(a, b, 0);
    } else {
      CmpSliceLess(a[1..], b[1..]);
      if k: nat :| SliceFirstAt(a[1..], b[1..], k) {
        forall i | 0 <= i < k + 1 ensures Cmp(a[i], b[i]) == Equal {
          assert i > 0 ==> a[i] == a[1..][i - 1] && b[i] == b[1..][i - 1];
        }
        assert SliceFirstAt(a, b, k + 1);
      }
      if k: nat :| SliceFirstAt(a, b, k) {
        assert SliceFirstAt(a[1..], b[1..], k - 1);
      }
    }
  }

  /** The first map comes first at `k`: its entries agree with the other's before it,
      and there it ends, or has the lesser key, or that key's lesser value. */
  ghost predicate MapFirstAt(a: seq<Entry>, b: seq<Entry>, k: nat) {
    && k <= |a| && k < |b|
    && (forall i | 0 <= i < k :: a[i].key == b[i].key && Cmp(a[i].value, b[i].value) == Equal)
    && (k == |a| || CmpInts(a[k].key, b[k].key) == Less
        || (a[k].key == b[k].key && Cmp(a[k].value, b[k].value) == Less))
  }

  lemma {:induction false} CmpMapLess(a: seq<Entry>, b: seq<Entry>)
    ensures CmpMap(a, b) == Less <==> exists k :: MapFirstAt(a, b, k)
  {
    hide Cmp, CmpInts;
    if a == [] || b == [] {
      assert b != [] ==> MapFirstAt(a, b, 0);
      return;
    }
    CmpIntsEqual(a[0].key, b[0].key);
    if a[0].key != b[0].key || Cmp(a[0].value, b[0].value) != Equal {
      assert MapFirstAt(a, b, 0) || CmpMap(a, b) != Less;
    } else {
      CmpMapLess(a[1..], b[1..]);
      if k: nat :| MapFirstAt(a[1..], b[1..], k) {
        forall i | 0 <= i < k + 1 ensures a[i].key == b[i].key && Cmp(a[i].value, b[i].value) == Equal {
          assert i > 0 ==> a[i] == a[1..][i - 1] && b[i] == b[1..][i - 1];
        }
        assert MapFirstAt(a, b, k + 1);
      }
      if k: nat :| MapFirstAt(a, b, k) {
        assert MapFirstAt(a[1..], b[1..], k - 1);
      }
    }
  }

  lemma NumericOrder(a: NumericValue, b: NumericValue)
    ensures match (a, b)
            case (Double(x), Double(y)) => CmpNumeric(a, b) == Less <==> F.Scaled(x) < F.Scaled(y)
            case (Int(x), Int(y)) => CmpNumeric(a, b) == Less <==> x < y
            case (Uint(x), Uint(y)) => CmpNumeric(a, b) == Less <==> x < y
            case _ => CmpNumeric(a, b) == Less <==> a.Double? || (a.Int? && b.Uint?)
  {
  }

  // --- Equal is identity ---

  lemma {:induction false} CmpEqual(a: Value, b: Value)
    requires Valid(a) && Valid(b)
    ensures Cmp(a, b) == Equal <==> a == b
    decreases a, 1
  {
    match (a.repr, b.repr) {
      case (Double(x), Double(y)) => F.CmpEqual(x, y);
      case (Text(x), Text(y)) => CmpIntsEqual(x, y);
      case (Blob(x), Blob(y)) => CmpIntsEqual(x, y);
      case (List(x), List(y)) => CmpSliceEqual(x, y);
      case (Map(x), Map(y)) => CmpMapEqual(x, y);
      case _ =>
    }
  }

  lemma {:induction false} CmpSliceEqual(a: seq<Value>, b: seq<Value>)
    requires forall x | x in a :: Valid(x)
    requires forall x | x in b :: Valid(x)
    ensures CmpSlice(a, b) == Equal <==> a == b
    decreases a, 0
  {
    if a != [] && b != [] {
      CmpEqual(a[0], b[0]);
      CmpSliceEqual(a[1..], b[1..]);
      assert a == [a[0]] + a[1..] && b == [b[0]] + b[1..];
    }
  }

  lemma {:induction false} CmpMapEqual(a: seq<Entry>, b: seq<Entry>)
    requires forall e | e in a :: Valid(e.value)
    requires forall e | e in b :: Valid(e.value)
    ensures CmpMap(a, b) == Equal <==> a == b
    decreases a, 0
  {
    if a != [] && b != [] {
      CmpIntsEqual(a[0].key, b[0].key);
      assert a[0].value < a[0];
      CmpEqual(a[0].value, b[0].value);
      CmpMapEqual(a[1..], b[1..]);
      assert a == [a[0]] + a[1..] && b == [b[0]] + b[1..];
    }
  }

  // --- Swapping the operands reverses the answer ---

  lemma {:induction false} CmpFlip(a: Value, b: Value)
    ensures Cmp(b, a) == Cmp(a, b).Reverse()
    decreases a, 1
  {
    match (a.repr, b.repr) {
      case (Text(x), Text(y)) => CmpIntsFlip(x, y);
      case (Blob(x), Blob(y)) => CmpIntsFlip(x, y);
      case (List(x), List(y)) => CmpSliceFlip(x, y);
      case (Map(x), Map(y)) => CmpMapFlip(x, y);
      case _ =>
    }
  }

  lemma {:induction false} CmpSliceFlip(a: seq<Value>, b: seq<Value>)
    ensures CmpSlice(b, a) == CmpSlice(a, b).Reverse()
    decreases a, 0
  {
    if a != [] && b != [] {
      CmpFlip(a[0], b[0]);
      CmpSliceFlip(a[1..], b[1..]);
    }
  }

  lemma {:induction false} CmpMapFlip(a: seq<Entry>, b: seq<Entry>)
    ensures CmpMap(b, a) == CmpMap(a, b).Reverse()
    decreases a, 0
  {
    if a != [] && b != [] {
      CmpIntsFlip(a[0].key, b[0].key);
      assert a[0].value < a[0];
      CmpFlip(a[0].value, b[0].value);
      CmpMapFlip(a[1..], b[1..]);
    }
  }

  // --- Transitivity ---

  lemma {:induction false} CmpTransitive(a: Value, b: Value, c: Value)
    requires Valid(a) && Valid(b) && Valid(c)
    requires Cmp(a, b) == Less && Cmp(b, c) == Less
    ensures Cmp(a, c) == Less
    decreases a, 1
  {
    hide Cmp, CmpSlice, CmpMap;
    CmpArms(a, b);
    CmpArms(b, c);
    CmpArms(a, c);
    if Arm(a.repr) == Arm(b.repr) == Arm(c.repr) {
      if a.repr.List? {
        CmpSliceTransitive(a.repr.values, b.repr.values, c.repr.values);
      } else if a.repr.Map? {
        CmpMapTransitive(a.repr.entries, b.repr.entries, c.repr.entries);
      } else {
        ScalarTransitive(a, b, c);
      }
    }
  }

  lemma CmpArms(a: Value, b: Value)
    ensures Arm(a.repr) != Arm(b.repr) ==> Cmp(a, b) == CmpInt(Arm(a.repr), Arm(b.repr))
    ensures a.repr.List? && b.repr.List? ==> Cmp(a, b) == CmpSlice(a.repr.values, b.repr.values)
    ensures a.repr.Map? && b.repr.Map? ==> Cmp(a, b) == CmpMap(a.repr.entries, b.repr.entries)
  {
  }

  lemma ScalarTransitive(a: Value, b: Value, c: Value)
    requires Arm(a.repr) == Arm(b.repr) == Arm(c.repr) && !a.repr.List? && !a.repr.Map?
    requires Valid(a) && Valid(b) && Valid(c)
    requires Cmp(a, b) == Less && Cmp(b, c) == Less
    ensures Cmp(a, c) == Less
  {
    match (a.repr, b.repr, c.repr) {
      case (Text(x), Text(y), Text(z)) => CmpIntsTransitive(x, y, z);
      case (Blob(x), Blob(y), Blob(z)) => CmpIntsTransitive(x, y, z);
      case _ =>
    }
  }

  lemma {:induction false} CmpSliceTransitive(a: seq<Value>, b: seq<Value>, c: seq<Value>)
    requires forall x | x in a :: Valid(x)
    requires forall x | x in b :: Valid(x)
    requires forall x | x in c :: Valid(x)
    requires CmpSlice(a, b) == Less && CmpSlice(b, c) == Less
    ensures CmpSlice(a, c) == Less
    decreases a, 0
  {
    if a != [] {
      CmpEqual(a[0], b[0]);
      CmpEqual(b[0], c[0]);
      if Cmp(a[0], b[0]) == Less && Cmp(b[0], c[0]) == Less {
        CmpTransitive(a[0], b[0], c[0]);
      } else if a[0] == b[0] == c[0] {
        CmpSliceTransitive(a[1..], b[1..], c[1..]);
      }
    }
  }

  lemma {:induction false} CmpMapTransitive(a: seq<Entry>, b: seq<Entry>, c: seq<Entry>)
    requires forall e | e in a :: Valid(e.value)
    requires forall e | e in b :: Valid(e.value)
    requires forall e | e in c :: Valid(e.value)
    requires CmpMap(a, b) == Less && CmpMap(b, c) == Less
    ensures CmpMap(a, c) == Less
    decreases a, 0
  {
    if a != [] {
      var (x, y, z) := (a[0], b[0], c[0]);
      CmpIntsEqual(x.key, y.key);
      CmpIntsEqual(y.key, z.key);
      assert x.value < x;
      CmpEqual(x.value, y.value);
      CmpEqual(y.value, z.value);
      if CmpInts(x.key, y.key) == Less && CmpInts(y.key, z.key) == Less {
        CmpIntsTransitive(x.key, y.key, z.key);
      } else if x.key == y.key == z.key {
        if Cmp(x.value, y.value) == Less && Cmp(y.value, z.value) == Less {
          CmpTransitive(x.value, y.value, z.value);
        } else if x.value == y.value == z.value {
          CmpMapTransitive(a[1..], b[1..], c[1..]);
        }
      }
    }
  }

  // --- Numeric samples ---

  lemma CmpNumericEqual(a: NumericValue, b: NumericValue)
    ensures CmpNumeric(a, b) == Equal <==> a == b
  {
    if a.Double? && b.Double? {
      F.CmpEqual(a.d, b.d);
    }
  }
}
