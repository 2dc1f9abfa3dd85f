/** Three-way comparison, as `std::cmp::Ordering` provides it, and the two
    lexicographic orders every canonical comparison is built from. */
module Orders {
  datatype Ordering = Less | Equal | Greater {
    function Then(next: Ordering): Ordering {
      if Equal? then next else this
    }

    function Reverse(): Ordering {
      match this
      case Less => Greater
      case Equal => Equal
      case Greater => Less
    }
  }

  function CmpInt(a: int, b: int): Ordering {
    if a < b then Less else if a == b then Equal else Greater
  }

  function CmpBool(a: bool, b: bool): Ordering {
    CmpInt(if a then 1 else 0, if b then 1 else 0)
  }

  /** Slice order: element-wise, shorter prefix first. */
  function CmpInts(a: seq<int>, b: seq<int>): Ordering {
    if a == [] then (if b == [] then Equal else Less)
    else if b == [] then Greater
    else CmpInt(a[0], b[0]).Then(CmpInts(a[1..], b[1..]))
  }

  /** `a` comes first at `k`: they agree before it, and there `a` ends or is less. */
  ghost predicate FirstAt(a: seq<int>, b: seq<int>, k: nat) {
    k <= |a| && k <= |b| && a[..k] == b[..k] && k < |b| && (k == |a| || a[k] < b[k])
  }

  lemma {:induction false} CmpIntsLess(a: seq<int>, b: seq<int>)
    ensures CmpInts(a, b) == Less <==> exists k :: FirstAt(a, b, k)
  {
    if a == [] || b == [] {
      assert b != [] ==> FirstAt([], b, 0);
    } else if a[0] != b[0] {
      assert a[0] < b[0] ==> FirstAt(a, b, 0);
      assert forall k: nat | FirstAt(a, b, k) && k > 0 :: a[..k][0] == b[..k][0];
    } else {
      CmpIntsLess(a[1..], b[1..]);
      if k: nat :| FirstAt(a[1..], b[1..], k) {
        assert a[..k + 1] == [a[0]] + a[1..][..k] && b[..k + 1] == [b[0]] + b[1..][..k];
        assert FirstAt(a, b, k + 1);
      }
      if k: nat :| FirstAt(a, b, k) {
        assert k > 0 ==> a[1..][..k - 1] == a[..k][1..] && b[1..][..k - 1] == b[..k][1..];
        assert FirstAt(a[1..], b[1..], k - 1);
      }
    }
  }

  lemma {:induction false} CmpIntsEqual(a: seq<int>, b: seq<int>)
    ensures CmpInts(a, b) == Equal <==> a == b
  {
    if a != [] && b != [] {
      CmpIntsEqual(a[1..], b[1..]);
      assert a == [a[0]] + a[1..] && b == [b[0]] + b[1..];
    }
  }

  lemma {:induction false} CmpIntsFlip(a: seq<int>, b: seq<int>)
    ensures CmpInts(b, a) == CmpInts(a, b).Reverse()
  {
    if a != [] && b != [] {
      CmpIntsFlip(a[1..], b[1..]);
    }
  }

  lemma {:induction false} CmpIntsTransitive(a: seq<int>, b: seq<int>, c: seq<int>)
    requires CmpInts(a, b) == Less && CmpInts(b, c) == Less
    ensures CmpInts(a, c) == Less
  {
    if a != [] {
      if a[0] == b[0] && b[0] == c[0] {
        CmpIntsTransitive(a[1..], b[1..], c[1..]);
      }
    }
  }
}
