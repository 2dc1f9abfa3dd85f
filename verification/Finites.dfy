/** The finite double: a 64-bit IEEE 754 binary64 pattern with the non-finite
    encodings refused and the negative zero collapsed (IEEE 754-2019 sections
    3.4 and 6.3). */
module Finites {
  import opened Bytes
  import opened Orders

  const TWO52: int := 0x10_0000_0000_0000
  const TWO63: int := 0x8000_0000_0000_0000

  function Magnitude(bits: u64): nat { bits % TWO63 }

  function Exponent(bits: u64): nat { Magnitude(bits) / TWO52 }

  function Mantissa(bits: u64): nat { Magnitude(bits) % TWO52 }

  predicate Negative(bits: u64) { bits >= TWO63 }

  predicate IsFinite(bits: u64) { Exponent(bits) != 0x7FF }

  /** What `Finite` holds: finite, and zero only as the positive zero. */
  type Finite = bits: int | 0 <= bits < TWO64 && IsFinite(bits) && bits != TWO63 witness 0

  /** Admits a finite pattern; adding zero maps the negative zero to the
      positive one and changes nothing else. */
  function New(bits: u64): (r: Option<Finite>)
    ensures r.Some? <==> IsFinite(bits)
    ensures r.Some? ==> Scaled(r.value) == Scaled(bits)
    ensures r.Some? && bits != TWO63 ==> r.value == bits
  {
    if !IsFinite(bits) then None
    else if bits == TWO63 then assert Magnitude(bits) == 0; Some(0)
    else Some(bits)
  }

  /** The number a finite pattern denotes, scaled by 2^1074 so that it is an
      integer: subnormals are their mantissa, normals carry the hidden bit. */
  function ScaledMagnitude(exponent: nat, mantissa: nat): nat {
    if exponent == 0 then mantissa else (TWO52 + mantissa) * Pow2(exponent - 1)
  }

  function Scaled(bits: u64): int {
    var m: int := ScaledMagnitude(Exponent(bits), Mantissa(bits));
    if Negative(bits) then -m else m
  }

  /** `partial_cmp` on doubles compares the numbers denoted. */
  function Cmp(a: Finite, b: Finite): Ordering {
    CmpInt(Scaled(a), Scaled(b))
  }

  lemma ScaledNextExponent(e: nat, m: nat, k: nat)
    requires m < TWO52
    ensures ScaledMagnitude(e, m) < ScaledMagnitude(e + 1, k)
  {
    if e > 0 {
      var (p, q) := (Pow2(e - 1), Pow2(e));
      MulLess(TWO52 + m, 2 * TWO52, p);
      MulAtMost(TWO52, TWO52 + k, q);
      assert q == 2 * p;
    }
  }

  lemma MulLess(x: nat, y: nat, p: nat)
    requires x < y && p >= 1
    ensures x * p < y * p
  {
  }

  lemma MulAtMost(x: nat, y: nat, p: nat)
    requires x <= y
    ensures x * p <= y * p
  {
  }

  lemma {:induction false} ScaledAboveExponent(e: nat, f: nat, m: nat, k: nat)
    requires e < f && m < TWO52
    ensures ScaledMagnitude(e, m) < ScaledMagnitude(f, k)
    decreases f
  {
    if e + 1 == f {
      ScaledNextExponent(e, m, k);
    } else {
      ScaledAboveExponent(e, f - 1, m, 0);
      ScaledNextExponent(f - 1, 0, k);
    }
  }

  /** The magnitude bits, read as an integer, are ordered as the magnitudes. */
  lemma MagnitudeOrdered(a: u64, b: u64)
    requires Magnitude(a) < Magnitude(b)
    ensures ScaledMagnitude(Exponent(a), Mantissa(a)) < ScaledMagnitude(Exponent(b), Mantissa(b))
  {
    if Exponent(a) < Exponent(b) {
      ScaledAboveExponent(Exponent(a), Exponent(b), Mantissa(a), Mantissa(b));
    } else {
      assert Exponent(a) == Exponent(b) && Mantissa(a) < Mantissa(b);
      if Exponent(a) > 0 {
        MulLess(TWO52 + Mantissa(a), TWO52 + Mantissa(b), Pow2(Exponent(a) - 1));
      }
    }
  }

  /** Equal numbers are equal bits: the total order's `Equal` is identity, and
      the digest and the wire can use the bits. */
  lemma NotZero(a: Finite)
    requires Magnitude(a) > 0
    ensures ScaledMagnitude(Exponent(a), Mantissa(a)) > 0
  {
    if Exponent(a) > 0 {
      assert (TWO52 + Mantissa(a)) * Pow2(Exponent(a) - 1) >= TWO52 by {
        MulAtLeast(TWO52 + Mantissa(a), Pow2(Exponent(a) - 1));
      }
    }
  }

  lemma CmpEqual(a: Finite, b: Finite)
    ensures Cmp(a, b) == Equal <==> a == b
  {
    if a != b {
      if Magnitude(a) < Magnitude(b) {
        MagnitudeOrdered(a, b);
      } else if Magnitude(b) < Magnitude(a) {
        MagnitudeOrdered(b, a);
      } else {
        assert Negative(a) != Negative(b);
        assert Magnitude(a) > 0;
        NotZero(a);
        hide ScaledMagnitude, Pow2;
      }
    }
  }

  lemma MulAtLeast(x: nat, p: nat)
    requires p >= 1
    ensures x * p >= x
  {
  }

  /** On patterns of one sign the order of the numbers is the order of the bits,
      reversed below zero: the sign-magnitude key. */
  lemma CmpIsSignMagnitude(a: Finite, b: Finite)
    ensures Cmp(a, b) == CmpInt(Key(a), Key(b))
  {
    CmpEqual(a, b);
    if Magnitude(a) < Magnitude(b) {
      MagnitudeOrdered(a, b);
    } else if Magnitude(b) < Magnitude(a) {
      MagnitudeOrdered(b, a);
    }
  }

  function Key(a: Finite): int {
    var m: int := Magnitude(a);
    if Negative(a) then -m else m
  }
}
