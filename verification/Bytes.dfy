/** Byte-level encodings: the fixed-width little-endian integers of the content
    stream and the varint, zigzag and key forms of the Protocol Buffers encoding
    ("Base 128 Varints", "Signed Integers", "Length-Delimited Records"). */
module Bytes {
  type byte = x: int | 0 <= x < 256
  type u32 = x: int | 0 <= x < 0x1_0000_0000
  type u64 = x: int | 0 <= x < 0x1_0000_0000_0000_0000
  type i32 = x: int | -0x8000_0000 <= x < 0x8000_0000
  type i64 = x: int | -0x8000_0000_0000_0000 <= x < 0x8000_0000_0000_0000

  const TWO64: int := 0x1_0000_0000_0000_0000

  datatype Option<+T> = None | Some(value: T)

  function Pow2(n: nat): (p: nat)
    ensures p >= 1
  {
    if n == 0 then 1 else 2 * Pow2(n - 1)
  }

  // --- Little-endian, fixed width ---

  function LE(n: nat, width: nat): (s: seq<byte>)
    ensures |s| == width
  {
    if width == 0 then [] else [n % 256] + LE(n / 256, width - 1)
  }

  function FromLE(s: seq<byte>): (n: nat) {
    if s == [] then 0 else s[0] + 256 * FromLE(s[1..])
  }

  function Pow256(width: nat): (p: nat)
    ensures p >= 1
  {
    if width == 0 then 1 else 256 * Pow256(width - 1)
  }

  /** The byte of each weight, the lightest first. */
  lemma {:induction false} LEIsLittleEndian(n: nat, width: nat, k: nat)
    requires k < width
    ensures LE(n, width)[k] == n / Pow256(k) % 256
    decreases k
  {
    if k == 0 {
      assert n / 1 == n;
    } else {
      LEIsLittleEndian(n / 256, width - 1, k - 1);
      DivDiv(n, 256, Pow256(k - 1));
    }
  }

  lemma {:induction false} FromLEInverts(n: nat, width: nat)
    requires n < Pow256(width)
    ensures FromLE(LE(n, width)) == n
  {
    if width > 0 {
      assert n / 256 < Pow256(width - 1);
      FromLEInverts(n / 256, width - 1);
      assert LE(n, width)[1..] == LE(n / 256, width - 1);
    }
  }

  lemma LE4Injective(a: u32, b: u32)
    requires LE(a, 4) == LE(b, 4)
    ensures a == b
  {
    assert Pow256(4) == 0x1_0000_0000 by {
      assert Pow256(1) == 256 && Pow256(2) == 0x1_0000 && Pow256(3) == 0x100_0000;
    }
    FromLEInverts(a, 4);
    FromLEInverts(b, 4);
  }

  lemma Pow256At8()
    ensures Pow256(8) == TWO64
  {
    assert Pow256(1) == 256 && Pow256(2) == 0x1_0000 && Pow256(3) == 0x100_0000;
    assert Pow256(4) == 0x1_0000_0000 && Pow256(5) == 0x100_0000_0000;
    assert Pow256(6) == 0x1_0000_0000_0000 && Pow256(7) == 0x100_0000_0000_0000;
  }

  lemma LE8Injective(a: u64, b: u64)
    requires LE(a, 8) == LE(b, 8)
    ensures a == b
  {
    Pow256At8();
    FromLEInverts(a, 8);
    FromLEInverts(b, 8);
  }

  /** Two's complement at 64 and 32 bits, as `to_le_bytes` and the varint
      encoders see a signed integer. */
  function Unsigned64(x: i64): (n: u64)
    ensures x == Signed64(n)
  {
    if x < 0 then x + TWO64 else x
  }

  function Signed64(n: u64): i64 {
    if n >= 0x8000_0000_0000_0000 then n - TWO64 else n
  }

  function Unsigned32(x: i32): (n: u32)
    ensures x == Signed32(n)
  {
    if x < 0 then x + 0x1_0000_0000 else x
  }

  function Signed32(n: u32): i32 {
    if n >= 0x8000_0000 then n - 0x1_0000_0000 else n
  }

  /** Two's complement is the number modulo the width. */
  lemma TwosComplement(x: i64, y: i32)
    ensures Unsigned64(x) == x % TWO64
    ensures Unsigned32(y) == y % 0x1_0000_0000
  {
  }

  /** Equal-length heads of equal streams are equal, and so are the remainders. */
  lemma SplitStream(x: seq<byte>, rx: seq<byte>, y: seq<byte>, ry: seq<byte>)
    requires |x| == |y| && x + rx == y + ry
    ensures x == y && rx == ry
  {
    assert x == (x + rx)[..|x|] && y == (y + ry)[..|y|];
    assert rx == (x + rx)[|x|..] && ry == (y + ry)[|y|..];
  }

  lemma Assoc<T>(x: seq<T>, y: seq<T>, z: seq<T>)
    ensures (x + y) + z == x + (y + z)
  {
  }

  // --- Varints, zigzag, keys ---

  function Varint(n: nat): (s: seq<byte>)
    ensures |s| >= 1
  {
    if n < 128 then [n] else [128 + n % 128] + Varint(n / 128)
  }

  function Pow128(k: nat): (p: nat)
    ensures p >= 1
  {
    if k == 0 then 1 else 128 * Pow128(k - 1)
  }

  /** The bytes of a varint are the number's groups of seven bits, the least
      significant first, each but the last with the continuation bit, and the last
      is not a needless zero. */
  lemma {:induction false} VarintIsBase128(n: nat, k: nat)
    requires k < |Varint(n)|
    ensures Varint(n)[k] == n / Pow128(k) % 128 + if k + 1 < |Varint(n)| then 128 else 0
    ensures k + 1 == |Varint(n)| ==> n / Pow128(k) < 128 && (k > 0 ==> n / Pow128(k) > 0)
    decreases k
  {
    if n < 128 {
      assert n / 1 == n;
    } else if k == 0 {
      assert n / 1 == n;
    } else {
      VarintIsBase128(n / 128, k - 1);
      DivDiv(n, 128, Pow128(k - 1));
    }
  }

  lemma ScaleUp(d: nat, x: nat, y: nat)
    requires x <= y
    ensures d * x <= d * y
  {
  }

  lemma Distribute(a: nat, b: nat, q: nat, r: nat)
    ensures a * (b * q + r) == (a * b) * q + a * r && a * (r + 1) == a * r + a
  {
    assert a * (b * q) == (a * b) * q;
  }

  lemma Regroup(a: nat, b: nat, q: nat, r: nat, k: nat)
    requires k < a && r < b
    ensures a * (b * q + r) + k == (a * b) * q + (a * r + k) && a * r + k < a * b
  {
    ScaleUp(a, r + 1, b);
    Distribute(a, b, q, r);
  }

  lemma DivDiv(n: nat, a: nat, b: nat)
    requires a > 0 && b > 0
    ensures a * b > 0 && n / (a * b) == n / a / b
  {
    var (m, k) := DivMod(n, a);
    var (q, r) := DivMod(m, b);
    Regroup(a, b, q, r, k);
    ScaleUp(a, 1, b);
    DivUnique(n, a * b, q, a * r + k);
  }

  function DivMod(n: nat, d: nat): (r: (nat, nat))
    requires d > 0
    ensures n == d * r.0 + r.1 && r.1 < d && r.0 == n / d
  {
    (n / d, n % d)
  }

  lemma DivUnique(n: nat, d: nat, q: nat, r: nat)
    requires d > 0 && n == d * q + r && r < d
    ensures n / d == q
  {
    ScaleUp(d, n / d + 1, if n / d < q then q else n / d + 1);
    ScaleUp(d, q + 1, if q < n / d then n / d else q + 1);
  }

  function VarintLen(n: nat): nat {
    if n < 128 then 1 else 1 + VarintLen(n / 128)
  }

  lemma {:induction false} VarintLenExact(n: nat)
    ensures |Varint(n)| == VarintLen(n)
  {
    if n >= 128 {
      VarintLenExact(n / 128);
    }
  }

  function ParseVarint(s: seq<byte>): (r: Option<(nat, seq<byte>)>)
    ensures r.Some? ==> |r.value.1| < |s|
  {
    if s == [] then None
    else if s[0] < 128 then Some((s[0], s[1..]))
    else match ParseVarint(s[1..])
      case None => None
      case Some((high, rest)) => Some((s[0] - 128 + 128 * high, rest))
  }

  lemma {:induction false} ParseVarintInverts(n: nat, rest: seq<byte>)
    ensures ParseVarint(Varint(n) + rest) == Some((n, rest))
  {
    var s := Varint(n) + rest;
    if n < 128 {
      assert s[1..] == rest;
    } else {
      ParseVarintInverts(n / 128, rest);
      assert s[1..] == Varint(n / 128) + rest;
    }
  }

  function Zigzag(x: i64): (n: u64)
    ensures Unzigzag(n) == x
  {
    if x >= 0 then 2 * x else -2 * x - 1
  }

  function Unzigzag(n: u64): i64 {
    if n % 2 == 0 then n / 2 else -(n / 2) - 1
  }
}
