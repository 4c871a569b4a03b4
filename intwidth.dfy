/** The fixed-width integers of C# (`int`, `uint`, `long`, `ulong`) as subsets of
    Dafny's unbounded `int`, with the unchecked wrap-around, the bit
    reinterpretations between signed and unsigned widths, and C#'s
    truncating remainder. */
module IntWidth {

  const TWO_31: int := 0x8000_0000
  const TWO_32: int := 0x1_0000_0000
  const TWO_63: int := 0x8000_0000_0000_0000
  const TWO_64: int := 0x1_0000_0000_0000_0000

  const INT32_MIN: int := -0x8000_0000
  const INT32_MAX: int := 0x7FFF_FFFF
  const INT64_MIN: int := -0x8000_0000_0000_0000
  const INT64_MAX: int := 0x7FFF_FFFF_FFFF_FFFF

  type int32 = x: int | -0x8000_0000 <= x < 0x8000_0000
  type uint32 = x: int | 0 <= x < 0x1_0000_0000
  type int64 = x: int | -0x8000_0000_0000_0000 <= x < 0x8000_0000_0000_0000
  type uint64 = x: int | 0 <= x < 0x1_0000_0000_0000_0000

  /** An exact result stored into an `int` in an unchecked context. */
  function Wrap32(x: int): (r: int32)
    ensures (r - x) % TWO_32 == 0
    ensures INT32_MIN <= x <= INT32_MAX ==> r == x
  {
    var m := x % TWO_32;
    if m < TWO_31 then m else m - TWO_32
  }

  /** An exact result stored into a `long` in an unchecked context. */
  function Wrap64(x: int): (r: int64)
    ensures (r - x) % TWO_64 == 0
    ensures INT64_MIN <= x <= INT64_MAX ==> r == x
  {
    var m := x % TWO_64;
    if m < TWO_63 then m else m - TWO_64
  }

  /** `(uint)x`: the same 32 bits read as unsigned. */
  function AsUInt32(x: int32): (r: uint32)
    ensures (r - x) % TWO_32 == 0
    ensures x >= 0 ==> r == x
  {
    if x < 0 then x + TWO_32 else x
  }

  /** `(int)u`: the same 32 bits read as signed. */
  function AsInt32(u: uint32): (r: int32)
    ensures (r - u) % TWO_32 == 0
    ensures u <= INT32_MAX ==> r == u
  {
    if u < TWO_31 then u else u - TWO_32
  }

  /** `(ulong)x` for a `long`: the same 64 bits read as unsigned. */
  function AsUInt64(x: int64): (r: uint64)
    ensures (r - x) % TWO_64 == 0
    ensures x >= 0 ==> r == x
  {
    if x < 0 then x + TWO_64 else x
  }

  /** `(long)u` for a `ulong`: the same 64 bits read as signed. */
  function AsInt64(u: uint64): (r: int64)
    ensures (r - u) % TWO_64 == 0
    ensures u <= INT64_MAX ==> r == u
  {
    if u < TWO_63 then u else u - TWO_64
  }

  /** The bit pattern of an `int`. */
  function Bits32(x: int32): bv32 {
    AsUInt32(x) as bv32
  }

  /** Reading 32 bits as unsigned and back as signed loses nothing, in both orders. */
  lemma Reinterpret32RoundTrip(x: int32, u: uint32)
    ensures AsInt32(AsUInt32(x)) == x
    ensures AsUInt32(AsInt32(u)) == u
  {
  }

  /** Reading 64 bits as unsigned and back as signed loses nothing, in both orders. */
  lemma Reinterpret64RoundTrip(x: int64, u: uint64)
    ensures AsInt64(AsUInt64(x)) == x
    ensures AsUInt64(AsInt64(u)) == u
  {
  }

  /** A positive multiple of b is at least b. */
  lemma {:induction false} AtLeastOnce(a: int, b: int)
    requires a >= 1 && b >= 1
    ensures a * b >= b
  {
    if a > 1 {
      AtLeastOnce(a - 1, b);
      assert a * b == (a - 1) * b + b;
    }
  }

  /** C#'s `a % b` on integers: the quotient is truncated toward zero, so the
      remainder takes the sign of the dividend. */
  function Rem(a: int, b: int): int
    requires b != 0
  {
    var d := if b > 0 then b else -b;
    if a >= 0 then a % d else -((-a) % d)
  }

  /** The remainder modulo 2^32 of a number written as q * 2^32 + r. */
  lemma ModUnique32(x: int, q: int, r: int)
    requires x == q * 0x1_0000_0000 + r && 0 <= r < 0x1_0000_0000
    ensures x % TWO_32 == r
  {
  }

  /** The remainder modulo 2^64 of a number written as q * 2^64 + r. */
  lemma ModUnique64(x: int, q: int, r: int)
    requires x == q * 0x1_0000_0000_0000_0000 + r && 0 <= r < 0x1_0000_0000_0000_0000
    ensures x % TWO_64 == r
  {
  }

  /** A result at most one wrap away from the `int` range is wrapped by adding
      or subtracting 2^32 once. */
  lemma Wrap32Near(x: int)
    requires INT32_MIN - TWO_32 <= x <= INT32_MAX + TWO_32
    ensures Wrap32(x) == if x < INT32_MIN then x + TWO_32 else if x > INT32_MAX then x - TWO_32 else x
  {
    if x < -TWO_32 { ModUnique32(x, -2, x + 2 * TWO_32); }
    else if x < 0 { ModUnique32(x, -1, x + TWO_32); }
    else if x < TWO_32 { ModUnique32(x, 0, x); }
    else { ModUnique32(x, 1, x - TWO_32); }
  }

  /** A result at most one wrap away from the `long` range is wrapped by adding
      or subtracting 2^64 once. */
  lemma Wrap64Near(x: int)
    requires INT64_MIN - TWO_64 <= x <= INT64_MAX + TWO_64
    ensures Wrap64(x) == if x < INT64_MIN then x + TWO_64 else if x > INT64_MAX then x - TWO_64 else x
  {
    if x < -TWO_64 { ModUnique64(x, -2, x + 2 * TWO_64); }
    else if x < 0 { ModUnique64(x, -1, x + TWO_64); }
    else if x < TWO_64 { ModUnique64(x, 0, x); }
    else { ModUnique64(x, 1, x - TWO_64); }
  }

  /** Storing into an `int` forgets multiples of 2^32. */
  lemma Wrap32Shift(x: int, k: int)
    ensures Wrap32(x + k * 0x1_0000_0000) == Wrap32(x)
  {
    var q := x / TWO_32;
    var r := x % TWO_32;
    assert x == q * 0x1_0000_0000 + r;
    ModUnique32(x + k * 0x1_0000_0000, q + k, r);
  }
}
