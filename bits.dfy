/** NextBits (RNG.cs): an `int` built by OR-ing one shifted word per requested
    bit. Bitwise OR and shifts of non-negative values are stated in integer
    arithmetic. */
module Bits {
  import opened IntWidth
  import opened Xorshift
  import opened Draws

  function Pow2(k: nat): (p: nat)
    ensures p >= 1
  {
    if k == 0 then 1 else 2 * Pow2(k - 1)
  }

  /** `a | b` on non-negative integers, bit by bit from the lowest. */
  function BitOr(a: nat, b: nat): nat
    decreases a + b
  {
    if a == 0 then b
    else if b == 0 then a
    else 2 * BitOr(a / 2, b / 2) + (if a % 2 == 1 || b % 2 == 1 then 1 else 0)
  }

  /** OR never clears a bit: the result is at least each operand. */
  lemma {:induction false} BitOrCovers(a: nat, b: nat)
    ensures a <= BitOr(a, b) && b <= BitOr(a, b)
    decreases a + b
  {
    if a != 0 && b != 0 {
      BitOrCovers(a / 2, b / 2);
    }
  }

  /** OR never sets a bit above the operands' highest bit: two values below 2^k
      give a value below 2^k. */
  lemma {:induction false} BitOrBelow(a: nat, b: nat, k: nat)
    requires a < Pow2(k) && b < Pow2(k)
    ensures BitOr(a, b) < Pow2(k)
    decreases a + b
  {
    if a != 0 && b != 0 {
      assert k >= 1;
      BitOrBelow(a / 2, b / 2, k - 1);
    }
  }

  /** A value below 2^k is below 2^j for every j >= k. */
  lemma {:induction false} Pow2Monotone(k: nat, j: nat)
    requires k <= j
    ensures Pow2(k) <= Pow2(j)
    decreases j
  {
    if k < j {
      Pow2Monotone(k, j - 1);
    }
  }

  lemma {:induction false} Pow2Add(a: nat, b: nat)
    ensures Pow2(a + b) == Pow2(a) * Pow2(b)
    decreases b
  {
    if b > 0 {
      Pow2Add(a, b - 1);
    }
  }

  lemma Pow2Of31()
    ensures Pow2(31) == TWO_31
  {
    assert Pow2(8) == 256;
    assert Pow2(7) == 128;
    Pow2Add(8, 8);
    Pow2Add(8, 7);
    Pow2Add(16, 15);
  }

  /** `m >> k` on a non-negative integer. */
  function ShiftRight(m: nat, k: nat): nat {
    if k == 0 then m else ShiftRight(m / 2, k - 1)
  }

  /** Shifting a value below 2^(a+b) right by b bits gives a value below 2^a. */
  lemma {:induction false} ShiftBelow(m: nat, a: nat, b: nat)
    requires m < Pow2(a + b)
    ensures ShiftRight(m, b) < Pow2(a)
    decreases b
  {
    if b > 0 {
      assert Pow2(a + b) == 2 * Pow2(a + b - 1);
      ShiftBelow(m / 2, a, b - 1);
    }
  }

  /** The term `(NextInt() & int.MaxValue) >> (32 - (i + 2))` of draw i: the
      shift count is taken modulo 32, as C# does for `int`. */
  function BitsTerm(w: int32, i: nat): nat {
    ShiftRight(Masked(w), (32 - (i + 2)) % 32)
  }

  /** Draw i (counting from 0) contributes at most i + 1 bits, and never more than 31. */
  lemma TermBound(w: int32, i: nat)
    ensures BitsTerm(w, i) < Pow2(31)
    ensures i <= 30 ==> BitsTerm(w, i) < Pow2(i + 1)
  {
    Pow2Of31();
    ShiftBelow(Masked(w), 31, 0);
    if i <= 30 {
      assert (32 - (i + 2)) % 32 == 30 - i;
      ShiftBelow(Masked(w), i + 1, 30 - i);
      Pow2Monotone(i + 1, 31);
    } else {
      ShiftBelow(Masked(w), 31 - (32 - (i + 2)) % 32, (32 - (i + 2)) % 32);
      Pow2Monotone(31 - (32 - (i + 2)) % 32, 31);
    }
  }

  /** The value of NextBits(k) from state s, after its k words. */
  function BitsValue(s: bv32, k: nat): nat {
    if k == 0 then 0 else BitOr(BitsValue(s, k - 1), BitsTerm(WordAt(s, k), k - 1))
  }

  /** NextBits(k) has at most k bits (for k <= 31), and at most 31 for any k:
      it is a non-negative `int`. Each further draw never decreases the value. */
  lemma {:induction false} BitsValueBound(s: bv32, k: nat)
    ensures k <= 31 ==> BitsValue(s, k) < Pow2(k)
    ensures BitsValue(s, k) < Pow2(31)
    ensures k >= 1 ==> BitsValue(s, k - 1) <= BitsValue(s, k)
  {
    if k > 0 {
      BitsValueBound(s, k - 1);
      var w := WordAt(s, k);
      TermBound(w, k - 1);
      BitOrCovers(BitsValue(s, k - 1), BitsTerm(w, k - 1));
      BitOrBelow(BitsValue(s, k - 1), BitsTerm(w, k - 1), 31);
      if k <= 31 {
        Pow2Monotone(k - 1, k);
        BitOrBelow(BitsValue(s, k - 1), BitsTerm(w, k - 1), k);
      }
    }
  }
}
