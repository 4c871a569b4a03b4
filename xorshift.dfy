/** The state engine of the generator (RNG.cs, NextState): one 32-bit word
    advanced by an additive constant followed by a xorshift mix. */
module Xorshift {
  import opened IntWidth

  /** The odd constant added to the state before mixing, so that the
      all-zero fixed point of the shift-xor recurrence is left at once. */
  const Increment: bv32 := 23457013

  /** Shift-xor round r (1, 2 or 3) of NextState: by 13 left, 17 right, 5 left. */
  function ShiftRound(y: bv32, r: nat): bv32 {
    if r == 1 then y ^ (y << 13)
    else if r == 2 then y ^ (y >> 17)
    else y ^ (y << 5)
  }

  /** The state after the first r updates of NextState (0 <= r <= 3): the
      unchecked addition, then the shift-xor rounds. */
  function Rounds(s: bv32, r: nat): bv32 {
    if r == 0 then s + Increment else ShiftRound(Rounds(s, r - 1), r)
  }

  /** The state after one call of NextState. */
  function Step(s: bv32): bv32 {
    Rounds(s, 3)
  }

  /** One call of NextState is the addition followed by the three rounds. */
  lemma StepRounds(s: bv32)
    ensures Step(s) == ShiftRound(ShiftRound(ShiftRound(s + Increment, 1), 2), 3)
  {
    assert Rounds(s, 1) == ShiftRound(s + Increment, 1);
    assert Rounds(s, 2) == ShiftRound(Rounds(s, 1), 2);
  }

  lemma FirstRound(y: bv32)
    ensures ShiftRound(y, 1) == y ^ (y << 13)
  {
  }

  lemma SecondRound(y: bv32)
    ensures ShiftRound(y, 2) == y ^ (y >> 17)
  {
  }

  lemma ThirdRound(y: bv32)
    ensures ShiftRound(y, 3) == y ^ (y << 5)
  {
  }

  /** The `int` NextState returns once the state has become `t`,
      `(int)(t ^ int.MinValue)`: the state with its sign bit flipped, read as
      signed. That is the state shifted down by 2^31, so distinct states give
      distinct outputs. */
  function Output(t: bv32): (r: int32)
    ensures r == AsInt32((t ^ 0x8000_0000) as int)
  {
    FlipSignBit(t);
    var u := (t ^ 0x8000_0000) as int;
    assert t < 0x8000_0000 ==> AsInt32(u) == u - TWO_32;
    assert t >= 0x8000_0000 ==> AsInt32(u) == u;
    t as int - TWO_31
  }

  /** Flipping the top bit adds 2^31 to a state below 2^31 and subtracts it otherwise. */
  lemma FlipSignBit(t: bv32)
    ensures t < 0x8000_0000 ==> (t ^ 0x8000_0000) as int == t as int + TWO_31
    ensures t >= 0x8000_0000 ==> (t ^ 0x8000_0000) as int == t as int - TWO_31
  {
  }

  /** The state never stays at zero for two transitions in a row. */
  lemma NeverRestsAtZero(s: bv32)
    ensures Step(s) == 0 ==> Step(Step(s)) != 0
  {
    assert Step(0) == 0x2399_4388;
  }

  /** The state after `k` calls of NextState: k - 1 calls after the first. */
  function Iterate(s: bv32, k: nat): bv32
    decreases k
  {
    if k == 0 then s else Iterate(Step(s), k - 1)
  }

  /** The last of k + 1 calls advances the state the first k reached. */
  lemma {:induction false} IterateStep(s: bv32, k: nat)
    ensures Iterate(s, k + 1) == Step(Iterate(s, k))
    decreases k
  {
    if k > 0 {
      IterateStep(Step(s), k - 1);
    }
  }

  /** Running `a` steps and then `b` steps is running `a + b` steps. */
  lemma {:induction false} IterateAdd(s: bv32, a: nat, b: nat)
    ensures Iterate(Iterate(s, a), b) == Iterate(s, a + b)
    decreases a
  {
    if a > 0 {
      IterateAdd(Step(s), a - 1, b);
    }
  }

  /** Two more calls of NextState. */
  lemma IterateTwo(s: bv32, k: nat)
    ensures Iterate(s, k + 2) == Step(Step(Iterate(s, k)))
  {
    IterateStep(s, k);
    IterateStep(s, k + 1);
  }

  /** The `k`-th word drawn from state `s` (k >= 1). */
  function WordAt(s: bv32, k: nat): int32
    requires k >= 1
    decreases k
  {
    if k == 1 then Output(Step(s)) else WordAt(Step(s), k - 1)
  }

  /** The k-th word is the output of the state after k calls. */
  lemma {:induction false} WordAtIterate(s: bv32, k: nat)
    requires k >= 1
    ensures WordAt(s, k) == Output(Iterate(s, k))
    decreases k
  {
    if k > 1 {
      WordAtIterate(Step(s), k - 1);
    }
  }
}
