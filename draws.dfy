/** What the integer draws of RNG.cs return and which state they leave behind,
    as functions of the generator's 32-bit state. The methods of the RNG class
    are proved against these functions, and the properties of the draws are
    proved about them. */
module Draws {
  import opened IntWidth
  import opened Xorshift
  import opened Results

  /** The outcome of one draw: the value or the exception, and the new state. */
  datatype Draw<T> = Draw(result: Result<T>, next: bv32)

  // ---------------------------------------------------------------------------
  // The scaled branch of the bounded draws

  /** `w & int.MaxValue`: the word with its sign bit cleared (two's complement). */
  function Masked(w: int32): (m: int)
    ensures 0 <= m <= INT32_MAX
    ensures w >= 0 ==> m == w
    ensures w < 0 ==> m == w + TWO_31
  {
    w % TWO_31
  }

  /** The integer `(int)(NextDouble() * x)` (or its `long` counterpart) that the
      scaled branch of a bounded draw computes from the masked word m behind
      NextDouble() and the multiplier x, which the code computes as span + 1.
      Floating point is not modelled: a generator is given one such function. */
  type Scaler = (int, int) -> int

  /** What a bounded draw needs of its scaled branch: for every positive
      multiplier x, one of the x values 0 .. x - 1. */
  ghost predicate ScalerInRange(f: Scaler) {
    forall m, x :: 0 <= m <= INT32_MAX && 1 <= x ==> 0 <= f(m, x) < x
  }

  /** Two facts about the double arithmetic RNG.cs performs. NextDouble() is
      `m * (1.0 / int.MaxValue)`, and for m == int.MaxValue that product rounds
      to exactly 1.0 ((1 - 2^-31) * (1 + 2^-31) = 1 - 2^-62 rounds up), so the
      scaled value is the multiplier itself whenever the multiplier is exact
      in a double. The multiplier long.MinValue gives a negative product for
      m >= 1 (|m * 2^-31 * 2^63| >= 2^32), and the product never goes below
      the multiplier. */
  ghost predicate ScalerAsWritten(f: Scaler) {
    && (forall x :: 1 <= x <= TWO_32 ==> f(INT32_MAX, x) == x)
    && (forall m :: 1 <= m <= INT32_MAX ==> INT64_MIN <= f(m, INT64_MIN) < 0)
  }

  /** Helper: the first half of ScalerAsWritten at one multiplier. */
  lemma TopWordScalesToMultiplier(f: Scaler, x: int)
    requires ScalerAsWritten(f) && 1 <= x <= TWO_32
    ensures f(INT32_MAX, x) == x
  {
  }

  /** The intended map from the masked word to [0, x - 1], in exact arithmetic:
      `m * x / 2^31`, as if NextDouble() divided by 2^31 instead of by
      int.MaxValue. */
  function UnitScale(m: int, x: int): int {
    if 0 <= m && 0 <= x then m * x / TWO_31 else 0
  }

  /** The scaled value of the source never lies in range for every multiplier. */
  lemma AsWrittenNotInRange(f: Scaler)
    requires ScalerAsWritten(f)
    ensures !ScalerInRange(f)
  {
    assert f(INT32_MAX, 1) == 1;
  }

  /** The intended scaling is in range. */
  lemma UnitScaleInRange()
    ensures ScalerInRange(UnitScale)
  {
    forall m, x | 0 <= m <= INT32_MAX && 1 <= x
      ensures 0 <= UnitScale(m, x) < x
    {
      UnitScaleBelow(m, x);
    }
  }

  lemma UnitScaleBelow(m: int, x: int)
    requires 0 <= m < TWO_31 && 1 <= x
    ensures 0 <= UnitScale(m, x) < x
  {
    AtLeastOnce(TWO_31 - m, x);
    assert m * x + (TWO_31 - m) * x == x * TWO_31;
    assert m * x >= 0;
  }

  // ---------------------------------------------------------------------------
  // Rejection loops

  /** The k-th candidate (k >= 1) of a rejection loop lies in [min, max]. */
  predicate Hit(c: nat -> int, k: nat, min: int, max: int) {
    1 <= k && min <= c(k) <= max
  }

  /** Some candidate lies in [min, max], so the rejection loop exits. */
  ghost predicate Reachable(c: nat -> int, min: int, max: int) {
    exists k: nat :: Hit(c, k, min, max)
  }

  /** The first index in [i, k] of a candidate in [min, max], given that none
      comes before i and the k-th candidate is one. */
  ghost function SearchHit(c: nat -> int, min: int, max: int, i: nat, k: nat): (j: nat)
    requires 1 <= i <= k && Hit(c, k, min, max)
    requires forall l :: 1 <= l < i ==> !Hit(c, l, min, max)
    ensures i <= j <= k && Hit(c, j, min, max)
    ensures forall l :: 1 <= l < j ==> !Hit(c, l, min, max)
    decreases k - i
  {
    if Hit(c, i, min, max) then i else SearchHit(c, min, max, i + 1, k)
  }

  /** The number of candidates a rejection loop draws: the index of the first
      one in [min, max]. */
  ghost function FirstHit(c: nat -> int, min: int, max: int): (k: nat)
    requires Reachable(c, min, max)
    ensures Hit(c, k, min, max)
    ensures forall j :: 1 <= j < k ==> !Hit(c, j, min, max)
  {
    var k0: nat :| Hit(c, k0, min, max);
    SearchHit(c, min, max, 1, k0)
  }

  /** A candidate out of range with none in range before it comes before the first hit. */
  lemma BeforeFirstHit(c: nat -> int, min: int, max: int, k: nat)
    requires Reachable(c, min, max) && 1 <= k && !Hit(c, k, min, max)
    requires forall j :: 1 <= j < k ==> !Hit(c, j, min, max)
    ensures k < FirstHit(c, min, max)
  {
  }

  /** A candidate in range with none in range before it is the first hit. */
  lemma IsFirstHit(c: nat -> int, min: int, max: int, k: nat)
    requires Reachable(c, min, max) && Hit(c, k, min, max)
    requires forall j :: 1 <= j < k ==> !Hit(c, j, min, max)
    ensures k == FirstHit(c, min, max)
  {
  }

  // ---------------------------------------------------------------------------
  // NextInt(min, max)

  /** The candidates of the rejection loop of NextInt(min, max): the words drawn from s. */
  function Words(s: bv32): nat -> int {
    k => if k >= 1 then WordAt(s, k) else 0
  }

  /** NextInt(min, max) returns: it raises, takes the scaled branch, or its
      rejection loop finds a word in range. */
  ghost predicate IntDrawReturns(s: bv32, min: int32, max: int32) {
    min > max || max - min < INT32_MAX || Reachable(Words(s), min, max)
  }

  /** The value of the scaled branch of NextInt(min, max) for the word w: the
      scaled value plus min, stored as an `int`. */
  function ScaleInt(w: int32, min: int32, max: int32, f: Scaler): int32
    requires min <= max
  {
    Wrap32(f(Masked(w), max - min + 1) + min)
  }

  /** The scaled branch of NextInt(min, max): one word is drawn. */
  function ScaledInt(s: bv32, min: int32, max: int32, f: Scaler): Draw<int32>
    requires min <= max
  {
    Draw(Ok(ScaleInt(Output(Step(s)), min, max, f)), Step(s))
  }

  /** NextInt(min, max) from state s for a span below int.MaxValue, which
      never reaches the rejection loop. */
  function SmallInt(s: bv32, min: int32, max: int32, f: Scaler): Draw<int32>
    requires max - min < INT32_MAX
  {
    if min > max then Draw(Err(ArgumentOutOfRangeException), s) else ScaledInt(s, min, max, f)
  }

  /** For such spans SmallInt is NextInt(min, max). */
  lemma SmallIntIsBoundedInt(s: bv32, min: int32, max: int32, f: Scaler)
    requires max - min < INT32_MAX
    ensures SmallInt(s, min, max, f) == BoundedInt(s, min, max, f)
  {
  }

  /** NextInt(min, max) from state s. */
  ghost function BoundedInt(s: bv32, min: int32, max: int32, f: Scaler): Draw<int32>
    requires IntDrawReturns(s, min, max)
  {
    if min > max then Draw(Err(ArgumentOutOfRangeException), s)
    else if max - min < INT32_MAX then ScaledInt(s, min, max, f)
    else RejectedInt(s, min, max)
  }

  /** The rejection branch of NextInt(min, max): the first word in range. */
  ghost function RejectedInt(s: bv32, min: int32, max: int32): Draw<int32>
    requires Reachable(Words(s), min, max)
  {
    var k := FirstHit(Words(s), min, max);
    Draw(Ok(WordAt(s, k)), Iterate(s, k))
  }

  /** NextInt(min, max) raises exactly when min > max, and then leaves the state alone. */
  lemma BoundedIntRaises(s: bv32, min: int32, max: int32, f: Scaler)
    requires IntDrawReturns(s, min, max)
    ensures BoundedInt(s, min, max, f).result.Err? <==> min > max
    ensures min > max ==> BoundedInt(s, min, max, f) == Draw(Err(ArgumentOutOfRangeException), s)
  {
  }

  /** When max - min < int.MaxValue (also when min == max), NextInt(min, max)
      draws exactly one word, and its result lies in [min, max] whenever the
      scaled value is in range. */
  lemma BoundedIntScaled(s: bv32, min: int32, max: int32, f: Scaler)
    requires min <= max && max - min < INT32_MAX
    ensures BoundedInt(s, min, max, f).result.Ok? && BoundedInt(s, min, max, f).next == Step(s)
    ensures ScalerInRange(f) ==> min <= BoundedInt(s, min, max, f).result.value <= max
  {
    if ScalerInRange(f) {
      var m := Masked(Output(Step(s)));
      assert 0 <= f(m, max - min + 1) < max - min + 1;
    }
  }

  /** When max - min >= int.MaxValue, NextInt(min, max) returns the first drawn
      word in [min, max], and the state is the one that produced it. */
  lemma BoundedIntRejects(s: bv32, min: int32, max: int32, f: Scaler)
    requires min <= max && max - min >= INT32_MAX && Reachable(Words(s), min, max)
    ensures var d := BoundedInt(s, min, max, f);
      exists k: nat :: Hit(Words(s), k, min, max) && d == Draw(Ok(WordAt(s, k)), Iterate(s, k))
        && forall j :: 1 <= j < k ==> !Hit(Words(s), j, min, max)
    ensures BoundedInt(s, min, max, f).result.Ok?
    ensures min <= BoundedInt(s, min, max, f).result.value <= max
  {
    var k := FirstHit(Words(s), min, max);
    assert BoundedInt(s, min, max, f) == Draw(Ok(WordAt(s, k)), Iterate(s, k));
  }

  /** With the source's double arithmetic, a word that masks to int.MaxValue
      makes the scaled branch of NextInt(min, max) return max + 1 (wrapped into
      an `int`). */
  lemma ScaledIntOvershoots(w: int32, min: int32, max: int32, f: Scaler)
    requires ScalerAsWritten(f) && min <= max && max - min < INT32_MAX
    requires Masked(w) == INT32_MAX
    ensures ScaleInt(w, min, max, f) == Wrap32(max + 1)
  {
    TopWordScalesToMultiplier(f, max - min + 1);
  }

  /** A state whose next word is int.MaxValue, the word NextDouble() turns into 1.0. */
  const TopWordState: bv32 := 0x5D07_0FF2

  /** NextInt(0, 9) from TopWordState yields 10. */
  lemma NextIntTenOfTen(f: Scaler)
    requires ScalerAsWritten(f)
    ensures BoundedInt(TopWordState, 0, 9, f).result == Ok(10)
  {
    assert Step(TopWordState) == 0xFFFF_FFFF;
    assert Output(Step(TopWordState)) == INT32_MAX;
    ScaledIntOvershoots(INT32_MAX, 0, 9, f);
  }

  /** NextInt(5, 5) from TopWordState draws one word and yields 6, not 5. */
  lemma NextIntFiveOfFive(f: Scaler)
    requires ScalerAsWritten(f)
    ensures BoundedInt(TopWordState, 5, 5, f) == Draw(Ok(6), Step(TopWordState))
  {
    assert Step(TopWordState) == 0xFFFF_FFFF;
    assert Output(Step(TopWordState)) == INT32_MAX;
    ScaledIntOvershoots(INT32_MAX, 5, 5, f);
  }

  // ---------------------------------------------------------------------------
  // NextLong() and NextULong()

  /** `lo + ((long)hi << 32)` in unchecked `long` arithmetic: the first word,
      sign-extended, plus the second word shifted into the high half. The shift
      itself is exact (|hi * 2^32| <= 2^63); only the addition can wrap. */
  function LongOf(lo: int32, hi: int32): (r: int64)
    ensures (r - (lo + hi * TWO_32)) % TWO_64 == 0
  {
    Wrap64(lo + hi * 0x1_0000_0000)
  }

  /** The two words a `long` is assembled from. */
  function SplitLong(x: int64): (int32, int32) {
    var lo := Wrap32(x);
    (lo, Wrap32((x - lo) / TWO_32))
  }

  /** Assembling two words into a `long` loses nothing. */
  lemma SplitLongOf(lo: int32, hi: int32)
    ensures SplitLong(LongOf(lo, hi)) == (lo, hi)
  {
    var L := lo + hi * 0x1_0000_0000;
    Wrap64Near(L);
    var e := if L < INT64_MIN then 1 else if L > INT64_MAX then -1 else 0;
    var r := LongOf(lo, hi);
    assert r == lo + (hi + e * 0x1_0000_0000) * 0x1_0000_0000;
    Wrap32Shift(lo, hi + e * 0x1_0000_0000);
    assert (r - lo) / TWO_32 == hi + e * 0x1_0000_0000;
    Wrap32Shift(hi, e);
  }

  /** Every `long` is assembled from the two words SplitLong gives. */
  lemma LongOfSplit(x: int64)
    ensures LongOf(SplitLong(x).0, SplitLong(x).1) == x
  {
    var lo := Wrap32(x);
    var c := (x - lo) / TWO_32;
    assert x - lo == c * 0x1_0000_0000;
    Wrap32Near(c);
    var b: int := Wrap32(c);
    var e := if c < INT32_MIN then 1 else if c > INT32_MAX then -1 else 0;
    assert b == c + e * 0x1_0000_0000;
    assert lo + b * 0x1_0000_0000 == x + e * 0x1_0000_0000_0000_0000;
    Wrap64Near(x + e * 0x1_0000_0000_0000_0000);
  }

  /** NextLong() from state s: two words, low word first. */
  function LongFrom(s: bv32): int64 {
    LongOf(Output(Step(s)), Output(Step(Step(s))))
  }

  /** `(ulong)lo + ((ulong)hi << 32)` in unchecked `ulong` arithmetic: both
      words sign-extended to 64 bits, the second one shifted out of range at
      the top. */
  function ULongOf(lo: int32, hi: int32): uint64 {
    (AsUInt64(lo) + (AsUInt64(hi) * TWO_32) % TWO_64) % TWO_64
  }

  /** NextULong() returns the same 64 bits as NextLong() from the same state. */
  lemma ULongIsLongBits(lo: int32, hi: int32)
    ensures ULongOf(lo, hi) == AsUInt64(LongOf(lo, hi))
  {
    var H := if hi < 0 then hi * 0x1_0000_0000 + TWO_64 else hi * 0x1_0000_0000;
    if hi < 0 {
      ModUnique64(AsUInt64(hi) * 0x1_0000_0000, 0xFFFF_FFFF, H);
    } else {
      ModUnique64(AsUInt64(hi) * 0x1_0000_0000, 0, H);
    }
    var A := AsUInt64(lo);
    if A + H < TWO_64 {
      ModUnique64(A + H, 0, A + H);
    } else {
      ModUnique64(A + H, 1, A + H - TWO_64);
    }
    Wrap64Near(lo + hi * 0x1_0000_0000);
  }

  // ---------------------------------------------------------------------------
  // NextLong(min, max)

  /** The k-th `long` candidate drawn from state s (k >= 1), made of words 2k-1 and 2k. */
  function LongAt(s: bv32, k: nat): int64
    requires k >= 1
    decreases k
  {
    if k == 1 then LongFrom(s) else LongAt(Step(Step(s)), k - 1)
  }

  /** Candidate k + 1 is NextLong() from the state after 2k words. */
  lemma {:induction false} LongAtIterate(s: bv32, k: nat)
    ensures LongAt(s, k + 1) == LongFrom(Iterate(s, 2 * k))
    decreases k
  {
    if k > 0 {
      LongAtIterate(Step(Step(s)), k - 1);
    }
  }

  /** The candidates of the rejection loop of NextLong(min, max). */
  function Longs(s: bv32): nat -> int {
    k => if k >= 1 then LongAt(s, k) else 0
  }

  /** NextLong(min, max) returns: it raises, takes the scaled branch, or its
      rejection loop finds a candidate in range. */
  ghost predicate LongDrawReturns(s: bv32, min: int64, max: int64) {
    min > max || Wrap64(max - min) >= 0 || Reachable(Longs(s), min, max)
  }

  /** The value of the scaled branch of NextLong(min, max) for the word w: the
      multiplier is `n + 1` in unchecked `long` arithmetic (long.MinValue when
      n is long.MaxValue), and the scaled value plus min is stored as a `long`. */
  function ScaleLong(w: int32, min: int64, max: int64, f: Scaler): int64
    requires min <= max
  {
    var n := Wrap64(max - min);
    Wrap64(f(Masked(w), Wrap64(n + 1)) + min)
  }

  /** The scaled branch of NextLong(min, max): one word is drawn. */
  function ScaledLong(s: bv32, min: int64, max: int64, f: Scaler): Draw<int64>
    requires min <= max
  {
    Draw(Ok(ScaleLong(Output(Step(s)), min, max, f)), Step(s))
  }

  /** NextLong(min, max) from state s. */
  ghost function BoundedLong(s: bv32, min: int64, max: int64, f: Scaler): Draw<int64>
    requires LongDrawReturns(s, min, max)
  {
    if min > max then Draw(Err(ArgumentOutOfRangeException), s)
    else if Wrap64(max - min) >= 0 then ScaledLong(s, min, max, f)
    else RejectedLong(s, min, max)
  }

  /** The rejection branch of NextLong(min, max): the first candidate in range,
      after two words per candidate. */
  ghost function RejectedLong(s: bv32, min: int64, max: int64): Draw<int64>
    requires Reachable(Longs(s), min, max)
  {
    var k := FirstHit(Longs(s), min, max);
    Draw(Ok(LongAt(s, k)), Iterate(s, 2 * k))
  }

  /** NextLong(min, max) raises exactly when min > max, and then leaves the state alone. */
  lemma BoundedLongRaises(s: bv32, min: int64, max: int64, f: Scaler)
    requires LongDrawReturns(s, min, max)
    ensures BoundedLong(s, min, max, f).result.Err? <==> min > max
    ensures min > max ==> BoundedLong(s, min, max, f) == Draw(Err(ArgumentOutOfRangeException), s)
  {
  }

  /** When max - min does not overflow a `long` (also when min == max),
      NextLong(min, max) draws exactly one word, and its result lies in
      [min, max] whenever the scaled value is in range and the multiplier
      max - min + 1 does not overflow either. */
  lemma BoundedLongScaled(s: bv32, min: int64, max: int64, f: Scaler)
    requires min <= max && max - min <= INT64_MAX
    ensures LongDrawReturns(s, min, max)
    ensures BoundedLong(s, min, max, f).result.Ok? && BoundedLong(s, min, max, f).next == Step(s)
    ensures ScalerInRange(f) && max - min < INT64_MAX ==>
      min <= BoundedLong(s, min, max, f).result.value <= max
  {
    Wrap64Near(max - min);
    assert BoundedLong(s, min, max, f) == ScaledLong(s, min, max, f);
    if ScalerInRange(f) && max - min < INT64_MAX {
      var m := Masked(Output(Step(s)));
      assert 0 <= f(m, max - min + 1) < max - min + 1;
    }
  }

  /** When max - min overflows a `long`, NextLong(min, max) returns the first
      candidate in [min, max], two words per candidate. */
  lemma BoundedLongRejects(s: bv32, min: int64, max: int64, f: Scaler)
    requires min <= max && max - min > INT64_MAX && Reachable(Longs(s), min, max)
    ensures var d := BoundedLong(s, min, max, f);
      exists k: nat :: Hit(Longs(s), k, min, max) && d == Draw(Ok(LongAt(s, k)), Iterate(s, 2 * k))
        && forall j :: 1 <= j < k ==> !Hit(Longs(s), j, min, max)
    ensures BoundedLong(s, min, max, f).result.Ok?
    ensures min <= BoundedLong(s, min, max, f).result.value <= max
  {
    Wrap64Near(max - min);
    assert BoundedLong(s, min, max, f) == RejectedLong(s, min, max);
    var k := FirstHit(Longs(s), min, max);
    assert Longs(s)(k) == LongAt(s, k);
    assert RejectedLong(s, min, max) == Draw(Ok(LongAt(s, k)), Iterate(s, 2 * k));
  }

  /** When max - min is exactly long.MaxValue — NextLong(long.MaxValue) is one
      such call — the multiplier n + 1 wraps to long.MinValue, and with any
      word that does not mask to zero the scaled branch returns a value outside
      [min, max]: below min, or past max once the sum wraps. */
  lemma ScaledLongOutOfRange(w: int32, min: int64, max: int64, f: Scaler)
    requires ScalerAsWritten(f) && min <= max && max - min == INT64_MAX
    requires Masked(w) != 0
    ensures !(min <= ScaleLong(w, min, max, f) <= max)
    ensures min == 0 ==> ScaleLong(w, min, max, f) < 0
  {
    Wrap64Near(max - min + 1);
    var m := Masked(w);
    assert INT64_MIN <= f(m, INT64_MIN) < 0;
    Wrap64Near(f(m, INT64_MIN) + min);
  }

  /** NextLong(0, long.MaxValue), which is NextLong(long.MaxValue), takes the
      scaled branch and returns a negative value unless the word masks to zero. */
  lemma NextLongMaxNegative(s: bv32, f: Scaler)
    requires ScalerAsWritten(f) && Masked(Output(Step(s))) != 0
    ensures LongDrawReturns(s, 0, INT64_MAX)
    ensures BoundedLong(s, 0, INT64_MAX, f).result.Ok?
    ensures BoundedLong(s, 0, INT64_MAX, f).result.value < 0
  {
    BoundedLongScaled(s, 0, INT64_MAX, f);
    assert BoundedLong(s, 0, INT64_MAX, f) == ScaledLong(s, 0, INT64_MAX, f);
    ScaledLongOutOfRange(Output(Step(s)), 0, INT64_MAX, f);
  }

  /** NextLong(min, max) with the multiplier computed without overflow, as the
      scaled branch evidently intends. */
  function ScaledLongFixed(s: bv32, min: int64, max: int64, f: Scaler): Draw<int64>
    requires min <= max
  {
    Draw(Ok(Wrap64(f(Masked(Output(Step(s))), max - min + 1) + min)), Step(s))
  }

  ghost function BoundedLongFixed(s: bv32, min: int64, max: int64, f: Scaler): Draw<int64>
    requires LongDrawReturns(s, min, max)
  {
    if min > max then Draw(Err(ArgumentOutOfRangeException), s)
    else if Wrap64(max - min) >= 0 then ScaledLongFixed(s, min, max, f)
    else RejectedLong(s, min, max)
  }

  /** The corrected NextLong(min, max) raises exactly when min > max, leaving
      the state alone, and otherwise returns a value in [min, max] whenever the
      scaled value is in range, for every span including long.MaxValue. */
  lemma BoundedLongFixedContract(s: bv32, min: int64, max: int64, f: Scaler)
    requires LongDrawReturns(s, min, max)
    ensures BoundedLongFixed(s, min, max, f).result.Err? <==> min > max
    ensures min > max ==> BoundedLongFixed(s, min, max, f).next == s
    ensures min <= max && (max - min > INT64_MAX || ScalerInRange(f)) ==>
      min <= BoundedLongFixed(s, min, max, f).result.value <= max
  {
    if min <= max {
      Wrap64Near(max - min);
      if max - min <= INT64_MAX {
        assert BoundedLongFixed(s, min, max, f) == ScaledLongFixed(s, min, max, f);
        if ScalerInRange(f) {
          var m := Masked(Output(Step(s)));
          assert 0 <= f(m, max - min + 1) < max - min + 1;
        }
      } else {
        assert BoundedLongFixed(s, min, max, f) == BoundedLong(s, min, max, f);
        BoundedLongRejects(s, min, max, f);
      }
    }
  }

  // ---------------------------------------------------------------------------
  // NextUInt(min, max) and NextULong(min, max)

  /** A signed draw read back as unsigned. */
  function AsUnsigned32(d: Draw<int32>): Draw<uint32> {
    Draw(if d.result.Ok? then Ok(AsUInt32(d.result.value)) else Err(d.result.error), d.next)
  }

  function AsUnsigned64(d: Draw<int64>): Draw<uint64> {
    Draw(if d.result.Ok? then Ok(AsUInt64(d.result.value)) else Err(d.result.error), d.next)
  }

  /** NextUInt(min, max): NextInt over the bounds read as signed `int`s. */
  ghost function BoundedUInt(s: bv32, min: uint32, max: uint32, f: Scaler): Draw<uint32>
    requires IntDrawReturns(s, AsInt32(min), AsInt32(max))
  {
    AsUnsigned32(BoundedInt(s, AsInt32(min), AsInt32(max), f))
  }

  /** NextULong(min, max): NextLong over the bounds read as signed `long`s. */
  ghost function BoundedULong(s: bv32, min: uint64, max: uint64, f: Scaler): Draw<uint64>
    requires LongDrawReturns(s, AsInt64(min), AsInt64(max))
  {
    AsUnsigned64(BoundedLong(s, AsInt64(min), AsInt64(max), f))
  }

  /** NextUInt(min, max) raises exactly when the signed readings of the bounds
      are out of order, not when min > max: a lower bound below 2^31 with an
      upper bound above it raises, and the reverse does not. */
  lemma BoundedUIntSignedOrder(s: bv32, min: uint32, max: uint32, f: Scaler)
    requires IntDrawReturns(s, AsInt32(min), AsInt32(max))
    ensures BoundedUInt(s, min, max, f).result.Err? <==> AsInt32(min) > AsInt32(max)
    ensures min <= INT32_MAX < max ==> BoundedUInt(s, min, max, f) == Draw(Err(ArgumentOutOfRangeException), s)
    ensures max <= INT32_MAX < min ==> BoundedUInt(s, min, max, f).result.Ok?
  {
    BoundedIntRaises(s, AsInt32(min), AsInt32(max), f);
  }

  /** NextUInt(0, 3000000000) raises although 0 <= 3000000000. */
  lemma NextUIntRejectsValidBounds(s: bv32, f: Scaler)
    ensures BoundedUInt(s, 0, 3000000000, f) == Draw(Err(ArgumentOutOfRangeException), s)
  {
    BoundedUIntSignedOrder(s, 0, 3000000000, f);
  }

  /** NextULong(min, max) raises exactly when the signed readings of the bounds
      are out of order. */
  lemma BoundedULongSignedOrder(s: bv32, min: uint64, max: uint64, f: Scaler)
    requires LongDrawReturns(s, AsInt64(min), AsInt64(max))
    ensures BoundedULong(s, min, max, f).result.Err? <==> AsInt64(min) > AsInt64(max)
    ensures min <= INT64_MAX < max ==> BoundedULong(s, min, max, f) == Draw(Err(ArgumentOutOfRangeException), s)
    ensures max <= INT64_MAX < min ==> BoundedULong(s, min, max, f).result.Ok?
  {
    BoundedLongRaises(s, AsInt64(min), AsInt64(max), f);
  }

  /** NextULong(0, 2^63) raises although 0 <= 2^63. */
  lemma NextULongRejectsValidBounds(s: bv32, f: Scaler)
    ensures BoundedULong(s, 0, TWO_63, f) == Draw(Err(ArgumentOutOfRangeException), s)
  {
    BoundedULongSignedOrder(s, 0, TWO_63, f);
  }

  /** A bounded unsigned draw whose bounds are moved into the signed range by
      subtracting 2^31, which keeps their order, and whose result is moved back. */
  ghost function BoundedUIntShifted(s: bv32, min: uint32, max: uint32, f: Scaler): Draw<uint32>
    requires IntDrawReturns(s, min - TWO_31, max - TWO_31)
  {
    var d := BoundedInt(s, min - TWO_31, max - TWO_31, f);
    Draw(if d.result.Ok? then Ok((d.result.value + TWO_31) % TWO_32) else Err(d.result.error), d.next)
  }

  /** The shifted unsigned draw raises exactly when min > max, leaving the state
      alone, and otherwise returns a value in [min, max] whenever the scaled
      value is in range (always, in the rejection branch). */
  lemma BoundedUIntShiftedContract(s: bv32, min: uint32, max: uint32, f: Scaler)
    requires IntDrawReturns(s, min - TWO_31, max - TWO_31)
    ensures BoundedUIntShifted(s, min, max, f).result.Err? <==> min > max
    ensures min > max ==> BoundedUIntShifted(s, min, max, f).next == s
    ensures min <= max && (max - min >= INT32_MAX || ScalerInRange(f)) ==>
      min <= BoundedUIntShifted(s, min, max, f).result.value <= max
  {
    var lo, hi := min - TWO_31, max - TWO_31;
    var d := BoundedInt(s, lo, hi, f);
    BoundedIntRaises(s, lo, hi, f);
    if min <= max && (max - min >= INT32_MAX || ScalerInRange(f)) {
      if hi - lo < INT32_MAX {
        BoundedIntScaled(s, lo, hi, f);
      } else {
        BoundedIntRejects(s, lo, hi, f);
      }
      ModUnique32(d.result.value + TWO_31, 0, d.result.value + TWO_31);
    }
  }

  /** The same for `ulong`, shifting by 2^63 and using the corrected NextLong. */
  ghost function BoundedULongShifted(s: bv32, min: uint64, max: uint64, f: Scaler): Draw<uint64>
    requires LongDrawReturns(s, min - TWO_63, max - TWO_63)
  {
    var d := BoundedLongFixed(s, min - TWO_63, max - TWO_63, f);
    Draw(if d.result.Ok? then Ok((d.result.value + TWO_63) % TWO_64) else Err(d.result.error), d.next)
  }

  lemma BoundedULongShiftedContract(s: bv32, min: uint64, max: uint64, f: Scaler)
    requires LongDrawReturns(s, min - TWO_63, max - TWO_63)
    ensures BoundedULongShifted(s, min, max, f).result.Err? <==> min > max
    ensures min > max ==> BoundedULongShifted(s, min, max, f).next == s
    ensures min <= max && (max - min > INT64_MAX || ScalerInRange(f)) ==>
      min <= BoundedULongShifted(s, min, max, f).result.value <= max
  {
    var lo, hi := min - TWO_63, max - TWO_63;
    var d := BoundedLongFixed(s, lo, hi, f);
    BoundedLongFixedContract(s, lo, hi, f);
    if min <= max && (max - min > INT64_MAX || ScalerInRange(f)) {
      ModUnique64(d.result.value + TWO_63, 0, d.result.value + TWO_63);
    }
  }
}
