/** RNGExtensions.cs: Shuffle, an in-place swap loop over a list that draws
    one bounded index per element, and Random(Range), a bounded draw over the
    range's index values. A list is modelled as an array. */
module Extensions {
  import opened IntWidth
  import opened Xorshift
  import opened Results
  import opened Draws
  import opened Randomizer

  /** The list after iteration i has exchanged elements i and j. */
  function Swap<T>(xs: seq<T>, i: nat, j: nat): (ys: seq<T>)
    requires i < |xs| && j < |xs|
    ensures |ys| == |xs| && ys[i] == xs[j] && ys[j] == xs[i]
    ensures forall k :: 0 <= k < |xs| && k != i && k != j ==> ys[k] == xs[k]
  {
    xs[i := xs[j]][j := xs[i]]
  }

  /** An exchange of two elements keeps the multiset of elements. */
  lemma SwapPermutes<T>(xs: seq<T>, i: nat, j: nat)
    requires i < |xs| && j < |xs|
    ensures multiset(Swap(xs, i, j)) == multiset(xs)
  {
    var ys := xs[i := xs[j]];
    assert multiset(ys) == multiset(xs) - multiset{xs[i]} + multiset{xs[j]};
    assert ys[j] == (if i == j then xs[j] else xs[j]);
  }

  /** The list, the exception if one ended the loop, and the state of the generator. */
  datatype Shuffled<T> = Shuffled(items: seq<T>, failure: Option<Error>, next: bv32)

  /** Iterations i, i + 1, ... of Shuffle on a list holding xs, from state s:
      NextInt(i, length - 1) draws the index (always the scaled branch, since
      the span is below int.MaxValue), reading the list at an index outside it
      raises, and otherwise elements i and index are exchanged. */
  function ShuffleFrom<T>(xs: seq<T>, s: bv32, i: nat, f: Scaler): (r: Shuffled<T>)
    requires i <= |xs| <= INT32_MAX
    ensures |r.items| == |xs|
    decreases |xs| - i
  {
    if i == |xs| then Shuffled(xs, None, s)
    else
      var d := SmallInt(s, i, |xs| - 1, f);
      var j := d.result.value;
      if j < 0 || j >= |xs| then Shuffled(xs, Some(IndexOutOfRangeException), d.next)
      else ShuffleFrom(Swap(xs, i, j), d.next, i + 1, f)
  }

  /** One iteration of ShuffleFrom, in terms of its index draw d. */
  lemma ShuffleFromStep<T>(xs: seq<T>, s: bv32, i: nat, f: Scaler, d: Draw<int32>)
    requires i < |xs| <= INT32_MAX && d == SmallInt(s, i, |xs| - 1, f)
    ensures d.result.Ok?
    ensures 0 <= d.result.value < |xs| ==> ShuffleFrom(xs, s, i, f) == ShuffleFrom(Swap(xs, i, d.result.value), d.next, i + 1, f)
    ensures !(0 <= d.result.value < |xs|) ==> ShuffleFrom(xs, s, i, f) == Shuffled(xs, Some(IndexOutOfRangeException), d.next)
  {
  }

  /** Shuffle(list, rng) on a list holding xs, from state s. */
  function ShuffleList<T>(xs: seq<T>, s: bv32, f: Scaler): Shuffled<T>
    requires |xs| <= INT32_MAX
  {
    ShuffleFrom(xs, s, 0, f)
  }

  /** `Shuffle(list, rng)`: for each position i from the front, exchange it
      with the element at NextInt(i, length - 1). */
  method Shuffle<T>(list: array<T>, rng: RNG) returns (failure: Option<Error>)
    requires list.Length <= INT32_MAX
    modifies list, rng
    ensures Shuffled(list[..], failure, rng.state) == ShuffleList(old(list[..]), old(rng.state), rng.scale)
  {
    var length := list.Length;
    for i := 0 to length
      invariant ShuffleFrom(list[..], rng.state, i, rng.scale) == ShuffleList(old(list[..]), old(rng.state), rng.scale)
    {
      failure := ShuffleStep(list, rng, i);
      if failure.Some? {
        return;
      }
    }
    failure := None;
  }

  /** Iteration i of Shuffle: `index = rng.NextInt(i, length - 1)`, then the
      exchange through `temp`; reading the list at index raises when index is
      outside it, before anything is written. */
  method ShuffleStep<T>(list: array<T>, rng: RNG, i: nat) returns (failure: Option<Error>)
    requires i < list.Length <= INT32_MAX
    modifies list, rng
    ensures failure.None? ==>
      ShuffleFrom(list[..], rng.state, i + 1, rng.scale) == ShuffleFrom(old(list[..]), old(rng.state), i, rng.scale)
    ensures failure.Some? ==>
      Shuffled(list[..], failure, rng.state) == ShuffleFrom(old(list[..]), old(rng.state), i, rng.scale)
  {
    ghost var xs, s := list[..], rng.state;
    ghost var d := SmallInt(s, i, list.Length - 1, rng.scale);
    ShuffleFromStep(xs, s, i, rng.scale, d);
    SmallIntIsBoundedInt(s, i, list.Length - 1, rng.scale);
    var index := rng.NextIntIn(i, list.Length - 1);
    assert Draw(index, rng.state) == d;
    var j := index.value;
    if j < 0 || j >= list.Length {
      return Some(IndexOutOfRangeException);
    }
    Exchange(list, i, j);
    failure := None;
  }

  /** The exchange of iteration i: `temp = list[i]; list[i] = list[index];
      list[index] = temp`. */
  method Exchange<T>(list: array<T>, i: nat, j: nat)
    requires i < list.Length && j < list.Length
    modifies list
    ensures list[..] == Swap(old(list[..]), i, j)
  {
    var temp := list[i];
    list[i] := list[j];
    list[j] := temp;
  }

  /** Whatever the index draws, Shuffle only exchanges elements: the list
      keeps its length and its multiset of elements, also when an exception
      ends the loop. */
  lemma {:induction false} ShufflePermutes<T>(xs: seq<T>, s: bv32, i: nat, f: Scaler)
    requires i <= |xs| <= INT32_MAX
    ensures multiset(ShuffleFrom(xs, s, i, f).items) == multiset(xs)
    decreases |xs| - i
  {
    if i < |xs| {
      var d := SmallInt(s, i, |xs| - 1, f);
      ShuffleFromStep(xs, s, i, f, d);
      var j := d.result.value;
      if 0 <= j < |xs| {
        SwapPermutes(xs, i, j);
        ShufflePermutes(Swap(xs, i, j), d.next, i + 1, f);
      }
    }
  }

  /** With in-range draws, the index of iteration i lies in [i, length - 1]
      and is drawn from one word. */
  lemma IndexInRange(s: bv32, i: nat, n: nat, f: Scaler)
    requires i < n <= INT32_MAX && ScalerInRange(f)
    ensures SmallInt(s, i, n - 1, f).result.Ok?
    ensures i <= SmallInt(s, i, n - 1, f).result.value < n
    ensures SmallInt(s, i, n - 1, f).next == Step(s)
  {
    SmallIntIsBoundedInt(s, i, n - 1, f);
    BoundedIntScaled(s, i, n - 1, f);
  }

  /** With in-range index draws, iterations i onwards never raise and never
      touch the positions before i. */
  lemma {:induction false} ShuffleInRange<T>(xs: seq<T>, s: bv32, i: nat, f: Scaler)
    requires i <= |xs| <= INT32_MAX && ScalerInRange(f)
    ensures ShuffleFrom(xs, s, i, f).failure == None
    ensures ShuffleFrom(xs, s, i, f).items[..i] == xs[..i]
    decreases |xs| - i
  {
    if i < |xs| {
      var d := SmallInt(s, i, |xs| - 1, f);
      IndexInRange(s, i, |xs|, f);
      ShuffleFromStep(xs, s, i, f, d);
      var ys := Swap(xs, i, d.result.value);
      ShuffleInRange(ys, d.next, i + 1, f);
      var r := ShuffleFrom(ys, d.next, i + 1, f);
      assert r.items[..i] == r.items[..i + 1][..i] == ys[..i + 1][..i];
      assert ys[..i] == xs[..i];
    }
  }

  /** With in-range index draws, iterations i onwards draw one word each. */
  lemma {:induction false} ShuffleDrawsWords<T>(xs: seq<T>, s: bv32, i: nat, f: Scaler)
    requires i <= |xs| <= INT32_MAX && ScalerInRange(f)
    ensures ShuffleFrom(xs, s, i, f).next == Iterate(s, |xs| - i)
    decreases |xs| - i
  {
    if i < |xs| {
      var d := SmallInt(s, i, |xs| - 1, f);
      IndexInRange(s, i, |xs|, f);
      ShuffleFromStep(xs, s, i, f, d);
      var t := d.next;
      ShuffleDrawsWords(Swap(xs, i, d.result.value), t, i + 1, f);
      assert t == Step(s);
      assert Iterate(s, |xs| - i) == Iterate(t, |xs| - (i + 1));
    }
  }

  /** With in-range index draws, Shuffle returns without an exception, the
      list a permutation of the old one, after exactly one word per element;
      an empty list is left alone with the generator untouched. */
  lemma ShuffleListInRange<T>(xs: seq<T>, s: bv32, f: Scaler)
    requires |xs| <= INT32_MAX && ScalerInRange(f)
    ensures ShuffleList(xs, s, f).failure == None
    ensures multiset(ShuffleList(xs, s, f).items) == multiset(xs)
    ensures ShuffleList(xs, s, f).next == Iterate(s, |xs|)
    ensures xs == [] ==> ShuffleList(xs, s, f) == Shuffled([], None, s)
  {
    ShuffleInRange(xs, s, 0, f);
    ShuffleDrawsWords(xs, s, 0, f);
    ShufflePermutes(xs, s, 0, f);
  }

  /** With the source's double arithmetic, the word int.MaxValue makes
      NextInt(0, 0) return 1, so on a one-element list Shuffle reads past the
      end and raises, after one word. */
  lemma ShuffleTopWordRaises<T>(x: T, f: Scaler)
    requires ScalerAsWritten(f)
    ensures ShuffleList([x], TopWordState, f) == Shuffled([x], Some(IndexOutOfRangeException), Step(TopWordState))
  {
    Chars.NextIntTopWord(f, 0);
    SmallIntIsBoundedInt(TopWordState, 0, 0, f);
  }

  // ---------------------------------------------------------------------------
  // Random(Range)

  /** The value of a System.Index: a non-negative `int`. */
  type IndexValue = x: int | 0 <= x <= 0x7FFF_FFFF

  /** A System.Index: a value, counted from the start or (`^`) from the end. */
  datatype Index = Index(value: IndexValue, fromEnd: bool)

  /** A System.Range: a start and an end index. */
  datatype Range = Range(start: Index, end: Index)

  /** Random(range, rng) from state s: NextInt(start.Value, end.Value). The
      end counts as inclusive and a from-end marker is not looked at. */
  ghost function RangeDraw(s: bv32, range: Range, f: Scaler): Draw<int32>
    requires IntDrawReturns(s, range.start.value, range.end.value)
  {
    BoundedInt(s, range.start.value, range.end.value, f)
  }

  /** `Random(range, rng)`. */
  method Random(range: Range, rng: RNG) returns (r: Result<int32>)
    requires IntDrawReturns(rng.state, range.start.value, range.end.value)
    modifies rng
    ensures Draw(r, rng.state) == RangeDraw(old(rng.state), range, rng.scale)
  {
    r := rng.NextIntIn(range.start.value, range.end.value);
  }

  /** Random(range) raises exactly when the start value exceeds the end value,
      leaving the state alone; otherwise the value lies in [start, end], both
      ends included, when the scaled value is in range or the span is the
      whole non-negative `int` range; whether an index counts from the end
      makes no difference. */
  lemma RangeDrawContract(s: bv32, range: Range, f: Scaler)
    requires IntDrawReturns(s, range.start.value, range.end.value)
    ensures RangeDraw(s, range, f).result.Err? <==> range.start.value > range.end.value
    ensures range.start.value > range.end.value ==> RangeDraw(s, range, f).next == s
    ensures range.start.value <= range.end.value && (ScalerInRange(f) || range.end.value - range.start.value == INT32_MAX) ==>
      range.start.value <= RangeDraw(s, range, f).result.value <= range.end.value
    ensures var plain := Range(Index(range.start.value, false), Index(range.end.value, false));
      RangeDraw(s, plain, f) == RangeDraw(s, range, f)
  {
    var lo, hi := range.start.value, range.end.value;
    BoundedIntRaises(s, lo, hi, f);
    if lo <= hi {
      if hi - lo < INT32_MAX {
        BoundedIntScaled(s, lo, hi, f);
      } else {
        BoundedIntRejects(s, lo, hi, f);
      }
    }
  }
}
