/** The RNG class of RNG.cs: a generator holding one 32-bit state word. Every
    method is proved against the function of Draws, Bits, Chars or Bytes that
    gives its result and the state it leaves. */
module Randomizer {
  import opened IntWidth
  import opened Xorshift
  import opened Results
  import opened Draws
  import opened Bits
  import opened Chars
  import opened Bytes

  /** The four in-place updates of the state in NextState: the unchecked
      addition of the increment and the three shift-xor rounds. */
  method Advance(s: bv32) returns (t: bv32)
    ensures t == Step(s)
  {
    t := s + Increment;
    ghost var a := t;
    t := t ^ (t << 13);
    FirstRound(a);
    ghost var b := t;
    t := t ^ (t >> 17);
    SecondRound(b);
    ghost var c := t;
    t := t ^ (t << 5);
    ThirdRound(c);
    StepRounds(s);
  }

  class RNG {
    /** The generator state. */
    var state: bv32

    /** The conversion `(int)(NextDouble() * x)` of this generator (see Draws.Scaler). */
    const scale: Scaler

    /** `new RNG(seed)`: the state is the seed, advanced once. */
    constructor (seed: bv32, scale: Scaler)
      ensures state == Step(seed) && this.scale == scale
    {
      state := seed;
      this.scale := scale;
      new;
      var _ := NextState();
    }

    /** `new RNG(int seed)`: the seed's bits read as unsigned. */
    constructor FromInt(seed: int32, scale: Scaler)
      ensures state == Step(Bits32(seed)) && this.scale == scale
    {
      state := Bits32(seed);
      this.scale := scale;
      new;
      var _ := NextState();
    }

    /** NextState(): the state advanced by Advance, then with its sign bit
        flipped, read as an `int`. */
    method NextState() returns (r: int32)
      modifies this
      ensures state == Step(old(state))
      ensures r == Output(state)
    {
      state := Advance(state);
      r := Output(state);
    }

    /** NextInt(): the next word. */
    method NextInt() returns (r: int32)
      modifies this
      ensures state == Step(old(state))
      ensures r == Output(state)
    {
      r := NextState();
    }

    /** NextInt(min, max): raises when min > max; scales NextDouble() when
        the span is below int.MaxValue; otherwise draws words until one lies
        in [min, max]. */
    method NextIntIn(min: int32, max: int32) returns (r: Result<int32>)
      requires IntDrawReturns(state, min, max)
      modifies this
      ensures Draw(r, state) == BoundedInt(old(state), min, max, scale)
    {
      if min > max {
        return Err(ArgumentOutOfRangeException);
      }
      var n: int64 := max as int - min as int;
      if n < INT32_MAX {
        var w := NextState();
        r := Ok(Wrap32(scale(Masked(w), n + 1) + min));
      } else {
        var v := RejectInt(min, max);
        r := Ok(v);
      }
    }

    /** The do-while loop of NextInt(min, max): words until one lies in [min, max]. */
    method RejectInt(min: int32, max: int32) returns (v: int32)
      requires Reachable(Words(state), min, max)
      modifies this
      ensures Draw(Ok(v), state) == RejectedInt(old(state), min, max)
    {
      ghost var s0 := state;
      ghost var last := FirstHit(Words(s0), min, max);
      ghost var k: nat := 1;
      v := NextCandidateInt(s0, 0);
      while v < min || v > max
        invariant 1 <= k <= last
        invariant state == Iterate(s0, k) && v == Words(s0)(k)
        invariant forall j :: 1 <= j < k ==> !Hit(Words(s0), j, min, max)
        decreases last - k
      {
        BeforeFirstHit(Words(s0), min, max, k);
        v := NextCandidateInt(s0, k);
        k := k + 1;
      }
      IsFirstHit(Words(s0), min, max, k);
    }

    /** One candidate of the loop of NextInt(min, max): the (k+1)-th word drawn from s0. */
    method NextCandidateInt(ghost s0: bv32, ghost k: nat) returns (v: int32)
      requires state == Iterate(s0, k)
      modifies this
      ensures state == Iterate(s0, k + 1) && v == Words(s0)(k + 1)
    {
      v := NextInt();
      IterateStep(s0, k);
      WordAtIterate(s0, k + 1);
    }

    /** NextInt(max): NextInt(0, max). */
    method NextIntUpTo(max: int32) returns (r: Result<int32>)
      requires IntDrawReturns(state, 0, max)
      modifies this
      ensures Draw(r, state) == BoundedInt(old(state), 0, max, scale)
    {
      r := NextIntIn(0, max);
    }

    /** NextLong(): the first word sign-extended plus the second shifted up 32 bits. */
    method NextLong() returns (r: int64)
      modifies this
      ensures r == LongFrom(old(state))
      ensures state == Step(Step(old(state)))
    {
      var lo := NextInt();
      var hi := NextInt();
      r := LongOf(lo, hi);
    }

    /** NextLong(min, max): raises when min > max; scales NextDouble() when
        max - min does not overflow; otherwise draws `long`s until one lies
        in [min, max]. */
    method NextLongIn(min: int64, max: int64) returns (r: Result<int64>)
      requires LongDrawReturns(state, min, max)
      modifies this
      ensures Draw(r, state) == BoundedLong(old(state), min, max, scale)
    {
      if min > max {
        return Err(ArgumentOutOfRangeException);
      }
      var n := Wrap64(max as int - min as int);
      if n >= 0 {
        var w := NextState();
        r := Ok(Wrap64(scale(Masked(w), Wrap64(n as int + 1)) + min));
      } else {
        var v := RejectLong(min, max);
        r := Ok(v);
      }
    }

    /** The do-while loop of NextLong(min, max): `long`s until one lies in [min, max]. */
    method RejectLong(min: int64, max: int64) returns (v: int64)
      requires Reachable(Longs(state), min, max)
      modifies this
      ensures Draw(Ok(v), state) == RejectedLong(old(state), min, max)
    {
      ghost var s0 := state;
      ghost var last := FirstHit(Longs(s0), min, max);
      ghost var k: nat := 1;
      v := NextCandidateLong(s0, 0);
      while v < min || v > max
        invariant 1 <= k <= last
        invariant state == Iterate(s0, 2 * k) && v == Longs(s0)(k)
        invariant forall j :: 1 <= j < k ==> !Hit(Longs(s0), j, min, max)
        decreases last - k
      {
        BeforeFirstHit(Longs(s0), min, max, k);
        v := NextCandidateLong(s0, k);
        k := k + 1;
      }
      IsFirstHit(Longs(s0), min, max, k);
    }

    /** One candidate of the loop of NextLong(min, max): the (k+1)-th `long` drawn from s0. */
    method NextCandidateLong(ghost s0: bv32, ghost k: nat) returns (v: int64)
      requires state == Iterate(s0, 2 * k)
      modifies this
      ensures state == Iterate(s0, 2 * (k + 1)) && v == Longs(s0)(k + 1)
    {
      v := NextLong();
      IterateTwo(s0, 2 * k);
      LongAtIterate(s0, k);
    }

    /** NextLong(max): NextLong(0, max). */
    method NextLongUpTo(max: int64) returns (r: Result<int64>)
      requires LongDrawReturns(state, 0, max)
      modifies this
      ensures Draw(r, state) == BoundedLong(old(state), 0, max, scale)
    {
      r := NextLongIn(0, max);
    }

    /** NextUInt(): the next word's bits read as unsigned. */
    method NextUInt() returns (r: uint32)
      modifies this
      ensures state == Step(old(state))
      ensures r == AsUInt32(Output(state))
    {
      var w := NextState();
      r := AsUInt32(w);
    }

    /** NextUInt(min, max): NextInt over the bounds read as `int`s, the
        result read back as unsigned. */
    method NextUIntIn(min: uint32, max: uint32) returns (r: Result<uint32>)
      requires IntDrawReturns(state, AsInt32(min), AsInt32(max))
      modifies this
      ensures Draw(r, state) == BoundedUInt(old(state), min, max, scale)
    {
      var d := NextIntIn(AsInt32(min), AsInt32(max));
      r := if d.Ok? then Ok(AsUInt32(d.value)) else Err(d.error);
    }

    /** NextUInt(max): NextUInt(0, max). */
    method NextUIntUpTo(max: uint32) returns (r: Result<uint32>)
      requires IntDrawReturns(state, 0, AsInt32(max))
      modifies this
      ensures Draw(r, state) == BoundedUInt(old(state), 0, max, scale)
    {
      r := NextUIntIn(0, max);
    }

    /** NextULong(): both words sign-extended to `ulong`, the second shifted
        up 32 bits; the same 64 bits as NextLong(). */
    method NextULong() returns (r: uint64)
      modifies this
      ensures r == AsUInt64(LongFrom(old(state)))
      ensures state == Step(Step(old(state)))
    {
      var lo := NextInt();
      var hi := NextInt();
      r := ULongOf(lo, hi);
      ULongIsLongBits(lo, hi);
    }

    /** NextULong(min, max): NextLong over the bounds read as `long`s, the
        result read back as unsigned. */
    method NextULongIn(min: uint64, max: uint64) returns (r: Result<uint64>)
      requires LongDrawReturns(state, AsInt64(min), AsInt64(max))
      modifies this
      ensures Draw(r, state) == BoundedULong(old(state), min, max, scale)
    {
      var d := NextLongIn(AsInt64(min), AsInt64(max));
      r := if d.Ok? then Ok(AsUInt64(d.value)) else Err(d.error);
    }

    /** NextULong(max): NextULong(0, max). */
    method NextULongUpTo(max: uint64) returns (r: Result<uint64>)
      requires LongDrawReturns(state, 0, AsInt64(max))
      modifies this
      ensures Draw(r, state) == BoundedULong(old(state), 0, max, scale)
    {
      r := NextULongIn(0, max);
    }

    /** NextBool(): whether NextInt(1) is 1. */
    method NextBool() returns (b: bool)
      modifies this
      ensures b <==> BoundedInt(old(state), 0, 1, scale).result == Ok(1)
      ensures state == Step(old(state))
    {
      BoundedIntScaled(state, 0, 1, scale);
      var d := NextIntUpTo(1);
      b := d == Ok(1);
    }

    /** NextBits(bitsCount): draw i contributes the masked word shifted right by
        32 - (i + 2), the count taken modulo 32; draw i thus adds at most i + 1
        bits (a whole word for i = 31, nothing from i = 32 on). */
    method NextBits(count: byte) returns (r: int32)
      modifies this
      ensures r == BitsValue(old(state), count)
      ensures state == Iterate(old(state), count)
      ensures 0 <= r && (count <= 31 ==> r < Pow2(count))
    {
      ghost var s0 := state;
      var value: nat := 0;
      for i := 0 to count
        invariant state == Iterate(s0, i) && value == BitsValue(s0, i)
      {
        var w := NextCandidateInt(s0, i);
        value := BitOr(value, ShiftRight(Masked(w), (32 - (i + 2)) % 32));
      }
      BitsValueBound(s0, count);
      Pow2Of31();
      r := value;
    }

    /** NextChar(): NextChar(LetterOrDigit). */
    method NextChar() returns (r: Result<char>)
      modifies this
      ensures Draw(r, state) == CharDraw(old(state), LETTER_OR_DIGIT, scale)
    {
      r := NextCharOf(LETTER_OR_DIGIT);
    }

    /** NextChar(kind): the selected classes are written into a four-slot
        buffer, NextInt(0, count - 1) picks a slot, and the slot's flag picks
        the alphabet. */
    method NextCharOf(kind: int32) returns (r: Result<char>)
      modifies this
      ensures Draw(r, state) == CharDraw(old(state), kind, scale)
    {
      var flags, count := SelectClasses(kind);
      ghost var s0 := state;
      var pick := NextIntIn(0, count - 1);
      SmallIntIsBoundedInt(s0, 0, count - 1, scale);
      CharDrawByPick(s0, kind, scale, Draw(pick, state));
      if pick.Err? {
        return Err(pick.error);
      }
      var v := pick.value;
      if v < 0 || v >= 4 {
        return Err(IndexOutOfRangeException);
      }
      r := NextCharOfClass(flags[v]);
    }

    /** One NextChar(kind) of NextString(destination, kind): element i is
        written, or the exception the draw raises ends the fill, leaving the
        buffer that held `prior` with the elements before i written. */
    method NextFilledChar(dest: array<char>, kind: int32, ghost s0: bv32, ghost prior: seq<char>, i: nat)
      returns (failure: Option<Error>)
      requires i < dest.Length == |prior|
      requires Fill(s0, CharDraws(kind, scale), i) == Filled(dest[..i], None, state) && dest[i..] == prior[i..]
      modifies this, dest
      ensures failure.None? ==>
        Fill(s0, CharDraws(kind, scale), i + 1) == Filled(dest[..i + 1], None, state) && dest[i + 1..] == prior[i + 1..]
      ensures failure.Some? ==> var filled := Fill(s0, CharDraws(kind, scale), dest.Length);
        failure == filled.failure && state == filled.next && dest[..] == filled.items + prior[|filled.items|..]
    {
      ghost var t := state;
      var c := NextCharOf(kind);
      assert CharDraws(kind, scale)(t) == Draw(c, state);
      FillStep(s0, CharDraws(kind, scale), i, dest.Length, dest[..i], t);
      if c.Err? {
        assert dest[..] == dest[..i] + prior[i..];
        return Some(c.error);
      }
      dest[i] := c.value;
      assert dest[..i + 1] == old(dest[..i]) + [c.value];
      failure := None;
    }

    /** The flag buffer of NextChar(kind): the selected classes in the order
        digits, upper, lower, symbols, then empty slots. */
    static method SelectClasses(kind: int32) returns (flags: array<int32>, count: int)
      ensures fresh(flags) && flags.Length == 4
      ensures count == |SelectedFlags(kind)|
      ensures forall j :: 0 <= j < 4 ==> flags[j] == Slot(kind, j)
    {
      flags := new int32[4](_ => 0);
      count := 0;
      count := AppendIfSet(flags, count, kind, 0);
      count := AppendIfSet(flags, count, kind, 1);
      count := AppendIfSet(flags, count, kind, 2);
      count := AppendIfSet(flags, count, kind, 3);
    }

    /** One `if (HasFlag(kind, flag)) flags[flagCount++] = flag;` of
        NextChar(kind), for candidate n: the buffer holds the selected classes
        among the first n candidates, then empty slots. */
    static method AppendIfSet(flags: array<int32>, count: int, kind: int32, n: nat) returns (next: int)
      requires flags.Length == 4 && n < 4
      requires count == |Selected(kind, n)| && flags[..] == Selected(kind, n) + Zeros(4 - count)
      modifies flags
      ensures next == |Selected(kind, n + 1)| && flags[..] == Selected(kind, n + 1) + Zeros(4 - next)
    {
      var flag := Candidates[n];
      next := count;
      if HasFlag(kind, flag) {
        flags[count] := flag;
        next := count + 1;
      }
    }

    /** The `switch` of NextChar(kind): a character of the flag's class, or
        '\0' when the flag is no class. */
    method NextCharOfClass(flag: int32) returns (r: Result<char>)
      modifies this
      ensures Draw(r, state) == CharOfClass(flag, old(state), scale)
    {
      match Alphabet(flag)
      case None =>
        r := Ok('\0');
      case Some(alpha) =>
        ghost var t := state;
        var i := NextIntIn(0, |alpha| - 1);
        SmallIntIsBoundedInt(t, 0, |alpha| - 1, scale);
        if 0 <= i.value < |alpha| {
          r := Ok(alpha[i.value]);
        } else {
          r := Err(IndexOutOfRangeException);
        }
    }

    /** NextString(destination): NextString(destination, LetterOrDigit). */
    method NextString(dest: array<char>) returns (failure: Option<Error>)
      modifies this, dest
      ensures var filled := Fill(old(state), CharDraws(LETTER_OR_DIGIT, scale), dest.Length);
        failure == filled.failure && state == filled.next
        && dest[..] == filled.items + old(dest[..])[|filled.items|..]
    {
      failure := NextStringOf(dest, LETTER_OR_DIGIT);
    }

    /** NextString(destination, kind): one NextChar(kind) per element, front to
        back. An exception leaves the elements written before it in place. */
    method NextStringOf(dest: array<char>, kind: int32) returns (failure: Option<Error>)
      modifies this, dest
      ensures var filled := Fill(old(state), CharDraws(kind, scale), dest.Length);
        failure == filled.failure && state == filled.next
        && dest[..] == filled.items + old(dest[..])[|filled.items|..]
    {
      ghost var s0 := state;
      ghost var prior := dest[..];
      var i := 0;
      while i < dest.Length
        invariant 0 <= i <= dest.Length
        invariant Fill(s0, CharDraws(kind, scale), i) == Filled(dest[..i], None, state)
        invariant dest[i..] == prior[i..]
      {
        failure := NextFilledChar(dest, kind, s0, prior, i);
        if failure.Some? {
          return;
        }
        i := i + 1;
      }
      assert dest[..] == dest[..i];
      failure := None;
    }

    /** NextBytes(destination): while more than four bytes remain, a whole
        word is stored at byte offset i; then single low bytes of further
        words, up to the remaining length (which, after the word loop, is at
        most the offset reached, so nothing more is written). */
    method NextBytes(dest: array<byte>)
      modifies this, dest
      ensures Written(dest[..], state) == BytesAsWritten(old(state), old(dest[..]))
    {
      var length := dest.Length;
      var i := 0;
      if length > 4 {
        i, length := StoreWords(dest);
      }
      StoreLowBytes(dest, i, length);
    }

    /** The word loop of NextBytes on a buffer of more than four bytes: it
        returns the offset and the remaining length it stops at. */
    method StoreWords(dest: array<byte>) returns (i: nat, length: nat)
      requires dest.Length > 4
      modifies this, dest
      ensures i == 4 * WordCount(dest.Length) && length == dest.Length - i
      ensures state == Iterate(old(state), WordCount(dest.Length))
      ensures dest[..] == WordsBytes(old(state), WordCount(dest.Length)) + old(dest[..])[i..]
    {
      ghost var s0 := state;
      ghost var prior := dest[..];
      ghost var c := 0;
      length := dest.Length;
      i := 0;
      while length > 4
        invariant i == 4 * c && length == dest.Length - i && length >= 1
        invariant state == Iterate(s0, c)
        invariant dest[..i] == WordsBytes(s0, c) && dest[i..] == prior[i..]
      {
        StoreWord(dest, i, s0, c, prior);
        length := length - 4;
        i := i + 4;
        c := c + 1;
      }
      assert c == WordCount(dest.Length) by {
        assert 4 * c < dest.Length <= 4 * c + 4;
        assert (dest.Length - 1) / 4 == c;
      }
      assert dest[..] == dest[..i] + dest[i..];
    }

    /** The byte loop of NextBytes: the low bytes of further words at offsets
        start up to, not including, length. */
    method StoreLowBytes(dest: array<byte>, start: nat, length: nat)
      requires start <= dest.Length && length <= dest.Length
      modifies this, dest
      ensures var n := if start < length then length - start else 0;
        dest[..] == old(dest[..])[..start] + LowBytes(old(state), n) + old(dest[..])[start + n..]
        && state == Iterate(old(state), n)
    {
      ghost var s0 := state;
      ghost var prior := dest[..];
      var i := start;
      if i >= length {
        assert prior[..start] + LowBytes(s0, 0) + prior[start..] == prior;
        return;
      }
      while i < length
        invariant start <= i <= length
        invariant state == Iterate(s0, i - start)
        invariant dest[..i] == prior[..start] + LowBytes(s0, i - start) && dest[i..] == prior[i..]
      {
        StoreLowByte(dest, i, s0, start, prior);
        i := i + 1;
      }
      assert dest[..] == dest[..length] + prior[length..];
    }

    /** One pass of the byte loop of NextBytes: byte i is the low byte of the
        next word. */
    method StoreLowByte(dest: array<byte>, i: nat, ghost s0: bv32, ghost start: nat, ghost prior: seq<byte>)
      requires start <= i < dest.Length == |prior|
      requires state == Iterate(s0, i - start)
      requires dest[..i] == prior[..start] + LowBytes(s0, i - start) && dest[i..] == prior[i..]
      modifies this, dest
      ensures state == Iterate(s0, i + 1 - start)
      ensures dest[..i + 1] == prior[..start] + LowBytes(s0, i + 1 - start) && dest[i + 1..] == prior[i + 1..]
    {
      ghost var k := i - start;
      var w := NextCandidateInt(s0, k);
      dest[i] := LowByte(w);
      assert LowBytes(s0, k + 1) == LowBytes(s0, k) + [LowByte(w)];
      assert dest[..i + 1] == dest[..i] + [LowByte(w)];
    }

    /** `Unsafe.AddByteOffset(ref cur, i) = NextInt()` in pass c of the word
        loop of NextBytes: the next word's four bytes, lowest first, stored at
        byte offset i. */
    method StoreWord(dest: array<byte>, i: nat, ghost s0: bv32, ghost c: nat, ghost prior: seq<byte>)
      requires i == 4 * c && i + 4 <= dest.Length == |prior|
      requires state == Iterate(s0, c)
      requires dest[..i] == WordsBytes(s0, c) && dest[i..] == prior[i..]
      modifies this, dest
      ensures state == Iterate(s0, c + 1)
      ensures dest[..i + 4] == WordsBytes(s0, c + 1) && dest[i + 4..] == prior[i + 4..]
    {
      var w := NextCandidateInt(s0, c);
      var b := WordBytes(w);
      dest[i] := b[0];
      dest[i + 1] := b[1];
      dest[i + 2] := b[2];
      dest[i + 3] := b[3];
      assert dest[..i + 4] == dest[..i] + b;
    }
  }
}
