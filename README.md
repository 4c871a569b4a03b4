# ExtraUtils.Randomizer in Dafny

A model of the xorshift generator of ExtraUtils.Randomizer (`RNG`), its list
and range extensions (`RNGExtensions`) and the prime-number helper
(`PrimeNumberHelper`), with proofs of what each operation returns, how many
words it draws from the generator, which exceptions it raises, and what it
leaves in a caller's buffer.

The generator is a class `Randomizer.RNG` with its 32-bit state as a `bv32`
field; every integer, character and byte draw of the C# class is a Dafny
method that updates that field and whose `ensures` ties its result and new state to a function of the
old state. The modules:

- `IntWidth`: C#'s `int`, `uint`, `long` and `ulong` as subsets of `int`,
  unchecked wrap-around, the signed/unsigned reinterpretations, and C#'s
  truncating `%`.
- `Xorshift`: one `NextState` transition (`Step`), the word it returns
  (`Output`), `k` transitions (`Iterate`) and the `k`-th word (`WordAt`).
- `Draws`: the bounded integer draws as functions of the state: argument
  check, scaled branch and rejection loop of `NextInt(min, max)` and
  `NextLong(min, max)`, the 64-bit assembly of `NextLong()`/`NextULong()`,
  and the unsigned bounded draws.
- `Bits`: `NextBits` in integer arithmetic (OR and right shift on naturals).
- `Chars`: `RandomCharKind`, the four-slot flag buffer and the two draws of
  `NextChar`, and the item-by-item fill of `NextString`.
- `Bytes`: the two loops of `NextBytes`, little-endian word storage.
- `Randomizer`: the class `RNG` and its methods.
- `Extensions`: `Shuffle` over an array and `Random(Range)`.
- `PrimeNumberHelper`: `Mod`, `IsPrime`, `NextPrime`, and corrected
  versions of the last two.
- `Results`: the exceptions raised (`ArgumentOutOfRangeException`,
  `ArgumentException`, `IndexOutOfRangeException`) as a `Result`/`Option`.

Floating point is not modelled. The scaled branch of a bounded draw,
`(int)(NextDouble() * (n + 1))`, is a function `scale: Scaler` from the
masked word and the multiplier to an integer, fixed when the generator is
constructed. Two hypotheses about it are named explicitly:

- `ScalerInRange(f)`: the scaled value lies in `[0, x - 1]`. This is what the
  scaled branch needs; every range-containment lemma about the scaled branch
  requires it. The rejection branches stay in range without it.
- `ScalerAsWritten(f)`: two facts about the source's double arithmetic. The
  masked word `int.MaxValue` scales to exactly `x`, because NextDouble()
  returns 1.0 for it. The multiplier long.MinValue, which the `long` draw's
  `n + 1` wraps to, gives a negative product for every masked word from 1
  on. The "## Findings" lemmas use it.

`UnitScale` (multiply, divide by 2^31) is proved to satisfy
`ScalerInRange`, and `AsWrittenNotInRange` proves that no scaler satisfying
`ScalerAsWritten` does.

The rejection loops and `NextPrime` are loops that end only when a suitable
value turns up. The rejection methods require `Reachable` (some future
candidate is in range) and prove that they return the FIRST candidate in
range, after one word per candidate for `int` and two words per candidate
for `long`. `NextPrime` needs
no such assumption: its candidate turns negative after wrapping round, and
then `IsPrime` throws.

Points of the code's behaviour the model keeps as they are:

- `NextInt(min, max)` with `min == max` still draws one word, like every
  other bounded draw. It returns min when the scaled value is in range, and
  min + 1 for a word that masks to int.MaxValue (`NextIntFiveOfFive`, see
  "## Findings", RNG.cs:123).
- A `RandomCharKind` with no class raises `ArgumentOutOfRangeException`,
  from `NextInt(0, -1)`, and draws nothing.
- The byte fill's word loop runs while MORE than four bytes remain, and its
  byte loop then writes nothing (see "## Findings").
- The generator is a mutable class whose methods update its state in place.

## Model

| member | source | states |
|---|---|---|
| Xorshift.Step | ExtraUtils.Randomizer/RNG.cs:482-494 | defines the state after one NextState call: the unchecked addition of the increment, then three shift-xor rounds |
| Xorshift.StepRounds | ExtraUtils.Randomizer/RNG.cs:482-494 | one NextState is the unchecked addition of 23457013 followed by the xor-shift rounds by 13 left, 17 right and 5 left |
| Xorshift.Output | ExtraUtils.Randomizer/RNG.cs:493 | the returned `int` is the state xor int.MinValue read as signed |
| Xorshift.NeverRestsAtZero | ExtraUtils.Randomizer/RNG.cs:484-487 | thanks to the additive constant the state is never zero after two transitions in a row |
| Xorshift.IterateStep | ExtraUtils.Randomizer/RNG.cs:482-494 | k + 1 transitions are one more transition after k |
| Xorshift.IterateAdd | ExtraUtils.Randomizer/RNG.cs:482-494 | a transitions followed by b transitions are a + b transitions |
| Xorshift.WordAtIterate | ExtraUtils.Randomizer/RNG.cs:89-92 | the k-th word drawn is the output of the state after k transitions |
| Randomizer.Advance | ExtraUtils.Randomizer/RNG.cs:485-492 | the four in-place updates of `_state` compute one transition |
| Randomizer.RNG.constructor | ExtraUtils.Randomizer/RNG.cs:72-76 | the state is the seed advanced by exactly one discarded transition |
| Randomizer.RNG.FromInt | ExtraUtils.Randomizer/RNG.cs:82 | an `int` seed is its bit pattern as `uint`, advanced once |
| Randomizer.RNG.NextState | ExtraUtils.Randomizer/RNG.cs:482-494 | one transition of the state, returning the output of the new state |
| Randomizer.RNG.NextInt | ExtraUtils.Randomizer/RNG.cs:89-92 | one transition; the word is its output |
| Randomizer.RNG.NextIntIn | ExtraUtils.Randomizer/RNG.cs:112-135 | result and new state are `BoundedInt` of the old state: raise, scaled branch, or rejection loop |
| Randomizer.RNG.RejectInt | ExtraUtils.Randomizer/RNG.cs:127-131 | the do-while loop returns the first drawn word in [min, max] and stops in the state that produced it |
| Randomizer.RNG.NextCandidateInt | ExtraUtils.Randomizer/RNG.cs:129 | one candidate of the loop is the next word of the stream started at the loop's entry |
| Randomizer.RNG.NextIntUpTo | ExtraUtils.Randomizer/RNG.cs:100-103 | NextInt(max) is NextInt(0, max) |
| Draws.Masked | ExtraUtils.Randomizer/RNG.cs:268 | `w & int.MaxValue` lies in [0, int.MaxValue], is w for non-negative w and w + 2^31 otherwise |
| Draws.UnitScaleInRange | ExtraUtils.Randomizer/RNG.cs:268 | scaling by m / 2^31 puts the scaled value in [0, x - 1] for every multiplier |
| Draws.AsWrittenNotInRange | ExtraUtils.Randomizer/RNG.cs:268 | with NextDouble() able to return 1.0, no scaler meets the range requirement |
| Draws.FirstHit | ExtraUtils.Randomizer/RNG.cs:127-131 | the number of candidates the rejection loop draws: the first in range, with none in range before it |
| Draws.SmallIntIsBoundedInt | ExtraUtils.Randomizer/RNG.cs:119-124 | for spans below int.MaxValue, NextInt(min, max) never reaches the rejection loop |
| Draws.BoundedInt | ExtraUtils.Randomizer/RNG.cs:112-135 | defines NextInt(min, max) from a state: the exception for min > max, the scaled branch for spans below int.MaxValue, the rejection loop otherwise |
| Draws.BoundedIntRaises | ExtraUtils.Randomizer/RNG.cs:114-117 | NextInt(min, max) raises ArgumentOutOfRange if and only if min > max, and then leaves the state unchanged |
| Draws.BoundedIntScaled | ExtraUtils.Randomizer/RNG.cs:119-124 | for min <= max and max - min < int.MaxValue (min == max included) exactly one word is drawn, and the value is in [min, max] when the scaled value is in range |
| Draws.BoundedIntRejects | ExtraUtils.Randomizer/RNG.cs:125-134 | for wider spans the result is the first drawn word in [min, max], with the state after that word |
| Draws.ScaledIntOvershoots | ExtraUtils.Randomizer/RNG.cs:123 | with the source's double arithmetic the masked word int.MaxValue yields max + 1 |
| Draws.NextIntTenOfTen | ExtraUtils.Randomizer/RNG.cs:123 | NextInt(0, 9) from state 0x5D070FF2 returns 10 |
| Draws.NextIntFiveOfFive | ExtraUtils.Randomizer/RNG.cs:119-124 | NextInt(5, 5) from state 0x5D070FF2 draws one word and returns 6 |
| Draws.LongFrom | ExtraUtils.Randomizer/RNG.cs:142-145 | defines NextLong() from a state: LongOf of the next two words, low word first |
| Draws.LongOf | ExtraUtils.Randomizer/RNG.cs:144 | NextLong() is lo + hi * 2^32 modulo 2^64, with the first word sign-extended as the low part |
| Draws.SplitLongOf | ExtraUtils.Randomizer/RNG.cs:144 | the two words are recovered from the assembled `long` |
| Draws.LongOfSplit | ExtraUtils.Randomizer/RNG.cs:144 | every `long` is assembled from some pair of words |
| Draws.ULongOf | ExtraUtils.Randomizer/RNG.cs:231-234 | defines NextULong()'s value: the low word sign-extended to `ulong` plus the high word shifted left by 32, modulo 2^64 |
| Draws.ULongIsLongBits | ExtraUtils.Randomizer/RNG.cs:233 | NextULong() yields the same 64 bits as NextLong() from the same two words |
| Draws.LongAtIterate | ExtraUtils.Randomizer/RNG.cs:183 | candidate k + 1 of the `long` rejection loop is NextLong() after 2k words |
| Randomizer.RNG.NextLong | ExtraUtils.Randomizer/RNG.cs:142-145 | two transitions; the value is LongOf of the two words, low word first |
| Randomizer.RNG.NextLongIn | ExtraUtils.Randomizer/RNG.cs:166-189 | result and new state are `BoundedLong` of the old state |
| Randomizer.RNG.RejectLong | ExtraUtils.Randomizer/RNG.cs:181-185 | the loop returns the first candidate in [min, max], after two words per candidate |
| Randomizer.RNG.NextCandidateLong | ExtraUtils.Randomizer/RNG.cs:183 | one candidate is the next NextLong() of the stream, two words on |
| Randomizer.RNG.NextLongUpTo | ExtraUtils.Randomizer/RNG.cs:154-157 | NextLong(max) is NextLong(0, max) |
| Draws.BoundedLong | ExtraUtils.Randomizer/RNG.cs:166-189 | defines NextLong(min, max) from a state: the exception for min > max, the scaled branch when max - min does not wrap negative, the rejection loop otherwise |
| Draws.BoundedLongRaises | ExtraUtils.Randomizer/RNG.cs:168-171 | NextLong(min, max) raises if and only if min > max, leaving the state unchanged |
| Draws.BoundedLongScaled | ExtraUtils.Randomizer/RNG.cs:173-178 | when max - min does not overflow one word is drawn, and the value is in range when the scaled value is and the multiplier does not overflow |
| Draws.BoundedLongRejects | ExtraUtils.Randomizer/RNG.cs:179-188 | when max - min wraps negative the first candidate in [min, max] is returned |
| Draws.ScaledLongOutOfRange | ExtraUtils.Randomizer/RNG.cs:177 | for max - min == long.MaxValue the multiplier wraps to long.MinValue and the value falls outside [min, max] |
| Draws.NextLongMaxNegative | ExtraUtils.Randomizer/RNG.cs:154-157 | NextLong(long.MaxValue) returns a negative value unless the word masks to 0 |
| Draws.BoundedLongFixedContract | ExtraUtils.Randomizer/RNG.cs:166-189 | with the multiplier computed without overflow, the value lies in [min, max] for every span |
| Randomizer.RNG.NextUInt | ExtraUtils.Randomizer/RNG.cs:196-199 | one transition; the word's bits read as unsigned |
| Randomizer.RNG.NextUIntIn | ExtraUtils.Randomizer/RNG.cs:221-224 | NextInt over the bounds read as `int`, the result read back as `uint` |
| Randomizer.RNG.NextUIntUpTo | ExtraUtils.Randomizer/RNG.cs:208-211 | NextUInt(max) is NextUInt(0, max) |
| Randomizer.RNG.NextULong | ExtraUtils.Randomizer/RNG.cs:231-234 | two transitions; the same 64 bits as NextLong() read as unsigned |
| Randomizer.RNG.NextULongIn | ExtraUtils.Randomizer/RNG.cs:256-259 | NextLong over the bounds read as `long`, the result read back as `ulong` |
| Randomizer.RNG.NextULongUpTo | ExtraUtils.Randomizer/RNG.cs:243-246 | NextULong(max) is NextULong(0, max) |
| Draws.BoundedUInt | ExtraUtils.Randomizer/RNG.cs:221-224 | defines NextUInt(min, max) from a state: NextInt over the bounds read as `int`, the value read back as `uint`, the exception passed on |
| Draws.BoundedULong | ExtraUtils.Randomizer/RNG.cs:256-259 | defines NextULong(min, max) from a state: NextLong over the bounds read as `long`, the value read back as `ulong`, the exception passed on |
| Draws.BoundedUIntSignedOrder | ExtraUtils.Randomizer/RNG.cs:221-224 | NextUInt(min, max) raises if and only if the signed readings are out of order; bounds straddling 2^31 upwards raise |
| Draws.NextUIntRejectsValidBounds | ExtraUtils.Randomizer/RNG.cs:221-224 | NextUInt(0, 3000000000) raises |
| Draws.BoundedULongSignedOrder | ExtraUtils.Randomizer/RNG.cs:256-259 | NextULong(min, max) raises if and only if the signed readings are out of order |
| Draws.NextULongRejectsValidBounds | ExtraUtils.Randomizer/RNG.cs:256-259 | NextULong(0, 2^63) raises |
| Draws.BoundedUIntShiftedContract | ExtraUtils.Randomizer/RNG.cs:221-224 | with the bounds shifted by 2^31 the unsigned draw raises exactly when min > max and otherwise lies in [min, max] |
| Draws.BoundedULongShiftedContract | ExtraUtils.Randomizer/RNG.cs:256-259 | the same for `ulong`, shifted by 2^63 |
| IntWidth.Wrap32 | ExtraUtils.Randomizer/RNG.cs:123 | unchecked storage into `int` keeps the value modulo 2^32 and leaves in-range values alone |
| IntWidth.Wrap64 | ExtraUtils.Randomizer/RNG.cs:177 | the same for `long` |
| IntWidth.AsUInt32 | ExtraUtils.Randomizer/RNG.cs:198 | `(uint)x` keeps the bits: x modulo 2^32 |
| IntWidth.AsInt32 | ExtraUtils.Randomizer/RNG.cs:223 | `(int)u` keeps the bits |
| IntWidth.AsUInt64 | ExtraUtils.Randomizer/RNG.cs:258 | `(ulong)x` keeps the bits |
| IntWidth.AsInt64 | ExtraUtils.Randomizer/RNG.cs:258 | `(long)u` keeps the bits |
| IntWidth.Reinterpret32RoundTrip | ExtraUtils.Randomizer/RNG.cs:221-224 | reading 32 bits as unsigned and back loses nothing, both ways |
| IntWidth.Reinterpret64RoundTrip | ExtraUtils.Randomizer/RNG.cs:256-259 | reading 64 bits as unsigned and back loses nothing, both ways |
| Randomizer.RNG.NextBool | ExtraUtils.Randomizer/RNG.cs:346-349 | true exactly when NextInt(1) yields 1; one transition |
| Randomizer.RNG.NextBits | ExtraUtils.Randomizer/RNG.cs:357-367 | exactly count transitions; the value is `BitsValue`, non-negative and below 2^count for count <= 31 (NextBits(0) is 0 and draws nothing) |
| Bits.BitsValue | ExtraUtils.Randomizer/RNG.cs:357-367 | defines NextBits(k)'s value: the OR, over draws i = 0 to k - 1, of the masked word shifted right by (32 - (i + 2)) modulo 32 |
| Bits.BitsValueBound | ExtraUtils.Randomizer/RNG.cs:357-367 | NextBits(k) is below 2^k for k <= 31 and below 2^31 for all k; each further draw never decreases the value |
| Bits.TermBound | ExtraUtils.Randomizer/RNG.cs:364 | draw i contributes a value below 2^(i+1), and below 2^31 with the shift count taken modulo 32 |
| Bits.BitOrCovers | ExtraUtils.Randomizer/RNG.cs:364 | the bitwise OR of a and b is at least a and at least b |
| Bits.BitOrBelow | ExtraUtils.Randomizer/RNG.cs:364 | the bitwise OR of two values below 2^k is below 2^k |
| Bits.ShiftBelow | ExtraUtils.Randomizer/RNG.cs:364 | shifting a value below 2^(a+b) right by b gives a value below 2^a |
| Chars.HasFlag | ExtraUtils.Randomizer/RNG.cs:422-425 | defines `(kind & flag) != 0` for a single-bit flag: that bit of kind's bit pattern is set |
| Chars.SelectedCandidates | ExtraUtils.Randomizer/RNG.cs:394-409 | after n flag checks the buffer holds exactly the classes checked so far that are set in the kind, each once |
| Chars.SelectedRanks | ExtraUtils.Randomizer/RNG.cs:394-409 | after n flag checks the buffer lists only classes among the first n checked, in the order they were checked |
| Chars.SelectedFlagsClasses | ExtraUtils.Randomizer/RNG.cs:394-409 | the buffer holds exactly the classes set in the kind, each once, in the order digit, upper, lower, symbol (strictly increasing ClassRank) |
| Chars.ClassRank | ExtraUtils.Randomizer/RNG.cs:394-409 | the position of each class among the four checks: digits 0, upper case 1, lower case 2, symbols 3 |
| Chars.LetterOrDigitFlags | ExtraUtils.Randomizer/RNG.cs:32-40 | LetterOrDigit selects digit, upper, lower; Any selects all four |
| Chars.Slot | ExtraUtils.Randomizer/RNG.cs:391-411 | a slot of the buffer holds a selected class or the default value 0 |
| Chars.Alphabet | ExtraUtils.Randomizer/RNG.cs:413-420 | exactly the four classes have an alphabet: 26 upper-case letters, 26 lower-case letters, 10 digits, 32 symbols |
| Chars.CharDraw | ExtraUtils.Randomizer/RNG.cs:384-426 | defines NextChar(kind) from a state: NextInt(0, count - 1) picks a slot of the four-slot buffer, IndexOutOfRange past it, then the index pick in the slot's alphabet |
| Chars.CharDrawByPick | ExtraUtils.Randomizer/RNG.cs:411-420 | NextChar continues by the slot index: its exception, IndexOutOfRange for an index outside the buffer, or the slot's class |
| Chars.CharDrawNoClass | ExtraUtils.Randomizer/RNG.cs:411 | a kind with none of the four bits raises ArgumentOutOfRange and draws nothing |
| Chars.CharOfClassInKind | ExtraUtils.Randomizer/RNG.cs:413-420 | a selected class yields a character of that class after one word, when the scaled draw is in range |
| Chars.CharDrawInKind | ExtraUtils.Randomizer/RNG.cs:384-426 | with some class selected and in-range scaled draws, NextChar(kind) returns a character of a selected class after two words |
| Chars.NextIntTopWord | ExtraUtils.Randomizer/RNG.cs:123 | NextInt(0, max) from state 0x5D070FF2 yields max + 1, for 0 <= max < 100 |
| Chars.CharDrawTopWordAny | ExtraUtils.Randomizer/RNG.cs:411 | with the source's double arithmetic, NextChar(Any) from state 0x5D070FF2 indexes past the four-slot buffer and raises |
| Chars.CharDrawTopWordLetterOrDigit | ExtraUtils.Randomizer/RNG.cs:411-419 | NextChar(LetterOrDigit) from that state picks the empty slot and returns '\0' |
| Chars.Fill | ExtraUtils.Randomizer/RNG.cs:449-452 | defines the first n draws of the NextString loop: at most n items, exactly n unless an exception ended the fill, each draw from the state the previous one left |
| Chars.FillSnoc | ExtraUtils.Randomizer/RNG.cs:449-452 | the fill of n + 1 items is one more draw after the fill of n |
| Chars.FillSucceeds | ExtraUtils.Randomizer/RNG.cs:449-452 | when every draw succeeds after two words, n items are written and 2n words drawn |
| Chars.FillFailsAtOnce | ExtraUtils.Randomizer/RNG.cs:449-452 | a first draw that raises ends the fill with nothing written |
| Chars.FillStaysFailed | ExtraUtils.Randomizer/RNG.cs:449-452 | once an exception has ended the fill a longer buffer changes nothing |
| Chars.FillStep | ExtraUtils.Randomizer/RNG.cs:451 | one draw of the loop appends its character or ends the fill with its exception |
| Chars.FillCharsInKind | ExtraUtils.Randomizer/RNG.cs:447-453 | NextString(destination, kind) writes every element with a character of a selected class, two words each |
| Chars.FillCharsNoClass | ExtraUtils.Randomizer/RNG.cs:447-453 | with no class selected NextString over a non-empty buffer raises at once, writes nothing and draws nothing |
| Randomizer.RNG.NextChar | ExtraUtils.Randomizer/RNG.cs:374-377 | NextChar() is NextChar(LetterOrDigit) |
| Randomizer.RNG.NextCharOf | ExtraUtils.Randomizer/RNG.cs:384-426 | result and new state are `CharDraw` of the old state and the kind |
| Randomizer.RNG.SelectClasses | ExtraUtils.Randomizer/RNG.cs:391-409 | the four-slot buffer holds the selected classes in order, then zeroes; the count is their number |
| Randomizer.RNG.AppendIfSet | ExtraUtils.Randomizer/RNG.cs:394-397 | one flag check appends the candidate class exactly when its flag is set |
| Randomizer.RNG.NextCharOfClass | ExtraUtils.Randomizer/RNG.cs:413-420 | the switch on the picked flag: a character of its class, or '\0' with no draw |
| Randomizer.RNG.NextString | ExtraUtils.Randomizer/RNG.cs:433-439 | NextString(destination) is the LetterOrDigit fill |
| Randomizer.RNG.NextStringOf | ExtraUtils.Randomizer/RNG.cs:447-453 | the buffer holds the fill's characters followed by its old contents past them; the state and exception are the fill's |
| Randomizer.RNG.NextFilledChar | ExtraUtils.Randomizer/RNG.cs:451 | one element written, or the exception ends the fill with the earlier elements in place |
| Bytes.WordBytesRoundTrip | ExtraUtils.Randomizer/RNG.cs:470 | the four stored bytes weigh the word's unsigned value, and reading them back gives the word |
| Bytes.BytesWordRoundTrip | ExtraUtils.Randomizer/RNG.cs:470 | four bytes read as a word and stored again are the same bytes |
| Bytes.LowByteFirst | ExtraUtils.Randomizer/RNG.cs:478 | `(byte)(w & byte.MaxValue)` is the first byte a stored word occupies |
| Bytes.WordCount | ExtraUtils.Randomizer/RNG.cs:465-473 | the word loop stores no word for four bytes or fewer, and otherwise stops with one to four bytes left |
| Bytes.BytesAsWritten | ExtraUtils.Randomizer/RNG.cs:460-480 | defines NextBytes on a buffer: above four bytes WordCount little-endian words and the old tail; otherwise one low byte per word |
| Bytes.BytesAsWrittenTail | ExtraUtils.Randomizer/RNG.cs:460-480 | the buffer keeps its length; past the words, one to four bytes keep their old value; four bytes or fewer are each the low byte of its own word |
| Bytes.EightBytesHalfWritten | ExtraUtils.Randomizer/RNG.cs:460-480 | an 8-byte buffer receives one word and keeps bytes 4 to 7 |
| Bytes.BytesFixedContract | ExtraUtils.Randomizer/RNG.cs:460-480 | the corrected fill writes the whole buffer (the words, then low bytes) and agrees with the code for four bytes or fewer |
| Randomizer.RNG.NextBytes | ExtraUtils.Randomizer/RNG.cs:460-480 | buffer and new state are `BytesAsWritten` of the old state and old contents |
| Randomizer.RNG.StoreWords | ExtraUtils.Randomizer/RNG.cs:465-474 | the word loop stores WordCount words at offsets 0, 4, ..., leaving the rest, and returns offset and remaining length |
| Randomizer.RNG.StoreLowBytes | ExtraUtils.Randomizer/RNG.cs:476-479 | the byte loop writes low bytes of further words at offsets start to length - 1 and nothing else |
| Randomizer.RNG.StoreLowByte | ExtraUtils.Randomizer/RNG.cs:478 | one byte is the low byte of the next word |
| Randomizer.RNG.StoreWord | ExtraUtils.Randomizer/RNG.cs:470 | one pass stores the next word's four bytes at offset i |
| Extensions.Swap | ExtraUtils.Randomizer/RNGExtensions.cs:35-37 | the exchange puts each element in the other's place and leaves the rest |
| Extensions.SwapPermutes | ExtraUtils.Randomizer/RNGExtensions.cs:35-37 | an exchange keeps the multiset of elements |
| Extensions.Exchange | ExtraUtils.Randomizer/RNGExtensions.cs:35-37 | the three assignments through temp are the exchange |
| Extensions.ShuffleFrom | ExtraUtils.Randomizer/RNGExtensions.cs:29-39 | defines iterations i onwards of Shuffle: keeps the length; each draws NextInt(i, length - 1), raises for an index outside the list, or exchanges |
| Extensions.ShuffleFromStep | ExtraUtils.Randomizer/RNGExtensions.cs:34-37 | iteration i draws NextInt(i, length - 1) and either exchanges or raises on an index outside the list |
| Extensions.ShuffleStep | ExtraUtils.Randomizer/RNGExtensions.cs:34-37 | one iteration on the array advances ShuffleFrom by one iteration, or ends it with the exception |
| Extensions.Shuffle | ExtraUtils.Randomizer/RNGExtensions.cs:29-39 | list, exception and new state are those of `ShuffleList` of the old list and state |
| Extensions.ShufflePermutes | ExtraUtils.Randomizer/RNGExtensions.cs:29-39 | whatever the draws, the list keeps its multiset of elements, also when an exception ends the loop |
| Extensions.IndexInRange | ExtraUtils.Randomizer/RNGExtensions.cs:34 | with in-range draws the index of iteration i lies in [i, length - 1], after one word |
| Extensions.ShuffleInRange | ExtraUtils.Randomizer/RNGExtensions.cs:32-37 | with in-range draws no iteration raises and positions before i are never changed again |
| Extensions.ShuffleDrawsWords | ExtraUtils.Randomizer/RNGExtensions.cs:31-34 | with in-range draws the iterations from i on draw one word each |
| Extensions.ShuffleListInRange | ExtraUtils.Randomizer/RNGExtensions.cs:29-39 | with in-range draws Shuffle returns a permutation after exactly one word per element; an empty list is unchanged and draws nothing |
| Extensions.ShuffleTopWordRaises | ExtraUtils.Randomizer/RNGExtensions.cs:34-36 | with the source's double arithmetic a one-element list from state 0x5D070FF2 reads at index 1 and raises |
| Extensions.Random | ExtraUtils.Randomizer/RNGExtensions.cs:59-64 | result and new state are NextInt(start.Value, end.Value) |
| Extensions.RangeDraw | ExtraUtils.Randomizer/RNGExtensions.cs:59-64 | defines Random(range) from a state: NextInt(start.Value, end.Value), with the end inclusive and the from-end marker ignored |
| Extensions.RangeDrawContract | ExtraUtils.Randomizer/RNGExtensions.cs:59-64 | raises exactly when start > end, leaving the state; otherwise the value lies in [start, end] with the end inclusive; a from-end marker makes no difference |
| PrimeNumberHelper.Mod | ExtraUtils.Randomizer/Utility/PrimeNumberHelper.cs:54-58 | input itself when input <= ceil, and input % ceil (truncating) otherwise |
| PrimeNumberHelper.PrimeAsWritten | ExtraUtils.Randomizer/Utility/PrimeNumberHelper.cs:21-52 | defines IsPrime's answer: ArgumentException below 0, false for 0, 1 and even values, true for 2 and 3, false above int.MaxValue, otherwise no divisor from 4 on |
| PrimeNumberHelper.IsPrime | ExtraUtils.Randomizer/Utility/PrimeNumberHelper.cs:21-52 | the loop with its `int` counter computes `PrimeAsWritten`: ArgumentException below 0, false for 0, 1 and even values, true for 2 and 3, trial division from 4 on |
| PrimeNumberHelper.PrimeAsWrittenAgrees | ExtraUtils.Randomizer/Utility/PrimeNumberHelper.cs:21-52 | on the `int` range every value but 9 is reported prime exactly when it is prime |
| PrimeNumberHelper.NineReportedPrime | ExtraUtils.Randomizer/Utility/PrimeNumberHelper.cs:43-49 | 9 is reported prime |
| PrimeNumberHelper.LargePrimeReportedComposite | ExtraUtils.Randomizer/Utility/PrimeNumberHelper.cs:43-49 | no prime above int.MaxValue is reported prime |
| PrimeNumberHelper.IsPrimeFixed | ExtraUtils.Randomizer/Utility/PrimeNumberHelper.cs:21-52 | trial division from 3 with a `long` counter answers primality exactly |
| PrimeNumberHelper.NextPrime | ExtraUtils.Randomizer/Utility/PrimeNumberHelper.cs:8-19 | the least value above num that IsPrime accepts; ArgumentException exactly when num < -1 (a negative first candidate) or no value ahead is accepted; always the exception from int.MaxValue on |
| PrimeNumberHelper.NextPrimeAfterMinusOne | ExtraUtils.Randomizer/Utility/PrimeNumberHelper.cs:8-19 | NextPrime(-1) is 2 |
| PrimeNumberHelper.NextPrimeFixed | ExtraUtils.Randomizer/Utility/PrimeNumberHelper.cs:8-19 | over the corrected IsPrime, the least prime above num; ArgumentException when num < -1 |

## Left out

- NextDouble, NextFloat and their bounded overloads (RNG.cs:266-339): floating point is not modelled. The scaled branch of the integer draws is the `Scaler` parameter described above.
- Randomizer.RNG.NextBool: the scaled value of NextDouble() * 2 is the `Scaler`'s, so the contract says "NextInt(1) == 1" rather than anything about balance.
- `RNG.Default` (RNG.cs:56-66), and the `Shuffle(list)` and `Random(range)` overloads that use it: they read a clock.
- Concurrency: the generator is a single-threaded object.
- Randomizer.RNG.RejectInt and Randomizer.RNG.RejectLong: termination only probable, so they require that some future candidate is in range (partial correctness).
- Randomizer.RNG.NextBits: the Debug.Assert on the count is not modelled. Any `byte` count is accepted, with C#'s shift-count masking.
- Randomizer.RNG.NextBytes: the raw memory reinterpretation of `Unsafe.As`/`AddByteOffset` is modelled as storing the four bytes in little-endian order; the platform's order is not modelled.
- Extensions.Shuffle: an `IList<T>` is modelled as an array. Reading outside an array raises IndexOutOfRange, where a `List<T>` raises ArgumentOutOfRange; the model names the first.
- Extensions.Random: a `System.Index` is its value and its from-end flag; the rest of `System.Range` is not modelled.

## Findings

| source | as written | input that shows it | evidently intended | confidence | as-written member | corrected member |
|---|---|---|---|---|---|---|
| ExtraUtils.Randomizer/RNG.cs:123 | `(int)(NextDouble() * (n + 1)) + min`, where NextDouble() is `m * (1.0 / int.MaxValue)` and is 1.0 for m = int.MaxValue | NextInt(0, 9) from state 0x5D070FF2 (next word int.MaxValue) gives 10, and NextInt(5, 5) gives 6 | a value in [min, max] (NextDouble excludes 1) | not executed | Draws.NextIntTenOfTen | Draws.UnitScaleInRange |
| ExtraUtils.Randomizer/RNG.cs:411 | the slot index comes from the same overshooting NextInt(0, count - 1) | NextChar(Any) from state 0x5D070FF2 raises IndexOutOfRange; NextChar(LetterOrDigit) returns '\0' | a character of a selected class | not executed | Chars.CharDrawTopWordAny | Chars.CharDrawInKind |
| ExtraUtils.Randomizer/RNGExtensions.cs:34 | the index comes from the same overshooting NextInt(i, length - 1) | Shuffle of a one-element list from state 0x5D070FF2 reads index 1 and raises | a permutation, one word per element | not executed | Extensions.ShuffleTopWordRaises | Extensions.ShuffleListInRange |
| ExtraUtils.Randomizer/RNG.cs:177 | the multiplier `n + 1` overflows to long.MinValue when n = long.MaxValue | NextLong(long.MaxValue) returns a negative value for every word that does not mask to 0 | a value in [0, long.MaxValue] | not executed | Draws.NextLongMaxNegative | Draws.BoundedLongFixedContract |
| ExtraUtils.Randomizer/RNG.cs:221-224 | the `uint` bounds are cast to `int` before the order check | NextUInt(0, 3000000000) raises ArgumentOutOfRange | a value in [0, 3000000000] | not executed | Draws.NextUIntRejectsValidBounds | Draws.BoundedUIntShiftedContract |
| ExtraUtils.Randomizer/RNG.cs:256-259 | the `ulong` bounds are cast to `long` before the order check | NextULong(0, 2^63) raises ArgumentOutOfRange | a value in [0, 2^63] | not executed | Draws.NextULongRejectsValidBounds | Draws.BoundedULongShiftedContract |
| ExtraUtils.Randomizer/Utility/PrimeNumberHelper.cs:43 | trial division starts at 4, so 3 is never tried | IsPrime(9) returns true | false, 9 = 3 * 3 | not executed | PrimeNumberHelper.NineReportedPrime | PrimeNumberHelper.IsPrimeFixed |
| ExtraUtils.Randomizer/Utility/PrimeNumberHelper.cs:43 | the counter is an `int` compared with a `long`; past int.MaxValue it wraps to int.MinValue and reaches -1, where the remainder is 0 | IsPrime(2147483659) returns false although 2147483659 is prime | true | not executed | PrimeNumberHelper.LargePrimeReportedComposite | PrimeNumberHelper.IsPrimeFixed |
| ExtraUtils.Randomizer/RNG.cs:468-476 | the word loop decrements `length` while advancing `i`, so the byte loop `i < length` never runs after it | NextBytes on an 8-byte buffer writes bytes 0 to 3 and leaves 4 to 7 unchanged | every byte written | not executed | Bytes.EightBytesHalfWritten | Bytes.BytesFixedContract |
