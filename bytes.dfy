/** NextBytes (RNG.cs): whole `int` words stored four bytes at a time while
    more than four bytes remain, then single bytes taken from the low byte of
    a word. A word is stored in little-endian byte order. */
module Bytes {
  import opened IntWidth
  import opened Xorshift

  type byte = x: int | 0 <= x < 256

  /** The four bytes of a word as stored in memory, lowest first. */
  function WordBytes(w: int32): (b: seq<byte>)
    ensures |b| == 4
  {
    var u := AsUInt32(w);
    var q1 := u / 0x100;
    var q2 := q1 / 0x100;
    [u % 0x100, q1 % 0x100, q2 % 0x100, q2 / 0x100]
  }

  /** The unsigned value of four bytes, lowest first. */
  function Weight(b: seq<byte>): int
    requires |b| == 4
  {
    b[0] as int + 0x100 * (b[1] as int) + 0x1_0000 * (b[2] as int) + 0x100_0000 * (b[3] as int)
  }

  /** The word stored in four bytes. */
  function BytesWord(b: seq<byte>): int32
    requires |b| == 4
  {
    AsInt32(Weight(b))
  }

  /** Storing a word and reading it back gives the word. */
  lemma WordBytesRoundTrip(w: int32)
    ensures Weight(WordBytes(w)) == AsUInt32(w)
    ensures BytesWord(WordBytes(w)) == w
  {
    var u := AsUInt32(w);
    var q1 := u / 0x100;
    var q2 := q1 / 0x100;
    assert u == 0x100 * q1 + u % 0x100;
    assert q1 == 0x100 * q2 + q1 % 0x100;
    assert q2 == 0x100 * (q2 / 0x100) + q2 % 0x100;
  }

  /** Four bytes read as a word and stored again are the same bytes. */
  lemma BytesWordRoundTrip(b: seq<byte>)
    requires |b| == 4
    ensures WordBytes(BytesWord(b)) == b
  {
    var u := Weight(b);
    assert AsUInt32(AsInt32(u)) == u;
    var q1 := b[1] as int + 0x100 * (b[2] as int) + 0x1_0000 * (b[3] as int);
    var q2 := b[2] as int + 0x100 * (b[3] as int);
    assert u / 0x100 == q1 && u % 0x100 == b[0];
    assert q1 / 0x100 == q2 && q1 % 0x100 == b[1];
    assert q2 / 0x100 == b[3] && q2 % 0x100 == b[2];
  }

  /** `(byte)(w & byte.MaxValue)`: the low byte of the word's two's
      complement pattern, which is its remainder modulo 256 (2^32 is a
      multiple of 256). */
  function LowByte(w: int32): byte {
    w % 0x100
  }

  /** The low byte is the first of the four bytes a stored word occupies. */
  lemma LowByteFirst(w: int32)
    ensures LowByte(w) == WordBytes(w)[0]
  {
    assert AsUInt32(w) == w || AsUInt32(w) == w + 0x100 * 0x100_0000;
  }

  /** The number of words the first loop of NextBytes stores into L bytes: it
      runs while more than four bytes remain, so it stops with one to four
      left, and does not run at all for four bytes or fewer. */
  function WordCount(L: nat): (c: nat)
    ensures L <= 4 ==> c == 0
    ensures L > 4 ==> 4 * c < L <= 4 * c + 4
  {
    if L > 4 then (L - 1) / 4 else 0
  }

  /** The bytes of the first c words drawn from state s, in order. */
  function WordsBytes(s: bv32, c: nat): (b: seq<byte>)
    ensures |b| == 4 * c
  {
    if c == 0 then [] else WordsBytes(s, c - 1) + WordBytes(WordAt(s, c))
  }

  /** The low bytes of the first n words drawn from state s, in order. */
  function LowBytes(s: bv32, n: nat): (b: seq<byte>)
    ensures |b| == n
  {
    if n == 0 then [] else LowBytes(s, n - 1) + [LowByte(WordAt(s, n))]
  }

  /** The contents of a byte buffer after a fill, and the generator state. */
  datatype Written = Written(bytes: seq<byte>, next: bv32)

  /** NextBytes on a buffer holding `prior`, from state s, as the code does it:
      the byte loop counts up to the remaining length rather than the buffer
      length, so after the word loop it writes nothing. */
  function BytesAsWritten(s: bv32, prior: seq<byte>): Written {
    var L := |prior|;
    if L > 4 then
      var c := WordCount(L);
      Written(WordsBytes(s, c) + prior[4 * c..], Iterate(s, c))
    else
      Written(LowBytes(s, L), Iterate(s, L))
  }

  /** The buffer keeps its length; for more than four bytes the byte after
      the last stored word onwards, one to four bytes, keeps its old value. */
  lemma BytesAsWrittenTail(s: bv32, prior: seq<byte>)
    ensures |BytesAsWritten(s, prior).bytes| == |prior|
    ensures |prior| > 4 ==> 1 <= |prior| - 4 * WordCount(|prior|) <= 4
    ensures |prior| > 4 ==> BytesAsWritten(s, prior).bytes[4 * WordCount(|prior|)..] == prior[4 * WordCount(|prior|)..]
    ensures |prior| <= 4 ==> BytesAsWritten(s, prior).bytes == LowBytes(s, |prior|)
  {
  }

  /** NextBytes on an 8-byte buffer stores one word and leaves bytes 4 to 7 as they were. */
  lemma EightBytesHalfWritten(s: bv32, prior: seq<byte>)
    requires |prior| == 8
    ensures BytesAsWritten(s, prior).bytes == WordBytes(WordAt(s, 1)) + prior[4..]
    ensures BytesAsWritten(s, prior).next == Step(s)
  {
    assert WordCount(8) == 1;
    assert WordsBytes(s, 1) == WordBytes(WordAt(s, 1));
    assert Iterate(s, 1) == Step(Iterate(s, 0));
  }

  /** NextBytes as evidently intended: the byte loop runs to the end of the
      buffer, so the words are followed by the low bytes of further words. */
  function BytesFixed(s: bv32, L: nat): Written {
    var c := WordCount(L);
    Written(WordsBytes(s, c) + LowBytes(Iterate(s, c), L - 4 * c), Iterate(s, L - 3 * c))
  }

  /** The corrected fill writes every byte of the buffer (its result depends
      on the state alone, not on the old contents), one word for each stored
      word and for each single byte; for at most four bytes it agrees with
      the code. */
  lemma BytesFixedContract(s: bv32, prior: seq<byte>)
    ensures |BytesFixed(s, |prior|).bytes| == |prior|
    ensures BytesFixed(s, |prior|).bytes[..4 * WordCount(|prior|)] == WordsBytes(s, WordCount(|prior|))
    ensures BytesFixed(s, |prior|).bytes[4 * WordCount(|prior|)..] == LowBytes(Iterate(s, WordCount(|prior|)), |prior| - 4 * WordCount(|prior|))
    ensures |prior| <= 4 ==> BytesFixed(s, |prior|) == BytesAsWritten(s, prior)
  {
  }
}
