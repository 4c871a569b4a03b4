/** NextChar (RNG.cs): a character class chosen among the flags of a
    RandomCharKind, then a character of that class; NextString fills a buffer
    with such characters. A kind is the enum's underlying `int`; the classes
    are its four lowest bits. */
module Chars {
  import opened IntWidth
  import opened Xorshift
  import opened Results
  import opened Draws

  const UPPER: int32 := 1
  const LOWER: int32 := 2
  const DIGIT: int32 := 4
  const SYMBOL: int32 := 8
  /** Upper | Lower */
  const LETTER: int32 := 3
  /** Letter | Digit */
  const LETTER_OR_DIGIT: int32 := 7
  /** Upper | Lower | Digit | Symbol */
  const ANY: int32 := 15

  const LettersUpper: string := "ABCDEFGHIJKLMNOPQRSTUVWXYZ"
  const LettersLower: string := "abcdefghijklmnopqrstuvwxyz"
  const Digits: string := "0123456789"
  const Symbols: string := "!\"#$%&'()*+,-./:;<=>?@[\\]^_`{|}~"

  /** The four single-class flags. */
  predicate IsClass(flag: int32) {
    flag == UPPER || flag == LOWER || flag == DIGIT || flag == SYMBOL
  }

  /** `(kind & flag) != 0` for a single-bit flag: that bit of kind's two's
      complement pattern is set. */
  predicate HasFlag(kind: int32, flag: int32)
    requires IsClass(flag)
  {
    (AsUInt32(kind) / flag) % 2 == 1
  }

  /** `(kind & Any) == 0`: none of the four class bits is set. */
  predicate NoClass(kind: int32) {
    AsUInt32(kind) % 16 == 0
  }

  /** The order in which NextChar(kind) checks the classes. */
  const Candidates: seq<int32> := [DIGIT, UPPER, LOWER, SYMBOL]

  /** The position of a class in the order NextChar(kind) checks them. */
  function ClassRank(flag: int32): (k: nat)
    ensures k < 4 && (IsClass(flag) ==> Candidates[k] == flag)
  {
    if flag == DIGIT then 0 else if flag == UPPER then 1 else if flag == LOWER then 2 else 3
  }

  /** The classes among the first n candidates whose flag is set in kind, in
      candidate order: the buffer NextChar(kind) has filled after n checks. */
  function Selected(kind: int32, n: nat): (sel: seq<int32>)
    requires n <= 4
    ensures |sel| <= n
  {
    if n == 0 then []
    else
      var c := Candidates[n - 1];
      assert IsClass(c);
      Selected(kind, n - 1) + (if HasFlag(kind, c) then [c] else [])
  }

  /** The classes NextChar(kind) chooses among, in the order it lists them:
      digits, upper case, lower case, symbols. */
  function SelectedFlags(kind: int32): (sel: seq<int32>)
    ensures |sel| <= 4
  {
    Selected(kind, 4)
  }

  /** After n checks the buffer holds exactly the candidates checked so far
      whose flag is set, each once. */
  lemma {:induction false} SelectedCandidates(kind: int32, n: nat)
    requires n <= 4
    ensures forall flag :: flag in Selected(kind, n) <==> flag in Candidates[..n] && IsClass(flag) && HasFlag(kind, flag)
    ensures forall i, j :: 0 <= i < j < |Selected(kind, n)| ==> Selected(kind, n)[i] != Selected(kind, n)[j]
  {
    SelectedRanks(kind, n);
    if n > 0 {
      SelectedCandidates(kind, n - 1);
      var prev, c := Selected(kind, n - 1), Candidates[n - 1];
      assert Candidates[..n] == Candidates[..n - 1] + [c];
      if HasFlag(kind, c) {
        assert Selected(kind, n) == prev + [c];
      } else {
        assert Selected(kind, n) == prev;
      }
    }
  }

  /** After n checks the buffer lists classes of rank below n, in the order
      they were checked. */
  lemma {:induction false} SelectedRanks(kind: int32, n: nat)
    requires n <= 4
    ensures forall i :: 0 <= i < |Selected(kind, n)| ==> ClassRank(Selected(kind, n)[i]) < n
    ensures forall i, j :: 0 <= i < j < |Selected(kind, n)| ==> ClassRank(Selected(kind, n)[i]) < ClassRank(Selected(kind, n)[j])
  {
    if n > 0 {
      SelectedRanks(kind, n - 1);
      var prev, c := Selected(kind, n - 1), Candidates[n - 1];
      assert ClassRank(c) == n - 1;
      if HasFlag(kind, c) {
        assert Selected(kind, n) == prev + [c];
      } else {
        assert Selected(kind, n) == prev;
      }
    }
  }

  /** The buffer holds exactly the classes whose flag is set in kind, each
      once, in the order digits, upper case, lower case, symbols. */
  lemma SelectedFlagsClasses(kind: int32)
    ensures forall flag :: flag in SelectedFlags(kind) <==> IsClass(flag) && HasFlag(kind, flag)
    ensures forall i, j :: 0 <= i < j < |SelectedFlags(kind)| ==> SelectedFlags(kind)[i] != SelectedFlags(kind)[j]
    ensures forall i, j :: 0 <= i < j < |SelectedFlags(kind)| ==> ClassRank(SelectedFlags(kind)[i]) < ClassRank(SelectedFlags(kind)[j])
  {
    SelectedCandidates(kind, 4);
    SelectedRanks(kind, 4);
    assert Candidates[..4] == Candidates;
  }

  /** n empty slots. */
  function Zeros(n: nat): (z: seq<int32>)
    ensures |z| == n && forall i :: 0 <= i < n ==> z[i] == 0
  {
    seq(n, _ => 0)
  }

  /** Slot v of the four-slot flag buffer: the selected classes first, then
      zeroes (the default enum value). */
  function Slot(kind: int32, v: nat): (flag: int32)
    requires v < 4
    ensures flag == 0 || flag in SelectedFlags(kind)
    ensures v < |SelectedFlags(kind)| ==> flag == SelectedFlags(kind)[v]
  {
    var sel := SelectedFlags(kind);
    if v < |sel| then sel[v] else 0
  }

  /** The characters of one class; any other value has none (NextChar then
      returns '\0'). */
  function Alphabet(flag: int32): (r: Option<string>)
    ensures r.Some? <==> IsClass(flag)
    ensures r.Some? ==> |r.value| >= 10
    ensures flag == UPPER || flag == LOWER ==> |r.value| == 26
    ensures flag == DIGIT ==> |r.value| == 10
    ensures flag == SYMBOL ==> |r.value| == 32
  {
    if flag == UPPER then Some(LettersUpper)
    else if flag == LOWER then Some(LettersLower)
    else if flag == DIGIT then Some(Digits)
    else if flag == SYMBOL then Some(Symbols)
    else None
  }

  /** Every character of the classes in kind. */
  ghost predicate InKind(kind: int32, c: char) {
    exists flag :: flag in SelectedFlags(kind) && Alphabet(flag).Some? && c in Alphabet(flag).value
  }

  /** The character of class `flag` at index i of the class's alphabet, or
      the exception the string indexer raises. */
  function CharOf(alpha: string, d: Draw<int32>): Draw<char> {
    match d.result
    case Err(e) => Draw(Err(e), d.next)
    case Ok(i) => if 0 <= i < |alpha| then Draw(Ok(alpha[i]), d.next) else Draw(Err(IndexOutOfRangeException), d.next)
  }

  /** The `switch` of NextChar(kind) on the picked flag, from state t: '\0' for
      a value that is no class (an empty slot holds 0), otherwise
      NextInt(0, length - 1) picks a character of the class. */
  ghost function CharOfClass(flag: int32, t: bv32, f: Scaler): Draw<char> {
    match Alphabet(flag)
    case None => Draw(Ok('\0'), t)
    case Some(alpha) => CharOf(alpha, SmallInt(t, 0, |alpha| - 1, f))
  }

  /** NextChar(kind) from state s: NextInt(0, count - 1) picks a slot of the
      flag buffer (raising when no class is selected, or IndexOutOfRange when
      the index is outside the buffer), then CharOfClass on the slot's flag. */
  ghost function CharDraw(s: bv32, kind: int32, f: Scaler): Draw<char> {
    var pick := SmallInt(s, 0, |SelectedFlags(kind)| - 1, f);
    match pick.result
    case Err(e) => Draw(Err(e), pick.next)
    case Ok(v) =>
      if 0 <= v < 4 then CharOfClass(Slot(kind, v), pick.next, f)
      else Draw(Err(IndexOutOfRangeException), pick.next)
  }

  /** The three ways NextChar(kind) continues once NextInt(0, count - 1) has
      returned: its exception, an index outside the buffer, or the slot's class. */
  lemma CharDrawByPick(s: bv32, kind: int32, f: Scaler, pick: Draw<int32>)
    requires pick == SmallInt(s, 0, |SelectedFlags(kind)| - 1, f)
    ensures pick.result.Err? ==> CharDraw(s, kind, f) == Draw(Err(pick.result.error), pick.next)
    ensures pick.result.Ok? && !(0 <= pick.result.value < 4) ==>
      CharDraw(s, kind, f) == Draw(Err(IndexOutOfRangeException), pick.next)
    ensures pick.result.Ok? && 0 <= pick.result.value < 4 ==>
      CharDraw(s, kind, f) == CharOfClass(Slot(kind, pick.result.value), pick.next, f)
  {
  }

  /** With no class selected NextChar raises ArgumentOutOfRange and draws nothing. */
  lemma CharDrawNoClass(s: bv32, kind: int32, f: Scaler)
    requires NoClass(kind)
    ensures CharDraw(s, kind, f) == Draw(Err(ArgumentOutOfRangeException), s)
  {
    var q := AsUInt32(kind) / 16;
    assert AsUInt32(kind) == 16 * q;
    assert !HasFlag(kind, DIGIT) && !HasFlag(kind, UPPER) && !HasFlag(kind, LOWER) && !HasFlag(kind, SYMBOL);
    assert Selected(kind, 2) == [];
    assert Selected(kind, 3) == [];
    assert SelectedFlags(kind) == [];
  }

  /** A selected class yields, when the scaled draw is in range, a character
      of that class after one more word. */
  lemma CharOfClassInKind(kind: int32, flag: int32, t: bv32, f: Scaler)
    requires ScalerInRange(f) && flag in SelectedFlags(kind)
    ensures CharOfClass(flag, t, f).result.Ok?
    ensures InKind(kind, CharOfClass(flag, t, f).result.value)
    ensures CharOfClass(flag, t, f).next == Step(t)
  {
    SelectedFlagsClasses(kind);
    var alpha := Alphabet(flag).value;
    SmallIntIsBoundedInt(t, 0, |alpha| - 1, f);
    BoundedIntScaled(t, 0, |alpha| - 1, f);
    var d := SmallInt(t, 0, |alpha| - 1, f);
    assert CharOfClass(flag, t, f) == Draw(Ok(alpha[d.result.value]), d.next);
    assert alpha[d.result.value] in alpha;
  }

  /** When the scaled draws are in range, NextChar(kind) with some class
      selected returns a character of one of the selected classes after two words. */
  lemma CharDrawInKind(s: bv32, kind: int32, f: Scaler)
    requires ScalerInRange(f) && |SelectedFlags(kind)| >= 1
    ensures CharDraw(s, kind, f).result.Ok?
    ensures InKind(kind, CharDraw(s, kind, f).result.value)
    ensures CharDraw(s, kind, f).next == Step(Step(s))
  {
    var n := |SelectedFlags(kind)|;
    SmallIntIsBoundedInt(s, 0, n - 1, f);
    BoundedIntScaled(s, 0, n - 1, f);
    var pick := SmallInt(s, 0, n - 1, f);
    var v := pick.result.value;
    CharDrawByPick(s, kind, f, pick);
    CharOfClassInKind(kind, Slot(kind, v), Step(s), f);
  }

  /** The digits are the one class of LetterOrDigit that NextChar lists first. */
  lemma LetterOrDigitFlags()
    ensures SelectedFlags(LETTER_OR_DIGIT) == [DIGIT, UPPER, LOWER]
    ensures SelectedFlags(ANY) == [DIGIT, UPPER, LOWER, SYMBOL]
  {
  }

  /** With the source's double arithmetic, the word int.MaxValue makes the slot
      index equal to the class count. With every class selected that is past
      the four-slot buffer, */
  lemma CharDrawTopWordAny(f: Scaler)
    requires ScalerAsWritten(f)
    ensures CharDraw(TopWordState, ANY, f) == Draw(Err(IndexOutOfRangeException), Step(TopWordState))
  {
    LetterOrDigitFlags();
    NextIntTopWord(f, 3);
    SmallIntIsBoundedInt(TopWordState, 0, 3, f);
  }

  /** and with fewer it is an empty slot, which yields '\0'. */
  lemma CharDrawTopWordLetterOrDigit(f: Scaler)
    requires ScalerAsWritten(f)
    ensures CharDraw(TopWordState, LETTER_OR_DIGIT, f) == Draw(Ok('\0'), Step(TopWordState))
  {
    LetterOrDigitFlags();
    NextIntTopWord(f, 2);
    SmallIntIsBoundedInt(TopWordState, 0, 2, f);
    assert Slot(LETTER_OR_DIGIT, 3) == 0;
    assert CharDraw(TopWordState, LETTER_OR_DIGIT, f) == CharOfClass(0, Step(TopWordState), f);
  }

  /** NextInt(0, max) from TopWordState yields max + 1 (for small max). */
  lemma NextIntTopWord(f: Scaler, max: int32)
    requires ScalerAsWritten(f) && 0 <= max < 100
    ensures BoundedInt(TopWordState, 0, max, f) == Draw(Ok(max + 1), Step(TopWordState))
  {
    assert Step(TopWordState) == 0xFFFF_FFFF;
    assert Output(Step(TopWordState)) == INT32_MAX;
    ScaledIntOvershoots(INT32_MAX, 0, max, f);
  }

  // ---------------------------------------------------------------------------
  // NextString

  /** What filling a buffer item by item has produced so far: the items
      written, the exception that stopped the fill if any, and the state. */
  datatype Filled<T> = Filled(items: seq<T>, failure: Option<Error>, next: bv32)

  /** The first n draws of a fill from state s: the first draw, then the
      remaining n - 1 from the state it leaves; an exception ends the fill. */
  function Fill<T>(s: bv32, draw: bv32 -> Draw<T>, n: nat): (r: Filled<T>)
    ensures |r.items| <= n
    ensures r.failure.None? ==> |r.items| == n
    decreases n
  {
    if n == 0 then Filled([], None, s)
    else
      var d := draw(s);
      match d.result
      case Err(e) => Filled([], Some(e), d.next)
      case Ok(c) =>
        var rest := Fill(d.next, draw, n - 1);
        Filled([c] + rest.items, rest.failure, rest.next)
  }

  /** One more draw after a fill that has not stopped. */
  function FillMore<T>(p: Filled<T>, draw: bv32 -> Draw<T>): Filled<T> {
    if p.failure.Some? then p
    else
      var d := draw(p.next);
      match d.result
      case Ok(c) => Filled(p.items + [c], None, d.next)
      case Err(e) => Filled(p.items, Some(e), d.next)
  }

  /** Draw n + 1 of a fill is one more draw from the state the first n left,
      unless one of them raised. */
  lemma {:induction false} FillSnoc<T>(s: bv32, draw: bv32 -> Draw<T>, n: nat)
    ensures Fill(s, draw, n + 1) == FillMore(Fill(s, draw, n), draw)
    decreases n
  {
    var d := draw(s);
    if n > 0 && d.result.Ok? {
      var c := d.result.value;
      FillSnoc(d.next, draw, n - 1);
      var rest := Fill(d.next, draw, n - 1);
      if rest.failure.None? {
        var e := draw(rest.next);
        if e.result.Ok? {
          assert [c] + (rest.items + [e.result.value]) == ([c] + rest.items) + [e.result.value];
        }
      }
    }
  }

  /** A fill whose every draw succeeds with an item satisfying P after two
      words writes n such items and draws 2n words. */
  lemma {:induction false} FillSucceeds<T>(s: bv32, draw: bv32 -> Draw<T>, P: T -> bool, n: nat)
    requires forall t :: draw(t).result.Ok? && P(draw(t).result.value) && draw(t).next == Step(Step(t))
    ensures Fill(s, draw, n).failure == None
    ensures |Fill(s, draw, n).items| == n
    ensures forall i :: 0 <= i < n ==> P(Fill(s, draw, n).items[i])
    ensures Fill(s, draw, n).next == Iterate(s, 2 * n)
    decreases n
  {
    if n > 0 {
      var d := draw(s);
      FillSucceeds(d.next, draw, P, n - 1);
      var rest := Fill(d.next, draw, n - 1);
      assert Fill(s, draw, n) == Filled([d.result.value] + rest.items, None, rest.next);
      assert Iterate(s, 2 * n) == Iterate(Step(Step(s)), 2 * n - 2);
    }
  }

  /** A fill whose first draw fails, leaving the state alone, stops there. */
  lemma FillFailsAtOnce<T>(s: bv32, draw: bv32 -> Draw<T>, e: Error, n: nat)
    requires draw(s) == Draw(Err(e), s) && n >= 1
    ensures Fill(s, draw, n) == Filled([], Some(e), s)
  {
  }

  /** Once a fill has stopped, a longer buffer gives the same outcome. */
  lemma {:induction false} FillStaysFailed<T>(s: bv32, draw: bv32 -> Draw<T>, m: nat, n: nat)
    requires m <= n && Fill(s, draw, m).failure.Some?
    ensures Fill(s, draw, n) == Fill(s, draw, m)
    decreases n
  {
    var d := draw(s);
    if d.result.Ok? {
      FillStaysFailed(d.next, draw, m - 1, n - 1);
    }
  }

  /** One more draw of a fill that has written `items` and not stopped: its
      item is appended, or its exception ends the fill of any longer buffer. */
  lemma FillStep<T>(s: bv32, draw: bv32 -> Draw<T>, i: nat, n: nat, items: seq<T>, t: bv32)
    requires i < n && Fill(s, draw, i) == Filled(items, None, t)
    ensures draw(t).result.Ok? ==> Fill(s, draw, i + 1) == Filled(items + [draw(t).result.value], None, draw(t).next)
    ensures draw(t).result.Err? ==> Fill(s, draw, n) == Filled(items, Some(draw(t).result.error), draw(t).next)
  {
    FillSnoc(s, draw, i);
    if draw(t).result.Err? {
      FillStaysFailed(s, draw, i + 1, n);
    }
  }

  /** The calls of NextChar(kind) that NextString(destination, kind) makes. */
  ghost function CharDraws(kind: int32, f: Scaler): bv32 -> Draw<char> {
    t => CharDraw(t, kind, f)
  }

  /** When the scaled draws are in range and some class is selected,
      NextString(destination, kind) writes n characters, every one of a
      selected class, and draws two words per character. */
  lemma FillCharsInKind(s: bv32, kind: int32, f: Scaler, n: nat)
    requires ScalerInRange(f) && |SelectedFlags(kind)| >= 1
    ensures var r := Fill(s, CharDraws(kind, f), n);
      r.failure == None && |r.items| == n && r.next == Iterate(s, 2 * n)
      && forall i :: 0 <= i < n ==> InKind(kind, r.items[i])
  {
    forall t | true
      ensures CharDraws(kind, f)(t).result.Ok? && InKind(kind, CharDraws(kind, f)(t).result.value)
      ensures CharDraws(kind, f)(t).next == Step(Step(t))
    {
      CharDrawInKind(t, kind, f);
    }
    FillSucceeds(s, CharDraws(kind, f), c => InKind(kind, c), n);
  }

  /** With no class selected, NextString over a non-empty buffer writes
      nothing, raises, and leaves the state alone. */
  lemma FillCharsNoClass(s: bv32, kind: int32, f: Scaler, n: nat)
    requires NoClass(kind) && n >= 1
    ensures Fill(s, CharDraws(kind, f), n) == Filled([], Some(ArgumentOutOfRangeException), s)
  {
    CharDrawNoClass(s, kind, f);
    FillFailsAtOnce(s, CharDraws(kind, f), ArgumentOutOfRangeException, n);
  }
}
