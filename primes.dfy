/** PrimeNumberHelper.cs: trial-division primality and the next prime after
    a `long`. The divisor counter of IsPrime is an `int` compared against a
    `long`, modelled with its 32-bit wrap-around. */
module PrimeNumberHelper {
  import opened IntWidth
  import opened Results

  /** n is a prime number. */
  ghost predicate IsPrimeNumber(n: int) {
    n >= 2 && forall d :: 2 <= d < n ==> n % d != 0
  }

  /** `Mod(input, ceil)`: C#'s truncating `input % ceil` when input > ceil,
      and input itself otherwise. It keeps the residue modulo a positive
      ceil, and by a negative ceil it is the residue modulo its magnitude. */
  function Mod(input: int64, ceil: int64): (r: int)
    requires input > ceil ==> ceil != 0
    ensures input <= ceil ==> r == input
    ensures 0 < ceil < input ==> r == input % ceil
    ensures ceil < 0 <= input ==> r == input % -(ceil as int)
  {
    if input > ceil then Rem(input, ceil) else input
  }

  /** What IsPrime(value) returns or throws. Trial division starts at 4, so
      3 is never tried; and an odd value above int.MaxValue sends the `int`
      counter round to -1, where the remainder is 0. */
  function PrimeAsWritten(value: int64): Result<bool> {
    if value < 0 then Err(ArgumentException)
    else if value == 0 || value == 1 then Ok(false)
    else if value == 2 || value == 3 then Ok(true)
    else if value % 2 == 0 then Ok(false)
    else if value > INT32_MAX then Ok(false)
    else Ok(forall d | 4 <= d < value :: value % d != 0)
  }

  /** IsPrime(value), with its `int` counter. */
  method IsPrime(value: int64) returns (r: Result<bool>)
    ensures r == PrimeAsWritten(value)
  {
    if value < 0 {
      return Err(ArgumentException);
    }
    if value == 0 || value == 1 {
      return Ok(false);
    }
    if value == 2 || value == 3 {
      return Ok(true);
    }
    if Rem(value, 2) == 0 {
      return Ok(false);
    }
    var i: int32 := 4;
    while i < value
      invariant i >= 4 || (i <= -1 && value > INT32_MAX)
      invariant i >= 4 ==> forall d :: 4 <= d < i ==> value % d != 0
      decreases if i >= 4 then TWO_32 - i else -(i as int)
    {
      if Mod(value, i) == 0 {
        return Ok(false);
      }
      Wrap32Near(i as int + 1);
      i := Wrap32(i as int + 1);
    }
    return Ok(true);
  }

  /** 9 is reported prime. */
  lemma NineReportedPrime()
    ensures PrimeAsWritten(9) == Ok(true)
    ensures !IsPrimeNumber(9)
  {
    assert 9 % 3 == 0;
  }

  /** No prime above int.MaxValue (2147483659 is one) is reported prime. */
  lemma LargePrimeReportedComposite(value: int64)
    requires value > INT32_MAX && IsPrimeNumber(value)
    ensures PrimeAsWritten(value) == Ok(false)
  {
    assert value % 2 != 0;
  }

  /** Apart from 9, IsPrime answers correctly on the `int` range. */
  lemma PrimeAsWrittenAgrees(value: int64)
    requires 0 <= value <= INT32_MAX && value != 9
    ensures PrimeAsWritten(value) == Ok(IsPrimeNumber(value))
  {
    if value >= 4 && value % 2 == 1 && (forall d | 4 <= d < value :: value % d != 0) {
      var m := value / 3;
      if value % 3 == 0 {
        assert value == 3 * m;
        assert m >= 5;
        ModOfMultiple(3, m);
      }
      forall d | 2 <= d < value
        ensures value % d != 0
      {
        if d == 2 {
        } else if d == 3 {
        }
      }
    } else if value >= 4 && value % 2 == 0 {
      assert value % 2 == 0;
    }
  }

  /** A multiple of m leaves no remainder modulo m. */
  lemma ModOfMultiple(a: int, m: int)
    requires a >= 1 && m >= 1
    ensures (a * m) % m == 0
  {
    var x := a * m;
    var k := x / m;
    var r := x % m;
    assert m * (a - k) == r;
    if k < a {
      AtLeastOnce(a - k, m);
    } else if k > a {
      AtLeastOnce(k - a, m);
    }
  }

  /** IsPrime with the counter as wide as the value and trial division from 3. */
  method IsPrimeFixed(value: int64) returns (r: Result<bool>)
    ensures value < 0 ==> r == Err(ArgumentException)
    ensures value >= 0 ==> r == Ok(IsPrimeNumber(value))
  {
    if value < 0 {
      return Err(ArgumentException);
    }
    if value == 0 || value == 1 {
      return Ok(false);
    }
    if value == 2 || value == 3 {
      return Ok(true);
    }
    if Rem(value, 2) == 0 {
      assert value % 2 == 0;
      return Ok(false);
    }
    var i: int64 := 3;
    while i < value
      invariant 3 <= i <= value
      invariant forall d :: 2 <= d < i ==> value % d != 0
    {
      if Mod(value, i) == 0 {
        return Ok(false);
      }
      i := i + 1;
    }
    return Ok(true);
  }

  /** NextPrime(num): `++num` in unchecked `long` arithmetic until IsPrime
      holds; a negative candidate makes IsPrime throw. The loop ends at the
      latest when the candidate wraps round to long.MinValue. */
  method NextPrime(num: int64) returns (r: Result<int64>)
    ensures r.Ok? ==> num < r.value && PrimeAsWritten(r.value) == Ok(true)
    ensures r.Ok? ==> forall v :: num < v < r.value ==> PrimeAsWritten(v) != Ok(true)
    ensures r.Err? ==> r.error == ArgumentException
    ensures r.Err? ==> num < -1 || forall v: int64 :: num < v ==> PrimeAsWritten(v) != Ok(true)
    ensures num < -1 ==> r == Err(ArgumentException)
    ensures num >= INT32_MAX ==> r == Err(ArgumentException)
  {
    var n := num;
    while true
      invariant num <= n
      invariant num < -1 ==> n == num
      invariant forall v :: num < v <= n ==> PrimeAsWritten(v) != Ok(true)
      invariant num >= INT32_MAX ==> forall v: int64 :: v > num ==> PrimeAsWritten(v) == Ok(false)
      decreases INT64_MAX - n
    {
      Wrap64Near(n as int + 1);
      n := Wrap64(n as int + 1);
      var p := IsPrime(n);
      if p.Err? {
        return Err(p.error);
      }
      if p.value {
        return Ok(n);
      }
    }
  }

  /** NextPrime(-1) is 2: 0 and 1 are not reported prime, and 2 is. */
  method NextPrimeAfterMinusOne() returns (r: Result<int64>)
    ensures r == Ok(2)
  {
    r := NextPrime(-1);
    assert PrimeAsWritten(2) == Ok(true);
  }

  /** NextPrime over the corrected IsPrime: the least prime above num. */
  method NextPrimeFixed(num: int64) returns (r: Result<int64>)
    ensures r.Ok? ==> num < r.value && IsPrimeNumber(r.value)
    ensures r.Ok? ==> forall v :: num < v < r.value ==> !IsPrimeNumber(v)
    ensures r.Err? ==> r.error == ArgumentException
    ensures r.Err? ==> num < -1 || forall v: int64 :: num < v ==> !IsPrimeNumber(v)
    ensures num < -1 ==> r == Err(ArgumentException)
  {
    var n := num;
    while true
      invariant num <= n
      invariant num < -1 ==> n == num
      invariant forall v :: num < v <= n ==> !IsPrimeNumber(v)
      decreases INT64_MAX - n
    {
      Wrap64Near(n as int + 1);
      n := Wrap64(n as int + 1);
      var p := IsPrimeFixed(n);
      if p.Err? {
        return Err(p.error);
      }
      if p.value {
        return Ok(n);
      }
    }
  }
}
