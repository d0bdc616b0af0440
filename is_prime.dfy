/**
 * `isPrime`: trial division by 2 and then by the odd numbers up to the
 * square root. The bound `i <= Math.sqrt(num)` is stated on integers as
 * `i * i <= num`.
 */
module Primes {

  /** The mathematical definition: at least 2 and no divisor strictly between 1 and itself. */
  predicate Prime(n: int)
  {
    n >= 2 && forall d :: 2 <= d < n ==> n % d != 0
  }

  /** Multiplying by a non-zero integer moves at least one step of `a` away from 0. */
  lemma MulSign(a: int, k: int)
    requires a > 0
    ensures k >= 1 ==> a * k >= a
    ensures k <= -1 ==> a * k <= -a
  {
  }

  /** Euclidean division is unique: from `x == a * q + r` with `0 <= r < a` follows `x % a == r`. */
  lemma ModUnique(x: int, a: int, q: int, r: int)
    requires a > 0 && 0 <= r < a && x == a * q + r
    ensures x % a == r
  {
    var k := x / a - q;
    assert a * (x / a) + x % a == x;
    assert a * k == a * (x / a) - a * q;
    assert a * k == r - x % a;
    MulSign(a, k);
  }

  /** A number with a divisor `d` in [2, n) has one whose square is at most n. */
  lemma SmallFactor(n: int, d: int) returns (f: int)
    requires 2 <= d < n && n % d == 0
    ensures 2 <= f && f * f <= n && n % f == 0
  {
    var e := n / d;
    assert n == d * e + n % d;
    assert n == d * e;
    MulSign(d, e);
    assert e >= 2;
    ModUnique(n, e, d, 0);
    if d <= e {
      MulMonotone(d, d, e);
      f := d;
    } else {
      MulMonotone(e, e, d);
      assert e * d == n;
      f := e;
    }
  }

  /** Multiplying by a non-negative number keeps the order. */
  lemma MulMonotone(a: int, b: int, c: int)
    requires 0 <= a && b <= c
    ensures a * b <= a * c
  {
    assert a * c - a * b == a * (c - b);
  }

  /** A divisor of an odd number is odd. */
  lemma OddDivisor(n: int, f: int)
    requires n % 2 == 1 && f >= 1 && n % f == 0
    ensures f % 2 == 1
  {
    var q := n / f;
    var h := f / 2;
    var m := f % 2;
    assert n == f * q;
    assert f == 2 * h + m;
    assert n == 2 * (h * q) + m * q;
    assert m == 0 ==> n == 2 * (h * q);
  }

  /** A non-negative number whose square is below `i * i` is below `i`. */
  lemma SquareBelow(f: int, i: int)
    requires 0 <= f && 0 <= i && f * f < i * i
    ensures f < i
  {
  }

  /**
   * The loop's exit condition suffices: an odd number with no odd divisor
   * below `i`, where `i * i` exceeds it, is prime.
   */
  lemma NoSmallDivisorMeansPrime(n: int, i: int)
    requires n >= 3 && n % 2 == 1 && i >= 3 && i * i > n
    requires forall d :: 3 <= d < i && d % 2 == 1 ==> n % d != 0
    ensures Prime(n)
  {
    forall d | 2 <= d < n ensures n % d != 0 {
      if n % d == 0 {
        var f := SmallFactor(n, d);
        OddDivisor(n, f);
        SquareBelow(f, i);
        assert false;
      }
    }
  }

  /** `isPrime(num)` for an integer `num`. */
  method IsPrime(num: int) returns (r: bool)
    ensures r <==> Prime(num)
    ensures num <= 1 ==> !r
    ensures num == 2 ==> r
    ensures num > 2 && num % 2 == 0 ==> !r
  {
    if num <= 1 {
      return false;
    }
    if num == 2 {
      return true;
    }
    if num % 2 == 0 {
      return false;
    }
    var i := 3;
    while i * i <= num
      invariant 3 <= i && i % 2 == 1
      invariant forall d :: 3 <= d < i && d % 2 == 1 ==> num % d != 0
    {
      if num % i == 0 {
        assert i < i * i;
        return false;
      }
      i := i + 2;
    }
    NoSmallDivisorMeansPrime(num, i);
    return true;
  }

  /** The usage examples: 2, 3 and 17 are prime, 4 and 100 are not. */
  lemma Examples()
    ensures Prime(2) && Prime(3) && Prime(17)
    ensures !Prime(4) && !Prime(100)
  {
    assert 4 % 2 == 0;
    assert 100 % 2 == 0;
    NoSmallDivisorMeansPrime(17, 5);
  }
}
