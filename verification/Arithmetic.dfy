/** Division facts the solver does not find by itself. */
module Arithmetic {

  lemma MulBound(k: int, n: int)
    requires n > 0
    ensures k >= 1 ==> k * n >= n
    ensures k <= -1 ==> k * n <= -n
  {
  }

  /** Quotient and remainder are determined by what they make up. */
  lemma DivModUnique(a: int, n: int, q: int, r: int)
    requires n > 0 && a == q * n + r && 0 <= r < n
    ensures a / n == q && a % n == r
  {
    DivMod(a, n);
    Distribute(q, a / n, n);
    MulBound(q - a / n, n);
  }

  lemma DivMod(a: int, n: int)
    requires n > 0
    ensures a == (a / n) * n + a % n && 0 <= a % n < n
  {
  }

  lemma Distribute(p: int, q: int, n: int)
    ensures (p - q) * n == p * n - q * n
  {
  }

  /** Integer division as C++ does it: the quotient is cut toward zero. */
  function TruncDiv(a: int, b: int): int
    requires b > 0
  {
    if a >= 0 then a / b else -((-a) / b)
  }

  lemma TruncDivBounds(a: int, b: int)
    requires b > 0
    ensures a >= 0 ==> 0 <= TruncDiv(a, b) * b <= a < TruncDiv(a, b) * b + b && TruncDiv(a, b) >= 0
    ensures TruncDiv(-a, b) == -TruncDiv(a, b)
    ensures a <= 0 ==> 0 <= -TruncDiv(a, b) * b <= -a < -TruncDiv(a, b) * b + b && TruncDiv(a, b) <= 0
  {
    var m := if a >= 0 then a else -a;
    DivMod(m, b);
    QuotientSign(m, b);
  }

  lemma QuotientSign(m: int, b: int)
    requires m >= 0 && b > 0
    ensures m / b >= 0 && (m / b) * b >= 0
  {
  }

  /** A quotient that fits is the quotient. */
  lemma QuotientIs(a: int, b: int, q: int)
    requires b > 0 && q * b <= a < q * b + b
    ensures a / b == q
  {
    DivModUnique(a, b, q, a - q * b);
  }

  lemma QuotientMonotone(a: int, a': int, b: int)
    requires b > 0 && a <= a'
    ensures a / b <= a' / b
  {
    DivMod(a, b);
    DivMod(a', b);
    Distribute(a / b, a' / b, b);
    MulBound(a / b - a' / b, b);
  }

  lemma TruncDivMonotone(a: int, a': int, b: int)
    requires b > 0 && a <= a'
    ensures TruncDiv(a, b) <= TruncDiv(a', b)
  {
    if a >= 0 {
      QuotientMonotone(a, a', b);
    } else if a' >= 0 {
      QuotientSign(-a, b);
      QuotientSign(a', b);
    } else {
      QuotientMonotone(-a', -a, b);
    }
  }

  lemma MulMonotone(a: int, a': int, n: int)
    requires n >= 0 && a <= a'
    ensures a * n <= a' * n
  {
  }

  lemma QuotientSum(q: int, a: int, b: int)
    requires b > 0
    ensures (q * b + a) / b == q + a / b
  {
    DivMod(a, b);
    DivModUnique(q * b + a, b, q + a / b, a % b);
  }

  lemma QuotientZeroIff(a: int, b: int)
    requires a >= 0 && b > 0
    ensures a / b == 0 <==> a < b
  {
  }

  lemma QuotientBelow(a: int, d: int, c: int)
    requires d > 0
    ensures a / d < c <==> a < d * c
  {
    DivMod(a, d);
    Distribute(a / d, c, d);
    MulBound(a / d - c, d);
  }

  lemma BelowCeiling(f: int, n: int, d: int)
    requires d > 0
    ensures f * d < n <==> f < (n + d - 1) / d
  {
    QuotientBelow(n + d - 1, d, f + 1);
    assert d * (f + 1) == f * d + d;
  }

  // ----- Divisibility -----

  predicate Divides(d: int, a: int)
    requires d > 0
  {
    a % d == 0
  }

  ghost predicate Coprime(a: int, b: int) {
    forall d: int :: d > 1 && Divides(d, a) ==> !Divides(d, b)
  }

  lemma DividesSum(d: int, q: int, b: int, r: int)
    requires d > 0 && Divides(d, b) && Divides(d, r)
    ensures Divides(d, q * b + r)
  {
    DivMod(b, d);
    DivMod(r, d);
    assert q * b + r == (q * (b / d) + r / d) * d;
    DivModUnique(q * b + r, d, q * (b / d) + r / d, 0);
  }

  /** Coprime numbers combine to one. */
  lemma {:induction false} Bezout(a: int, b: int) returns (x: int, y: int)
    requires a > 0 && b >= 0 && Coprime(a, b)
    ensures x * a + y * b == 1
    decreases b
  {
    if b == 0 {
      assert a > 1 ==> Divides(a, a) && Divides(a, 0);
      x, y := 1, 0;
    } else {
      var q, r := a / b, a % b;
      DivMod(a, b);
      forall d: int | d > 1 && Divides(d, b) ensures !Divides(d, r) {
        if Divides(d, r) {
          DividesSum(d, q, b, r);
        }
      }
      var u, v := Bezout(b, r);
      assert u * b + v * (a - q * b) == v * a + (u - v * q) * b;
      x, y := v, u - v * q;
    }
  }

  /** A factor coprime to the divisor makes no difference to divisibility. */
  lemma MultipleOfCoprime(x: int, a: int, b: int)
    requires a > 0 && b > 0 && Coprime(a, b)
    ensures (x * a) % b == 0 <==> x % b == 0
  {
    if x % b == 0 {
      DivMod(x, b);
      assert x * a == (x / b * a) * b;
      DivModUnique(x * a, b, x / b * a, 0);
    } else if (x * a) % b == 0 {
      var u, v := Bezout(a, b);
      DivMod(x * a, b);
      var k := x * a / b;
      assert x == x * (u * a + v * b) == u * (x * a) + (x * v) * b == (u * k + x * v) * b;
      DivModUnique(x, b, u * k + x * v, 0);
    }
  }
}
