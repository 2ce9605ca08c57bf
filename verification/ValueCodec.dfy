/** How durations and integers are stored as 64-bit integers and read back. */
module ValueCodec {
  import opened Prelude
  import opened Arithmetic

  const TWO_TO_THE_32: int := 0x1_0000_0000
  const TWO_TO_THE_63: int := 0x8000_0000_0000_0000
  const TWO_TO_THE_64: int := 0x1_0000_0000_0000_0000

  predicate FitsInt64(x: int) {
    -TWO_TO_THE_63 <= x < TWO_TO_THE_63
  }

  /** One tick lasts `num / den` microseconds, in lowest terms or not. */
  datatype Period = Period(num: int, den: int)
  {
    predicate Valid() {
      num > 0 && den > 0
    }
  }

  /** Binding: ticks to microseconds. `None` when the product leaves 64 bits, which C++ does not define. */
  function Encode(p: Period, ticks: int): Option<int>
    requires p.Valid()
  {
    if FitsInt64(ticks * p.num) then Some(TruncDiv(ticks * p.num, p.den)) else None
  }

  /** Reading: microseconds to ticks. */
  function Decode(p: Period, micros: int): Option<int>
    requires p.Valid()
  {
    if FitsInt64(micros * p.den) then Some(TruncDiv(micros * p.den, p.num)) else None
  }

  /**
   Binding is defined if and only if the product with the numerator stays within 64 bits, and stores the whole
   microseconds that the duration has, cut toward zero.
   */
  lemma EncodeLaw(p: Period, ticks: int)
    requires p.Valid()
    ensures Encode(p, ticks).Some? <==> -0x8000_0000_0000_0000 <= ticks * p.num <= 0x7FFF_FFFF_FFFF_FFFF
    ensures Encode(p, ticks).Some? ==>
              var m := Encode(p, ticks).value;
              && (ticks * p.num >= 0 ==> 0 <= m && m * p.den <= ticks * p.num < m * p.den + p.den)
              && (ticks * p.num <= 0 ==> m <= 0 && m * p.den - p.den < ticks * p.num <= m * p.den)
  {
    TruncDivBounds(ticks * p.num, p.den);
  }

  /** Reading gives the whole ticks that the stored microseconds have, cut toward zero. */
  lemma DecodeLaw(p: Period, micros: int)
    requires p.Valid()
    ensures Decode(p, micros).Some? <==> -0x8000_0000_0000_0000 <= micros * p.den <= 0x7FFF_FFFF_FFFF_FFFF
    ensures Decode(p, micros).Some? ==>
              var t := Decode(p, micros).value;
              && (micros * p.den >= 0 ==> 0 <= t && t * p.num <= micros * p.den < t * p.num + p.num)
              && (micros * p.den <= 0 ==> t <= 0 && t * p.num - p.num < micros * p.den <= t * p.num)
  {
    TruncDivBounds(micros * p.den, p.num);
  }

  /** What a stored duration reads back as, if binding it is defined. */
  function Stored(p: Period, ticks: int): int
    requires p.Valid()
  {
    TruncDiv(TruncDiv(ticks * p.num, p.den) * p.den, p.num)
  }

  /** Reading is defined whenever binding was. */
  lemma DecodeDefined(p: Period, ticks: int)
    requires p.Valid() && Encode(p, ticks).Some?
    ensures Decode(p, Encode(p, ticks).value) == Some(Stored(p, ticks))
  {
    TruncDivBounds(ticks * p.num, p.den);
  }

  lemma StoredNegates(p: Period, ticks: int)
    requires p.Valid()
    ensures Stored(p, -ticks) == -Stored(p, ticks)
  {
    TruncDivBounds(ticks * p.num, p.den);
    var m := TruncDiv(ticks * p.num, p.den);
    assert (-ticks) * p.num == -(ticks * p.num);
    assert (-m) * p.den == -(m * p.den);
    TruncDivBounds(m * p.den, p.num);
  }

  lemma StoredNonNegative(p: Period, ticks: int)
    requires p.Valid() && ticks >= 0
    ensures 0 <= Stored(p, ticks) <= ticks
    ensures (ticks - Stored(p, ticks)) * p.num < p.num + p.den
    ensures Stored(p, ticks) == ticks <==> (ticks * p.num) % p.den == 0
  {
    var n, d := p.num, p.den;
    MulMonotone(0, ticks, n);
    var a := ticks * n;
    var m := TruncDiv(a, d);
    TruncDivBounds(a, d);
    DivMod(a, d);
    var b := m * d;
    var t := TruncDiv(b, n);
    TruncDivBounds(b, n);
    Distribute(ticks, t, n);
    if t > ticks {
      MulBound(t - ticks, n);
    }
    if b == a {
      QuotientIs(b, n, ticks);
    }
    if t == ticks {
      assert a == t * n;
    }
  }

  /**
   A duration read back keeps its sign, is never larger in magnitude, and is short by less than
   `1 + den / num` ticks; it is exact if and only if its length is a whole number of microseconds, so always
   when a tick is one.
   */
  lemma DurationRoundTrip(p: Period, ticks: int)
    requires p.Valid()
    ensures ticks >= 0 ==> 0 <= Stored(p, ticks) <= ticks
    ensures ticks <= 0 ==> ticks <= Stored(p, ticks) <= 0
    ensures var loss := if ticks >= 0 then ticks - Stored(p, ticks) else Stored(p, ticks) - ticks;
            loss * p.num < p.num + p.den
    ensures Stored(p, ticks) == ticks <==> (ticks * p.num) % p.den == 0
    ensures p.den == 1 ==> Stored(p, ticks) == ticks
  {
    if ticks >= 0 {
      StoredNonNegative(p, ticks);
    } else {
      StoredNegates(p, ticks);
      StoredNonNegative(p, -ticks);
      assert (-ticks) * p.num == -(ticks * p.num);
      NegateModulus(ticks * p.num, p.den);
    }
    DivModUnique(ticks * p.num, 1, ticks * p.num, 0);
  }

  lemma NegateModulus(a: int, n: int)
    requires n > 0
    ensures (-a) % n == 0 <==> a % n == 0
  {
    DivMod(a, n);
    DivMod(-a, n);
    if a % n == 0 {
      assert -a == (-(a / n)) * n;
      DivModUnique(-a, n, -(a / n), 0);
    }
    if (-a) % n == 0 {
      assert a == (-((-a) / n)) * n;
      DivModUnique(a, n, -((-a) / n), 0);
    }
  }

  /** Longer durations read back no shorter. */
  lemma StoredMonotone(p: Period, ticks: int, ticks': int)
    requires p.Valid() && ticks <= ticks'
    ensures Stored(p, ticks) <= Stored(p, ticks')
  {
    MulMonotone(ticks, ticks', p.num);
    TruncDivMonotone(ticks * p.num, ticks' * p.num, p.den);
    MulMonotone(TruncDiv(ticks * p.num, p.den), TruncDiv(ticks' * p.num, p.den), p.den);
    TruncDivMonotone(TruncDiv(ticks * p.num, p.den) * p.den, TruncDiv(ticks' * p.num, p.den) * p.den, p.num);
  }

  /**
   For ticks that divide a microsecond, as nanoseconds do, storing cuts toward zero to whole microseconds, and
   twice is once.
   */
  lemma WholeMicroseconds(den: int, ticks: int)
    requires den > 0
    ensures Stored(Period(1, den), ticks) == TruncDiv(ticks, den) * den
    ensures Stored(Period(1, den), Stored(Period(1, den), ticks)) == Stored(Period(1, den), ticks)
  {
    var m := TruncDiv(ticks, den);
    ByOne(m * den);
    DivModUnique(m * den, den, m, 0);
    DurationRoundTrip(Period(1, den), m * den);
  }

  lemma ByOne(a: int)
    ensures TruncDiv(a, 1) == a
  {
  }

  /** Scaling by `n / d` treats multiples of `d` and the rest apart. */
  lemma ScaledParts(q: int, r: int, n: int, d: int)
    requires q >= 0 && r >= 0 && n > 0 && d > 0
    ensures TruncDiv((q * d + r) * n, d) == q * n + TruncDiv(r * n, d)
    ensures TruncDiv(r * n, d) >= 0
  {
    MulMonotone(0, r, n);
    MulMonotone(0, q * n, d);
    assert (q * d + r) * n == (q * n) * d + r * n;
    QuotientSum(q * n, r * n, d);
    QuotientSign(r * n, d);
  }

  /** Whole multiples of `den` ticks are stored exactly; the rest is stored as it would be alone. */
  lemma StoredParts(p: Period, q: int, r: int)
    requires p.Valid() && q >= 0 && r >= 0
    ensures Stored(p, q * p.den + r) == q * p.den + Stored(p, r)
  {
    ScaledParts(q, r, p.num, p.den);
    ScaledParts(q, TruncDiv(r * p.num, p.den), p.den, p.num);
  }

  /** The bound on the remainder that `StoredAgainIff` gives: below it, nothing of the remainder is stored. */
  predicate StoresNothing(p: Period, r: int)
    requires p.Valid()
  {
    r * p.num < p.den * ((p.num + p.den - 1) / p.den)
  }

  lemma StoredNothingIff(p: Period, r: int)
    requires p.Valid() && r >= 0
    ensures Stored(p, r) == 0 <==> StoresNothing(p, r)
  {
    var n, d := p.num, p.den;
    MulMonotone(0, r, n);
    var f := (r * n) / d;
    QuotientSign(r * n, d);
    MulMonotone(0, f, d);
    QuotientZeroIff(f * d, n);
    BelowCeiling(f, n, d);
    QuotientBelow(r * n, d, (n + d - 1) / d);
  }

  /**
   Storing a second time loses nothing more exactly when the ticks that go beyond a multiple of `den` are too
   few for what is read back to reach one tick. This is for periods in lowest terms, which C++ makes of all.
   */
  lemma StoredAgainIff(p: Period, ticks: int)
    requires p.Valid() && Coprime(p.num, p.den)
    ensures var a := if ticks >= 0 then ticks else -ticks;
            Stored(p, Stored(p, ticks)) == Stored(p, ticks) <==>
            (a % p.den) * p.num < p.den * ((p.num + p.den - 1) / p.den)
  {
    if ticks >= 0 {
      StoredAgainNonNegative(p, ticks);
    } else {
      StoredAgainNonNegative(p, -ticks);
      StoredNegates(p, -ticks);
      StoredNegates(p, Stored(p, -ticks));
    }
  }

  lemma StoredAgainNonNegative(p: Period, ticks: int)
    requires p.Valid() && Coprime(p.num, p.den) && ticks >= 0
    ensures Stored(p, Stored(p, ticks)) == Stored(p, ticks) <==> StoresNothing(p, ticks % p.den)
  {
    var q, r := ticks / p.den, ticks % p.den;
    DivMod(ticks, p.den);
    QuotientSign(ticks, p.den);
    StoredParts(p, q, r);
    StoredNonNegative(p, r);
    StoredNothingIff(p, r);
    DurationRoundTrip(p, Stored(p, ticks));
    MultipleOfCoprime(Stored(p, ticks), p.num, p.den);
    DivModUnique(Stored(p, ticks), p.den, q, Stored(p, r));
  }

  /** It can lose more: with ticks of two thirds of a microsecond two ticks read back as one, and one as none. */
  lemma StoredAgainCanLose()
    ensures Stored(Period(2, 3), 2) == 1 && Stored(Period(2, 3), 1) == 0
  {
  }

  // ----- Integers -----

  /** The value of `x` in a type with `modulus` values: what `static_cast` makes of it. */
  function Wrap(modulus: int, signed: bool, x: int): int
    requires modulus > 0
  {
    if signed then (x + modulus / 2) % modulus - modulus / 2 else x % modulus
  }

  predicate InType(modulus: int, signed: bool, x: int) {
    if signed then -(modulus / 2) <= x < modulus - modulus / 2 else 0 <= x < modulus
  }

  /** The cast gives the one value of the type that differs by a multiple of its modulus. */
  lemma WrapLaw(modulus: int, signed: bool, x: int)
    requires modulus > 0
    ensures var w := Wrap(modulus, signed, x);
            && (if signed then -(modulus / 2) <= w < modulus - modulus / 2 else 0 <= w < modulus)
            && (x - w) % modulus == 0
  {
    var half := if signed then modulus / 2 else 0;
    DivMod(x + half, modulus);
    DivModUnique(x - Wrap(modulus, signed, x), modulus, (x + half) / modulus, 0);
  }

  lemma WrapShifted(modulus: int, signed: bool, x: int, k: int)
    requires modulus > 0 && InType(modulus, signed, x)
    ensures Wrap(modulus, signed, x + k * modulus) == x
  {
    var half := if signed then modulus / 2 else 0;
    DivModUnique(x + k * modulus + half, modulus, k, x + half);
  }

  /** An integer of any type of at most 64 bits, signed or not, is read back unchanged through the 64-bit casts. */
  lemma IntegerRoundTrip(modulus: int, count: int, signed: bool, x: int)
    requires modulus > 0 && count > 0 && modulus * count == TWO_TO_THE_64 && InType(modulus, signed, x)
    ensures Wrap(modulus, signed, Wrap(TWO_TO_THE_64, true, x)) == x
  {
    var shifted := x + TWO_TO_THE_63;
    DivMod(shifted, TWO_TO_THE_64);
    var k := shifted / TWO_TO_THE_64;
    assert Wrap(TWO_TO_THE_64, true, x) == x - k * TWO_TO_THE_64;
    assert k * TWO_TO_THE_64 == (k * count) * modulus;
    WrapShifted(modulus, signed, x, -(k * count));
  }

  /** `get<bool>` reads the low 32 bits only. */
  function GetBool(stored: int): bool {
    Wrap(TWO_TO_THE_32, true, stored) != 0
  }

  /** So a stored integer reads as true exactly if it is not a multiple of two to the 32, not whenever it is nonzero. */
  lemma GetBoolIff(stored: int)
    ensures GetBool(stored) <==> stored % TWO_TO_THE_32 != 0
    ensures !GetBool(TWO_TO_THE_32)
  {
  }
}
