/** Decimal numbers as Python's `decimal` keeps them, and their spelling in plain digits. */
module Decimals {
  /** `coefficient * 10 ** exponent`. */
  datatype Decimal = Decimal(coefficient: int, exponent: int)

  /** The significant digits arithmetic keeps. */
  const PRECISION: nat := 28

  function Pow10(n: nat): (p: nat)
    ensures p >= 1
  {
    if n == 0 then 1 else 10 * Pow10(n - 1)
  }

  function Abs(n: int): nat {
    if n < 0 then -n else n
  }

  /** How many digits spell `n`. */
  function Digits(n: nat): (digits: nat)
    ensures digits >= 1
  {
    if n < 10 then 1 else 1 + Digits(n / 10)
  }

  /** Without trailing zeros; zero has one spelling. */
  function Stripped(d: Decimal): (s: Decimal)
    ensures s.coefficient % 10 != 0 || s == Decimal(0, 0)
    decreases Abs(d.coefficient)
  {
    if d.coefficient == 0 then Decimal(0, 0)
    else if d.coefficient % 10 == 0 then Stripped(Decimal(d.coefficient / 10, d.exponent + 1))
    else d
  }

  /** Equal as numbers. */
  ghost predicate SameNumber(a: Decimal, b: Decimal) {
    var low := if a.exponent <= b.exponent then a.exponent else b.exponent;
    a.coefficient * Pow10(a.exponent - low) == b.coefficient * Pow10(b.exponent - low)
  }

  // ---- powers of ten and digits -----------------------------------------------------------------

  lemma {:induction false} Pow10Sum(a: nat, b: nat)
    ensures Pow10(a + b) == Pow10(a) * Pow10(b)
  {
    if a > 0 {
      Pow10Sum(a - 1, b);
      calc {
        Pow10(a + b);
        10 * (Pow10(a - 1) * Pow10(b));
        { MulAssoc(10, Pow10(a - 1), Pow10(b)); }
        Pow10(a) * Pow10(b);
      }
    }
  }

  lemma MulAssoc(a: int, b: int, c: int)
    ensures a * (b * c) == (a * b) * c
  {
  }

  lemma TenTimes(n: int)
    ensures (n * 10) % 10 == 0 && (n * 10) / 10 == n
  {
  }

  /** Scaling a coefficient by a power of ten is shifting its exponent. */
  lemma {:induction false} StrippedShift(c: int, e: int, k: nat)
    ensures Stripped(Decimal(c * Pow10(k), e)) == Stripped(Decimal(c, e + k))
    decreases k
  {
    if k > 0 {
      var n := c * Pow10(k - 1);
      MulAssoc(c, Pow10(k - 1), 10);
      assert c * Pow10(k) == n * 10;
      TenTimes(n);
      StrippedShift(c, e + 1, k - 1);
      if n == 0 {
        ZeroFactor(c, Pow10(k - 1));
      }
    }
  }

  lemma ZeroFactor(a: int, b: int)
    requires a * b == 0 && b != 0
    ensures a == 0
  {
  }

  /** Two decimals are the same number exactly when stripping leaves the same spelling. */
  lemma StrippedIsCanonical(a: Decimal, b: Decimal)
    ensures SameNumber(a, b) <==> Stripped(a) == Stripped(b)
  {
    var low := if a.exponent <= b.exponent then a.exponent else b.exponent;
    var (ja, jb) := (a.exponent - low, b.exponent - low);
    var (ca, cb) := (a.coefficient * Pow10(ja), b.coefficient * Pow10(jb));
    StrippedShift(a.coefficient, low, ja);
    StrippedShift(b.coefficient, low, jb);
    assert Stripped(a) == Stripped(Decimal(ca, low)) && Stripped(b) == Stripped(Decimal(cb, low));
    if Stripped(a) == Stripped(b) {
      var k := StrippedScale(Decimal(ca, low));
      var m := StrippedScale(Decimal(cb, low));
    }
  }

  /** What stripping took off. */
  lemma {:induction false} StrippedScale(d: Decimal) returns (k: nat)
    ensures d.coefficient != 0 ==> Stripped(d).exponent == d.exponent + k
    ensures d.coefficient == Stripped(d).coefficient * Pow10(k)
    decreases Abs(d.coefficient)
  {
    if d.coefficient != 0 && d.coefficient % 10 == 0 {
      var shorter := Decimal(d.coefficient / 10, d.exponent + 1);
      var j := StrippedScale(shorter);
      k := j + 1;
      MulAssoc(Stripped(d).coefficient, Pow10(j), 10);
    } else {
      k := 0;
    }
  }

  lemma {:induction false} DigitsBound(n: nat)
    ensures n < Pow10(Digits(n))
    ensures n > 0 ==> Pow10(Digits(n) - 1) <= n
  {
    if n >= 10 {
      DigitsBound(n / 10);
    }
  }

  lemma {:induction false} Pow10Monotone(a: nat, b: nat)
    requires a <= b
    ensures Pow10(a) <= Pow10(b)
  {
    Pow10Sum(a, b - a);
    MulGrows(Pow10(a), Pow10(b - a));
  }

  lemma MulGrows(a: nat, b: nat)
    requires b >= 1
    ensures a <= a * b
  {
  }

  /** A number has at most `k` digits exactly when it is below `10 ** k`. */
  lemma DigitsAtMost(n: nat, k: nat)
    requires k >= 1
    ensures Digits(n) <= k <==> n < Pow10(k)
  {
  }

  // ---- rounding ---------------------------------------------------------------------------------

  /** `n` divided by `p`, to the nearest, ties to even. */
  function DivideHalfEven(n: nat, p: nat): nat
    requires p >= 1
  {
    var (q, r) := (n / p, n % p);
    if 2 * r > p || (2 * r == p && q % 2 == 1) then q + 1 else q
  }

  /** To the context's precision, as every arithmetic result is. */
  function Rounded(d: Decimal): Decimal {
    var n := Abs(d.coefficient);
    if Digits(n) <= PRECISION then d
    else
      var drop := Digits(n) - PRECISION;
      var q := DivideHalfEven(n, Pow10(drop));
      var (kept, exponent) :=
        if Digits(q) > PRECISION then (q / 10, d.exponent + drop + 1) else (q, d.exponent + drop);
      Decimal(if d.coefficient < 0 then -kept else kept, exponent)
  }

  function Times(a: Decimal, b: Decimal): Decimal {
    Rounded(Decimal(a.coefficient * b.coefficient, a.exponent + b.exponent))
  }

  /** `normalize()`: rounded, then without trailing zeros. */
  function Normalized(d: Decimal): Decimal {
    Stripped(Rounded(d))
  }

  /** No more significant digits than the context keeps. */
  predicate IsExact(d: Decimal) {
    Digits(Abs(Stripped(d).coefficient)) <= PRECISION
  }

  // ---- when rounding loses nothing ----------------------------------------------------------------

  lemma DivideHalfEvenMultiple(m: nat, p: nat)
    requires p >= 1
    ensures DivideHalfEven(m * p, p) == m
  {
  }

  lemma QuotientBelow(n: nat, p: nat, bound: nat)
    requires p >= 1 && n < bound * p
    ensures n / p < bound
  {
  }

  lemma CancelFactor(a: nat, b: nat, p: nat)
    requires a * p < b * p
    ensures a < b
  {
  }

  lemma Pow10Step(k: nat)
    requires k >= 1
    ensures Pow10(k) == 10 * Pow10(k - 1) && Pow10(k - 1) < Pow10(k)
  {
  }

  lemma SplitDigits(n: nat, drop: nat)
    requires Digits(n) == PRECISION + drop
    ensures n < Pow10(PRECISION) * Pow10(drop)
  {
    DigitsBound(n);
    Pow10Sum(PRECISION, drop);
  }

  /** What rounding keeps never has more digits than the context does. */
  lemma RoundedFits(d: Decimal)
    ensures Digits(Abs(Rounded(d).coefficient)) <= PRECISION
  {
    hide Digits, Pow10, Stripped;
    var n := Abs(d.coefficient);
    if Digits(n) > PRECISION {
      var drop := Digits(n) - PRECISION;
      SplitDigits(n, drop);
      QuotientBelow(n, Pow10(drop), Pow10(PRECISION));
      var q := DivideHalfEven(n, Pow10(drop));
      if Digits(q) > PRECISION {
        DigitsAtMost(q, PRECISION);
        Pow10Step(PRECISION);
        DigitsAtMost(q / 10, PRECISION);
      }
    }
  }

  /**
   A number of more than 28 digits becomes the nearest of 28, and of two as near the even one: `kept` counts tens to
   the power of `drop`, of which the number has at least ten to the power of 27.
   */
  lemma RoundedIsNearest(d: Decimal) returns (kept: nat, drop: nat)
    ensures Abs(d.coefficient) < Pow10(28) ==> Rounded(d) == d
    ensures Abs(d.coefficient) >= Pow10(28) ==>
      && Pow10(27) * Pow10(drop) <= Abs(d.coefficient) < Pow10(28) * Pow10(drop)
      && 2 * Abs(Abs(d.coefficient) - kept * Pow10(drop)) <= Pow10(drop)
      && (2 * Abs(Abs(d.coefficient) - kept * Pow10(drop)) == Pow10(drop) ==> kept % 2 == 0)
      && SameNumber(Rounded(d), Decimal((if d.coefficient < 0 then -1 else 1) * kept, d.exponent + drop))
  {
    hide Digits, Pow10, Stripped, DivideHalfEven, SameNumber;
    var n := Abs(d.coefficient);
    DigitsAtMost(n, 28);
    kept, drop := 0, 0;
    if n >= Pow10(28) {
      drop := Digits(n) - 28;
      kept := DivideHalfEven(n, Pow10(drop));
      DigitsBound(n);
      Pow10Sum(27, drop);
      Pow10Sum(28, drop);
      HalfEvenIsNearest(n, Pow10(drop));
      KeptIsSame(d, drop);
    }
  }

  lemma KeptIsSame(d: Decimal, drop: nat)
    requires Digits(Abs(d.coefficient)) == PRECISION + drop && drop >= 1
    ensures var kept := DivideHalfEven(Abs(d.coefficient), Pow10(drop));
      SameNumber(Rounded(d), Decimal((if d.coefficient < 0 then -1 else 1) * kept, d.exponent + drop))
  {
    var n := Abs(d.coefficient);
    hide Digits, Pow10;
    var kept := DivideHalfEven(n, Pow10(drop));
    SplitDigits(n, drop);
    QuotientBelow(n, Pow10(drop), Pow10(PRECISION));
    Pow10One();
    DigitsAtMost(kept, PRECISION);
    if Digits(kept) > PRECISION {
      Pow10Step(PRECISION);
      assert kept == Pow10(PRECISION) && kept == 10 * (kept / 10);
    }
  }

  lemma Pow10One()
    ensures Pow10(0) == 1 && Pow10(1) == 10
  {
  }

  lemma HalfEvenIsNearest(n: nat, p: nat)
    requires p >= 1
    ensures var q := DivideHalfEven(n, p);
      2 * Abs(n - q * p) <= p && (2 * Abs(n - q * p) == p ==> q % 2 == 0)
  {
    var q, r := n / p, n % p;
    assert n == q * p + r;
    assert (q + 1) * p == q * p + p;
  }

  /** Stripping never adds digits. */
  lemma {:induction false} StrippedFits(d: Decimal)
    ensures Abs(Stripped(d).coefficient) <= Abs(d.coefficient)
    ensures Digits(Abs(Stripped(d).coefficient)) <= Digits(Abs(d.coefficient))
    decreases Abs(d.coefficient)
  {
    if d.coefficient != 0 && d.coefficient % 10 == 0 {
      assert Abs(d.coefficient / 10) == Abs(d.coefficient) / 10;
      StrippedFits(Decimal(d.coefficient / 10, d.exponent + 1));
    }
  }

  /** An exact number too long to keep as it is ends in as many zeros as rounding drops. */
  lemma ExactEndsInZeros(d: Decimal, drop: nat) returns (kept: int)
    requires IsExact(d) && Digits(Abs(d.coefficient)) == PRECISION + drop && drop >= 1
    ensures d.coefficient == kept * Pow10(drop)
  {
    hide Digits, Pow10, Stripped;
    var c := Stripped(d).coefficient;
    var k := StrippedScale(d);
    DigitsAtMost(Abs(c), PRECISION);
    DigitsBound(Abs(d.coefficient));
    if k < drop {
      MulBelow(Abs(c), Pow10(PRECISION), Pow10(k));
      Pow10Sum(PRECISION, k);
      Pow10Monotone(PRECISION + k, PRECISION + drop - 1);
      AbsTimes(c, Pow10(k));
      assert false;
    }
    Pow10Sum(k - drop, drop);
    kept := c * Pow10(k - drop);
    MulAssoc(c, Pow10(k - drop), Pow10(drop));
  }

  lemma MulBelow(a: nat, b: nat, c: nat)
    requires a < b && c >= 1
    ensures a * c < b * c
  {
  }

  lemma AbsTimes(a: int, b: nat)
    ensures Abs(a * b) == Abs(a) * b
  {
  }

  /** Normalizing gives the same number back exactly when it has no more digits than the context keeps. */
  lemma NormalizedIsLossless(d: Decimal)
    ensures Normalized(d) == Stripped(d) <==> IsExact(d)
    ensures IsExact(d) <==> Abs(Stripped(d).coefficient) < Pow10(28)
  {
    hide *;
    ExactIsKept(d);
    ExactHas28Digits(d);
  }

  lemma ExactHas28Digits(d: Decimal)
    ensures IsExact(d) <==> Abs(Stripped(d).coefficient) < Pow10(28)
  {
    DigitsAtMost(Abs(Stripped(d).coefficient), 28);
    hide Digits, Pow10, Stripped;
  }

  lemma ExactIsKept(d: Decimal)
    ensures Normalized(d) == Stripped(d) <==> IsExact(d)
  {
    hide Digits, Pow10, Stripped, DivideHalfEven;
    var n := Abs(d.coefficient);
    StrippedFits(d);
    if Digits(n) > PRECISION {
      var drop := Digits(n) - PRECISION;
      RoundedFits(d);
      StrippedFits(Rounded(d));
      if IsExact(d) {
        var kept := ExactEndsInZeros(d, drop);
        AbsTimes(kept, Pow10(drop));
        DivideHalfEvenMultiple(Abs(kept), Pow10(drop));
        SplitDigits(n, drop);
        CancelFactor(Abs(kept), Pow10(PRECISION), Pow10(drop));
        DigitsAtMost(Abs(kept), PRECISION);
        SignOfProduct(kept, Pow10(drop));
        assert Rounded(d) == Decimal(kept, d.exponent + drop);
        StrippedShift(kept, d.exponent, drop);
      }
    }
  }

  lemma SignOfProduct(a: int, b: nat)
    requires b >= 1
    ensures a * b < 0 <==> a < 0
  {
  }

  /** A product with a power of ten never rounds, and only moves the point. */
  lemma ScaledExactly(d: Decimal, e: int)
    requires Digits(Abs(d.coefficient)) <= PRECISION
    ensures Times(d, Decimal(1, e)) == Decimal(d.coefficient, d.exponent + e)
  {
  }
}
