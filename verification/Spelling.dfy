/** Spelling numbers in digits, and reading them back. */
module Spelling {
  import opened Decimals

  function DigitChar(n: nat): char
    requires n < 10
  {
    (n + '0' as int) as char
  }

  predicate IsDigit(c: char) {
    '0' <= c <= '9'
  }

  function DigitValue(c: char): nat
    requires IsDigit(c)
  {
    c as int - '0' as int
  }

  predicate AllDigits(s: string) {
    forall i :: 0 <= i < |s| ==> IsDigit(s[i])
  }

  function ShowNat(n: nat): (s: string)
    ensures |s| == Digits(n) && AllDigits(s)
    ensures |s| > 1 ==> s[0] != '0'
  {
    if n < 10 then [DigitChar(n)] else ShowNat(n / 10) + [DigitChar(n % 10)]
  }

  function ReadNat(s: string): nat
    requires AllDigits(s)
  {
    if s == "" then 0 else 10 * ReadNat(s[..|s| - 1]) + DigitValue(s[|s| - 1])
  }

  function Zeros(k: nat): (s: string)
    ensures |s| == k && AllDigits(s)
    ensures forall i :: 0 <= i < |s| ==> s[i] == '0'
  {
    seq(k, i => '0')
  }

  lemma {:induction false} ReadShow(n: nat)
    ensures ReadNat(ShowNat(n)) == n
  {
    if n >= 10 {
      ReadShow(n / 10);
      assert ShowNat(n)[..|ShowNat(n)| - 1] == ShowNat(n / 10);
    }
  }

  lemma {:induction false} ReadJoin(a: string, b: string)
    requires AllDigits(a) && AllDigits(b)
    ensures AllDigits(a + b)
    ensures ReadNat(a + b) == ReadNat(a) * Pow10(|b|) + ReadNat(b)
  {
    if b == "" {
      assert a + b == a;
    } else {
      var shorter := b[..|b| - 1];
      assert (a + b)[..|a + b| - 1] == a + shorter;
      ReadJoin(a, shorter);
      assert ReadNat(a + b) == 10 * (ReadNat(a) * Pow10(|shorter|) + ReadNat(shorter)) + DigitValue(b[|b| - 1]);
      MulAssoc(ReadNat(a), Pow10(|shorter|), 10);
    }
  }

  lemma {:induction false} ReadZeros(k: nat)
    ensures ReadNat(Zeros(k)) == 0
  {
    if k > 0 {
      assert Zeros(k)[..k - 1] == Zeros(k - 1);
      ReadZeros(k - 1);
    }
  }

  // ---- decimals in plain digits -------------------------------------------------------------------

  /** The digits before and after the point: as many after it as the exponent says, and at least one before. */
  function PlainDigits(d: Decimal): (string, string) {
    var digits := ShowNat(Abs(d.coefficient));
    if d.exponent >= 0 then (digits + Zeros(d.exponent), "")
    else
      var k := -d.exponent;
      var padded := if |digits| > k then digits else Zeros(k + 1 - |digits|) + digits;
      (padded[..|padded| - k], padded[|padded| - k..])
  }

  /** `format(d, "f")`, of a decimal without trailing zeros. */
  function Plain(d: Decimal): string {
    var (whole, fraction) := PlainDigits(d);
    (if d.coefficient < 0 then "-" else "") + whole + (if fraction == "" then "" else "." + fraction)
  }

  /** The spelling is a number of section 6 of RFC 8259 with no exponent, and its digits give the number back. */
  lemma PlainDigitsRead(d: Decimal)
    requires d.coefficient == 0 ==> d.exponent == 0
    ensures var (whole, fraction) := PlainDigits(d);
      && AllDigits(whole) && AllDigits(fraction) && whole != ""
      && (|whole| > 1 ==> whole[0] != '0')
      && |fraction| == (if d.exponent >= 0 then 0 else -d.exponent)
      && ReadNat(whole + fraction) ==
         Abs(d.coefficient) * Pow10(if d.exponent >= 0 then d.exponent else 0)
  {
    hide ReadNat, ShowNat, Digits;
    ReadShow(Abs(d.coefficient));
    if d.exponent >= 0 {
      WholeDigitsRead(Abs(d.coefficient), d.exponent);
    } else {
      PaddedDigitsRead(Abs(d.coefficient), -d.exponent);
    }
  }

  lemma WholeDigitsRead(n: nat, e: nat)
    requires n == 0 ==> e == 0
    ensures var whole := ShowNat(n) + Zeros(e);
      && whole != "" && AllDigits(whole) && (|whole| > 1 ==> whole[0] != '0')
      && ReadNat(whole + "") == n * Pow10(e)
  {
    ReadShow(n);
    ReadJoin(ShowNat(n), Zeros(e));
    ReadZeros(e);
    assert ShowNat(n) + Zeros(e) + "" == ShowNat(n) + Zeros(e);
    if |ShowNat(n)| == 1 && ShowNat(n)[0] == '0' {
      assert n == 0;
    }
  }

  lemma PaddedDigitsRead(n: nat, k: nat)
    requires k >= 1
    ensures var digits := ShowNat(n);
      var padded := if |digits| > k then digits else Zeros(k + 1 - |digits|) + digits;
      && |padded| > k && AllDigits(padded)
      && (|padded| - k > 1 ==> padded[0] != '0')
      && padded[..|padded| - k] + padded[|padded| - k..] == padded
      && ReadNat(padded) == n
  {
    hide ReadNat, Digits;
    var digits := ShowNat(n);
    ReadShow(n);
    if |digits| <= k {
      ReadJoin(Zeros(k + 1 - |digits|), digits);
      ReadZeros(k + 1 - |digits|);
    }
  }
}
