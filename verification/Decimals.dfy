/** Decimal numerals without leading zeros. */
module Decimals {
  import opened Core

  predicate IsDigit(c: byte) { '0' <= c <= '9' }

  predicate AllDigits(s: Text) { forall i :: 0 <= i < |s| ==> IsDigit(s[i]) }

  function Digit(n: nat): (c: byte)
    requires n < 10
    ensures IsDigit(c)
  {
    (n + 48) as char
  }

  function DigitValue(c: byte): (n: nat)
    requires IsDigit(c)
    ensures n < 10 && Digit(n) == c
  {
    c as int - 48
  }

  /** The numeral that `to_string` writes. */
  function Decimal(n: nat): (s: Text)
    ensures s != [] && AllDigits(s)
  {
    if n < 10 then [Digit(n)] else Decimal(n / 10) + [Digit(n % 10)]
  }

  function ReadDigits(s: Text): nat
    requires AllDigits(s)
  {
    if s == [] then 0 else ReadDigits(s[..|s| - 1]) * 10 + DigitValue(s[|s| - 1])
  }

  lemma DigitBack(n: nat)
    requires n < 10
    ensures DigitValue(Digit(n)) == n
  {}

  lemma {:induction false} DecimalReads(n: nat)
    ensures ReadDigits(Decimal(n)) == n
    ensures Decimal(n)[0] == '0' ==> n == 0 && |Decimal(n)| == 1
  {
    if n < 10 {
      DigitBack(n);
      assert ReadDigits([Digit(n)][..0]) == 0;
    } else {
      DecimalReads(n / 10);
      DigitBack(n % 10);
      var s := Decimal(n);
      assert s[..|s| - 1] == Decimal(n / 10);
    }
  }

  /** A numeral without a leading zero is the one spelling of its value. */
  lemma {:induction false} NumeralUnique(s: Text)
    requires s != [] && AllDigits(s) && (|s| == 1 || s[0] != '0')
    ensures Decimal(ReadDigits(s)) == s
    ensures |s| > 1 ==> ReadDigits(s) >= 10
    ensures s[0] != '0' ==> ReadDigits(s) >= 1
  {
    var k := |s| - 1;
    if k == 0 {
      assert ReadDigits(s[..0]) == 0;
    } else {
      NumeralUnique(s[..k]);
      assert s == s[..k] + [s[k]];
      assert ReadDigits(s) / 10 == ReadDigits(s[..k]);
    }
  }

  function Power10(n: nat): (p: nat)
    ensures p > 0
  {
    if n == 0 then 1 else 10 * Power10(n - 1)
  }

  lemma {:induction false} DecimalLength(n: nat, k: nat)
    requires k >= 1
    ensures |Decimal(n)| <= k <==> n < Power10(k)
    decreases k
  {
    if n >= 10 && k > 1 {
      DecimalLength(n / 10, k - 1);
    } else if k == 1 {
      assert Power10(1) == 10 * Power10(0);
    } else {
      assert Power10(k) == 10 * Power10(k - 1);
    }
  }

  lemma TenPowers()
    ensures Power10(19) == 10_000_000_000_000_000_000 && Power10(20) == 100_000_000_000_000_000_000
  {
    assert Power10(2) == 100;
    assert Power10(4) == 10_000;
    assert Power10(6) == 1_000_000;
    assert Power10(8) == 100_000_000;
    assert Power10(10) == 10_000_000_000;
    assert Power10(12) == 1_000_000_000_000;
    assert Power10(14) == 100_000_000_000_000;
    assert Power10(16) == 10_000_000_000_000_000;
    assert Power10(18) == 1_000_000_000_000_000_000;
  }
}
