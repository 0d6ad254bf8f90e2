/** ASCII decimal digit strings: the text form of years, months, days and ids. */
module Decimal {

  predicate IsDigit(c: char) { '0' <= c <= '9' }

  predicate AllDigits(s: string) { forall i :: 0 <= i < |s| ==> IsDigit(s[i]) }

  function DigitValue(c: char): (n: nat)
    requires IsDigit(c)
    ensures n < 10
  {
    (c as int) - ('0' as int)
  }

  function DigitChar(n: nat): (c: char)
    requires n < 10
    ensures IsDigit(c) && DigitValue(c) == n
  {
    (('0' as int) + n) as char
  }

  function Pow10(k: nat): (p: nat)
    ensures p >= 1
  {
    if k == 0 then 1 else 10 * Pow10(k - 1)
  }

  /** The number a string of digits denotes; leading zeros are allowed. */
  function Value(s: string): (n: nat)
    requires AllDigits(s)
    ensures n < Pow10(|s|)
  {
    if s == [] then 0 else Value(s[..|s| - 1]) * 10 + DigitValue(s[|s| - 1])
  }

  /** The last `width` decimal digits of `n`, zero-padded on the left. */
  function FixedDigits(n: nat, width: nat): (s: string)
    ensures |s| == width && AllDigits(s)
  {
    if width == 0 then [] else FixedDigits(n / 10, width - 1) + [DigitChar(n % 10)]
  }

  /** How many digits `n` needs without leading zeros. */
  function NumDigits(n: nat): (k: nat)
    ensures 1 <= k && n < Pow10(k)
  {
    if n < 10 then 1 else 1 + NumDigits(n / 10)
  }

  /** The shortest decimal text of `n`, as `Long.toString` writes it. */
  function DecimalText(n: nat): (s: string)
    ensures 1 <= |s| && AllDigits(s)
  {
    FixedDigits(n, NumDigits(n))
  }

  lemma {:induction false} PowMonotone(k: nat, k': nat)
    requires k <= k'
    ensures Pow10(k) <= Pow10(k')
    decreases k'
  {
    if k < k' {
      PowMonotone(k, k' - 1);
    }
  }

  lemma {:induction false} ValueOfFixedDigits(n: nat, width: nat)
    requires n < Pow10(width)
    ensures Value(FixedDigits(n, width)) == n
  {
    if width > 0 {
      var s := FixedDigits(n, width);
      ValueOfFixedDigits(n / 10, width - 1);
      assert s[..|s| - 1] == FixedDigits(n / 10, width - 1);
    }
  }

  lemma {:induction false} FixedDigitsOfValue(s: string)
    requires AllDigits(s)
    ensures FixedDigits(Value(s), |s|) == s
  {
    if s != [] {
      var init, last := s[..|s| - 1], s[|s| - 1];
      assert AllDigits(init);
      var v := Value(init) * 10 + DigitValue(last);
      assert v / 10 == Value(init) && v % 10 == DigitValue(last);
      FixedDigitsOfValue(init);
      assert s == init + [last];
    }
  }

  lemma {:induction false} NumDigitsAtMost(n: nat, width: nat)
    requires 1 <= width && n < Pow10(width)
    ensures NumDigits(n) <= width
  {
    if n >= 10 {
      NumDigitsAtMost(n / 10, width - 1);
    }
  }

  lemma DecimalValue(n: nat)
    ensures Value(DecimalText(n)) == n
  {
    ValueOfFixedDigits(n, NumDigits(n));
  }
}
