/** Numbers printed and read in decimal. */
module Decimals {

  /** `String(n)` for a count. */
  function Decimal(n: nat): (r: string)
    ensures r != ""
  {
    (if n < 10 then "" else Decimal(n / 10)) + [('0' as int + n % 10) as char]
  }

  predicate IsDigit(c: char) {
    '0' <= c <= '9'
  }

  function DigitValue(c: char): (v: nat)
    requires IsDigit(c)
    ensures v < 10
  {
    c as int - '0' as int
  }

  /** `Number.parseInt(digits, 10)`. */
  function DecValue(digits: string): nat
    requires forall i :: 0 <= i < |digits| ==> IsDigit(digits[i])
  {
    if digits == "" then 0 else DecValue(digits[..|digits| - 1]) * 10 + DigitValue(digits[|digits| - 1])
  }

  /** Decimal digits without a needless leading zero. */
  predicate IsNumeral(s: string) {
    s != "" && (forall i :: 0 <= i < |s| ==> IsDigit(s[i])) && (|s| > 1 ==> s[0] != '0')
  }

  lemma DecimalOfDigit(c: char)
    requires IsDigit(c)
    ensures Decimal(DigitValue(c)) == [c]
  {
  }

  lemma DecimalGrows(n: nat, c: char)
    requires n > 0 && IsDigit(c)
    ensures Decimal(n * 10 + DigitValue(c)) == Decimal(n) + [c]
  {
    var m := n * 10 + DigitValue(c);
    assert m / 10 == n && m % 10 == DigitValue(c);
  }

  lemma DecValueGrows(s: string, c: char)
    requires IsDigit(c) && forall i :: 0 <= i < |s| ==> IsDigit(s[i])
    ensures DecValue(s + [c]) == DecValue(s) * 10 + DigitValue(c)
  {
    assert (s + [c])[..|s|] == s;
  }

  lemma {:induction false} NumeralRead(s: string)
    requires IsNumeral(s)
    ensures Decimal(DecValue(s)) == s && (s[0] != '0' ==> DecValue(s) > 0)
  {
    hide Decimal;
    var init, last := s[..|s| - 1], s[|s| - 1];
    assert s == init + [last];
    DecValueGrows(init, last);
    if |s| > 1 {
      assert init[0] == s[0];
      NumeralRead(init);
      DecimalGrows(DecValue(init), last);
    } else {
      DecimalOfDigit(last);
      assert init == "";
    }
  }

  lemma {:induction false} NumeralPrinted(n: nat)
    ensures IsNumeral(Decimal(n)) && DecValue(Decimal(n)) == n && (n > 0 ==> Decimal(n)[0] != '0')
  {
    hide DecValue;
    var c := ('0' as int + n % 10) as char;
    if n < 10 {
      assert Decimal(n) == [c];
      DecValueGrows("", c);
      DecValueOfNone();
      assert "" + [c] == [c];
    } else {
      NumeralPrinted(n / 10);
      var init := Decimal(n / 10);
      assert Decimal(n) == init + [c];
      DecValueGrows(init, c);
    }
  }

  lemma DecValueOfNone()
    ensures DecValue("") == 0
  {
  }

  /** Different numbers print differently, and in digits alone. */
  lemma DecimalInjective(m: nat, n: nat)
    requires Decimal(m) == Decimal(n)
    ensures m == n
  {
    NumeralPrinted(m);
    NumeralPrinted(n);
  }

  lemma DecimalIsDigits(n: nat)
    ensures forall c :: c in Decimal(n) ==> IsDigit(c)
  {
    NumeralPrinted(n);
  }
}
