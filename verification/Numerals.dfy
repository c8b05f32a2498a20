/** Decimal numerals. */
module Numerals {

  predicate IsDigit(c: char) {
    '0' <= c <= '9'
  }

  function DigitValue(c: char): nat
    requires IsDigit(c)
  {
    (c - '0') as nat
  }

  function Digit(n: nat): char
    requires n < 10
  {
    '0' + n as char
  }

  function Numeral(n: nat): string {
    if n < 10 then [Digit(n)] else Numeral(n / 10) + [Digit(n % 10)]
  }

  /** `%d`. */
  function Decimal(n: int): string {
    if n < 0 then "-" + Numeral(-n) else Numeral(n)
  }

  predicate AllDigits(s: string) {
    forall i | 0 <= i < |s| :: IsDigit(s[i])
  }

  function ValueOf(s: string): nat
    requires AllDigits(s)
  {
    if s == [] then 0 else 10 * ValueOf(s[..|s|-1]) + DigitValue(s[|s|-1])
  }

  lemma {:induction false} NumeralReadsBack(n: nat)
    ensures Numeral(n) != [] && AllDigits(Numeral(n)) && ValueOf(Numeral(n)) == n
  {
    if n >= 10 {
      NumeralReadsBack(n / 10);
      var s := Numeral(n);
      assert s[..|s|-1] == Numeral(n / 10);
    } else {
      assert [Digit(n)][..0] == [];
    }
  }

  /** No leading zeros, so that a number has one numeral. */
  lemma {:induction false} NumeralCanonical(n: nat)
    ensures n > 0 ==> Numeral(n)[0] != '0'
    ensures n == 0 ==> Numeral(n) == "0"
  {
    if n >= 10 {
      NumeralCanonical(n / 10);
      assert Numeral(n)[0] == Numeral(n / 10)[0];
    }
  }

  lemma {:induction false} ValuePositive(s: string)
    requires AllDigits(s) && s != [] && s[0] != '0'
    ensures ValueOf(s) > 0
  {
    if |s| > 1 {
      ValuePositive(s[..|s|-1]);
    } else {
      assert s[..0] == [];
    }
  }

  lemma DigitBack(c: char)
    requires IsDigit(c)
    ensures Digit(DigitValue(c)) == c
  {
    assert '0' as int + DigitValue(c) == c as int;
  }

  lemma {:induction false} ReadsBackNumeral(s: string)
    requires AllDigits(s) && s != [] && (s[0] != '0' || |s| == 1)
    ensures Numeral(ValueOf(s)) == s
  {
    var init, last := s[..|s|-1], s[|s|-1];
    assert s == init + [last];
    if init == [] {
      DigitBack(last);
      assert ValueOf(s) == DigitValue(last);
    } else {
      ValuePositive(init);
      ReadsBackNumeral(init);
      NumeralStep(ValueOf(init), last);
      hide Numeral;
    }
  }

  lemma NumeralExample()
    ensures Numeral(1234567890) == "1234567890" && Decimal(-70) == "-70" && Decimal(0) == "0"
  {
    NumeralStep(123456789, '0');
    NumeralStep(12345678, '9');
    NumeralStep(1234567, '8');
    NumeralStep(123456, '7');
    NumeralStep(12345, '6');
    NumeralStep(1234, '5');
    NumeralStep(123, '4');
    NumeralStep(12, '3');
    NumeralStep(1, '2');
    NumeralStep(7, '0');
    hide Numeral;
  }

  lemma NumeralStep(n: nat, c: char)
    requires n > 0 && IsDigit(c)
    ensures Numeral(10 * n + DigitValue(c)) == Numeral(n) + [c]
  {
  }
}
