/** Numbers as digits, most significant first. */
module Numerals {

  const DIGITS: string := "0123456789abcdef"

  predicate IsBase(base: nat) {
    base == 10 || base == 16
  }

  function DigitOf(d: nat): (c: char)
    requires d < 16
  {
    DIGITS[d]
  }

  /** The value of a digit, if it is one in the given base. */
  predicate IsDigit(c: char, base: nat)
    requires IsBase(base)
  {
    '0' <= c <= '9' || (base == 16 && 'a' <= c <= 'f')
  }

  function DigitValue(c: char, base: nat): (d: nat)
    requires IsBase(base) && IsDigit(c, base)
    ensures d < base
  {
    if c <= '9' then c as int - '0' as int else c as int - 'a' as int + 10
  }

  /** The digits of n, without leading zeros; "0" for 0. */
  function Numeral(n: nat, base: nat): (s: string)
    requires IsBase(base)
    ensures |s| > 0
    decreases n
  {
    if n < base then [DigitOf(n)] else Numeral(n / base, base) + [DigitOf(n % base)]
  }

  predicate AllDigits(s: string, base: nat)
    requires IsBase(base)
  {
    forall i :: 0 <= i < |s| ==> IsDigit(s[i], base)
  }

  /** The number that digits denote. */
  function Value(s: string, base: nat): nat
    requires IsBase(base) && AllDigits(s, base)
  {
    if s == [] then 0 else Value(s[..|s| - 1], base) * base + DigitValue(s[|s| - 1], base)
  }

  lemma DigitDenotes(d: nat, base: nat)
    requires IsBase(base) && d < base
    ensures IsDigit(DigitOf(d), base) && DigitValue(DigitOf(d), base) == d
  {
    assert DIGITS == ['0', '1', '2', '3', '4', '5', '6', '7', '8', '9', 'a', 'b', 'c', 'd', 'e', 'f'];
  }

  /** A numeral denotes its number. */
  lemma {:induction false} NumeralDenotes(n: nat, base: nat)
    requires IsBase(base)
    ensures AllDigits(Numeral(n, base), base) && Value(Numeral(n, base), base) == n
    decreases n
  {
    if n < base {
      DigitDenotes(n, base);
      assert Numeral(n, base)[..0] == [];
    } else {
      NumeralDenotes(n / base, base);
      DigitDenotes(n % base, base);
      var s := Numeral(n / base, base);
      assert (s + [DigitOf(n % base)])[..|s|] == s;
    }
  }

  /** It has no leading zero, unless it is "0". */
  lemma {:induction false} NumeralIsShortest(n: nat, base: nat)
    requires IsBase(base)
    ensures Numeral(n, base)[0] == '0' <==> n == 0
    decreases n
  {
    if n < base {
      DigitDenotes(n, base);
      DigitDenotes(0, base);
      assert DIGITS[0] == '0';
    } else {
      NumeralIsShortest(n / base, base);
    }
  }
}
