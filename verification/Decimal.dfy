/** Decimal text of integers, as printed by `std::to_string` and read by `std::stoul`. */
module Decimal {

  function DigitChar(d: nat): char
    requires d < 10
  {
    ['0', '1', '2', '3', '4', '5', '6', '7', '8', '9'][d]
  }

  predicate IsDigit(c: char) {
    '0' <= c <= '9'
  }

  function DigitValue(c: char): (d: nat)
    requires IsDigit(c)
    ensures d < 10
  {
    c as int - '0' as int
  }

  function Natural(n: nat): (s: string)
    ensures s != ""
    ensures forall c :: c in s ==> IsDigit(c)
  {
    if n < 10 then [DigitChar(n)] else Natural(n / 10) + [DigitChar(n % 10)]
  }

  function Integer(n: int): string {
    if n < 0 then "-" + Natural(-n) else Natural(n)
  }

  /** Value of a run of digits behind digits worth `acc`. */
  function DigitsValue(s: string, acc: nat): nat
    requires forall c :: c in s ==> IsDigit(c)
  {
    if s == "" then acc else DigitsValue(s[1..], 10 * acc + DigitValue(s[0]))
  }

  lemma {:induction false} DigitsValueAppend(s: string, c: char, acc: nat)
    requires forall x :: x in s ==> IsDigit(x)
    requires IsDigit(c)
    ensures DigitsValue(s + [c], acc) == 10 * DigitsValue(s, acc) + DigitValue(c)
  {
    if s == "" {
      assert [c][1..] == "";
    } else {
      assert (s + [c])[1..] == s[1..] + [c];
      DigitsValueAppend(s[1..], c, 10 * acc + DigitValue(s[0]));
    }
  }

  lemma {:induction false} NaturalValue(n: nat)
    ensures DigitsValue(Natural(n), 0) == n
  {
    if n < 10 {
      assert DigitValue(DigitChar(n)) == n;
      assert [DigitChar(n)][1..] == "";
    } else {
      NaturalValue(n / 10);
      assert DigitValue(DigitChar(n % 10)) == n % 10;
      DigitsValueAppend(Natural(n / 10), DigitChar(n % 10), 0);
    }
  }

  lemma {:induction false} NoLeadingZero(n: nat)
    ensures n > 0 ==> Natural(n)[0] != '0'
  {
    if n >= 10 { NoLeadingZero(n / 10); }
  }
}
