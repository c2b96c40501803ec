/** Decimal printing of natural numbers, as `to_string` and `{}` do it. */
module Decimal {
  const DIGITS := "0123456789"

  function Print(n: nat): (text: string)
    ensures text != ""
  {
    if n < 10 then [DIGITS[n]] else Print(n / 10) + [DIGITS[n % 10]]
  }

  function DigitValue(c: char): nat {
    if '0' <= c <= '9' then (c - '0') as int else 0
  }

  function Read(text: string): nat {
    if text == "" then 0 else 10 * Read(text[..|text| - 1]) + DigitValue(text[|text| - 1])
  }

  lemma {:induction false} ReadPrint(n: nat)
    ensures Read(Print(n)) == n
  {
    if n >= 10 {
      ReadPrint(n / 10);
      assert Print(n)[..|Print(n)| - 1] == Print(n / 10);
    } else {
      assert Read(Print(n)[..0]) == 0;
    }
  }

  lemma PrintInjective(a: nat, b: nat)
    requires Print(a) == Print(b)
    ensures a == b
  {
    ReadPrint(a);
    ReadPrint(b);
  }

  lemma {:induction false} PrintsDigits(n: nat)
    ensures forall i | 0 <= i < |Print(n)| :: '0' <= Print(n)[i] <= '9'
  {
    if n >= 10 {
      PrintsDigits(n / 10);
    }
  }
}
