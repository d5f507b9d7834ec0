/** str(n) for integers, and reading it back. */
module Decimal {
  import opened NumberTheory
  import opened Bytes

  function DigitChar(d: nat): (c: char)
    requires d < 10
    ensures '0' <= c <= '9'
  {
    '0' + d as char
  }

  // Decimal digits of a natural number, without leading zeros.
  function Digits(n: nat): (s: string)
    ensures s != [] && forall i :: 0 <= i < |s| ==> '0' <= s[i] <= '9'
  {
    if n < 10 then [DigitChar(n)] else Digits(n / 10) + [DigitChar(n % 10)]
  }

  function ToString(n: int): string {
    if n < 0 then "-" + Digits(-n) else Digits(n)
  }

  // The number a digit string spells.
  function Number(s: string): nat
    requires forall i :: 0 <= i < |s| ==> '0' <= s[i] <= '9'
  {
    if s == [] then 0 else Number(s[..|s| - 1]) * 10 + (s[|s| - 1] as int - '0' as int)
  }

  lemma {:induction false} NumberOfDigits(n: nat)
    ensures Number(Digits(n)) == n
  {
    var s := Digits(n);
    if n >= 10 {
      NumberOfDigits(n / 10);
      assert s[..|s| - 1] == Digits(n / 10);
    } else {
      assert s[..0] == [];
    }
  }

  lemma DigitsInjective(m: nat, n: nat)
    requires Digits(m) == Digits(n)
    ensures m == n
  {
    NumberOfDigits(m);
    NumberOfDigits(n);
  }

  // The digit of weight 10^i, counted from the right.
  lemma {:induction false} DigitAt(n: nat, i: nat)
    requires i < |Digits(n)|
    ensures Pow(10, i) > 0 && Digits(n)[|Digits(n)| - 1 - i] as int == '0' as int + n / Pow(10, i) % 10
  {
    PowPositive(10, i);
    if i > 0 {
      PowPositive(10, i - 1);
      DigitAt(n / 10, i - 1);
      DivideTwice(n, 10, Pow(10, i - 1));
    }
  }

  lemma {:induction false} DigitsLead(n: nat)
    ensures Digits(n)[0] == '0' ==> n == 0
    ensures n < 10 ==> |Digits(n)| == 1
  {
    if n >= 10 { DigitsLead(n / 10); }
  }

  /** str(n): a minus sign for a negative number, then the digits, most significant first, without a
      needless zero. */
  lemma ToStringLayout(n: int, i: nat)
    ensures n < 0 ==> ToString(n) != "" && ToString(n)[0] == '-'
    ensures var s := if n < 0 then ToString(n)[1..] else ToString(n);
            var m: nat := if n < 0 then -n else n;
            && s != [] && (s[0] == '0' ==> s == "0" && n == 0)
            && (i < |s| ==> Pow(10, i) > 0 && s[|s| - 1 - i] as int == '0' as int + m / Pow(10, i) % 10)
  {
    var m: nat := if n < 0 then -n else n;
    var s := if n < 0 then ToString(n)[1..] else ToString(n);
    assert s == Digits(m);
    DigitsLead(m);
    if i < |s| { DigitAt(m, i); }
  }

  lemma NotNegative(n: nat)
    ensures Digits(n)[0] != '-'
  {
  }

  /** Different integers print differently. */
  lemma ToStringInjective(m: int, n: int)
    requires ToString(m) == ToString(n)
    ensures m == n
  {
    if m < 0 && n < 0 {
      assert ToString(m)[1..] == Digits(-m) && ToString(n)[1..] == Digits(-n);
      DigitsInjective(-m, -n);
    } else if m >= 0 && n >= 0 {
      DigitsInjective(m, n);
    } else if m < 0 {
      NotNegative(n);
    } else {
      NotNegative(m);
    }
  }
}
