/** Numbers written with decimal or hexadecimal digits, and reading them back. */
module Numerals {
  const DIGITS := "0123456789abcdef"

  predicate IsDigit(c: char) {
    '0' <= c <= '9' || 'a' <= c <= 'f'
  }

  datatype Base = Decimal | Hexadecimal {
    function Times(n: nat): nat {
      if Decimal? then 10 * n else 16 * n
    }

    /** All digits but the last, as a number, and the last. */
    function Split(n: nat): (r: (nat, nat))
      ensures n == Times(r.0) + r.1 && r.1 < Times(1) && (r.0 != 0 ==> r.0 < n)
    {
      if Decimal? then (n / 10, n % 10) else (n / 16, n % 16)
    }
  }

  function DigitAt(d: nat): (c: char)
    requires d < 16
    ensures IsDigit(c) && (d < 10 ==> '0' <= c <= '9')
  {
    DIGITS[d]
  }

  /** The number in the given base, without leading zeros. */
  function Digits(n: nat, base: Base): (r: string)
    ensures r != [] && forall c :: c in r ==> IsDigit(c) && (base.Decimal? ==> '0' <= c <= '9')
    decreases n
  {
    var (front, last) := base.Split(n);
    if front == 0 then [DigitAt(last)] else Digits(front, base) + [DigitAt(last)]
  }

  function DigitValue(c: char): (d: nat) {
    if '0' <= c <= '9' then (c - '0') as int else if 'a' <= c <= 'f' then 10 + (c - 'a') as int else 0
  }

  function Value(s: string, base: Base): nat {
    if s == [] then 0 else base.Times(Value(s[..|s| - 1], base)) + DigitValue(s[|s| - 1])
  }

  lemma DigitReadsBack(d: nat)
    requires d < 16
    ensures DigitValue(DigitAt(d)) == d
  {
  }

  lemma {:induction false} DigitsReadBack(n: nat, base: Base)
    ensures Value(Digits(n, base), base) == n
    decreases n
  {
    var (front, last) := base.Split(n);
    DigitReadsBack(last);
    hide DigitValue, DigitAt;
    if front == 0 {
      assert Digits(n, base)[..0] == [];
    } else {
      DigitsReadBack(front, base);
      assert Digits(n, base)[..|Digits(front, base)|] == Digits(front, base);
    }
  }

  /** Zero aside, no number starts with a zero. */
  lemma {:induction false} NoLeadingZero(n: nat, base: Base)
    ensures n > 0 ==> Digits(n, base)[0] != '0'
    decreases n
  {
    var (front, last) := base.Split(n);
    if front > 0 {
      NoLeadingZero(front, base);
    }
  }

  /** Two hundred and fifty-four, to tell the bases from any others. */
  lemma BasesAreTenAndSixteen()
    ensures Digits(254, Decimal) == "254" && Digits(254, Hexadecimal) == "fe"
  {
    assert Digits(2, Decimal) == "2" && Digits(25, Decimal) == "25";
    assert Digits(15, Hexadecimal) == "f";
  }
}
