/** Decimal text of integers, and reading it back as a 64-bit signed integer the way the
    standard integer parser does: an optional sign, at least one digit, leading zeros
    allowed, out of range refused. */
module Decimal {
  import opened Json

  const I64_MIN := -0x8000_0000_0000_0000
  const I64_MAX := 0x7fff_ffff_ffff_ffff

  predicate IsDigit(c: char) {
    '0' <= c <= '9'
  }

  predicate AllDigits(s: string) {
    forall i | 0 <= i < |s| :: IsDigit(s[i])
  }

  function PrintNat(n: nat): (s: string)
    ensures |s| > 0 && AllDigits(s)
  {
    if n < 10 then ['0' + n as char] else PrintNat(n / 10) + ['0' + (n % 10) as char]
  }

  function Print(n: int): string {
    if n < 0 then "-" + PrintNat(-n) else PrintNat(n)
  }

  function DigitsValue(s: string): nat
    requires AllDigits(s)
  {
    if s == [] then 0 else 10 * DigitsValue(s[..|s| - 1]) + (s[|s| - 1] - '0') as nat
  }

  function InRange(value: int): Option<int> {
    if I64_MIN <= value <= I64_MAX then Some(value) else None
  }

  function ParseDigits(digits: string, negative: bool): Option<int> {
    if digits == [] || !AllDigits(digits) then None
    else
      var magnitude: int := DigitsValue(digits);
      InRange(if negative then -magnitude else magnitude)
  }

  function ParseI64(s: string): Option<int> {
    if s != [] && (s[0] == '-' || s[0] == '+') then ParseDigits(s[1..], s[0] == '-')
    else ParseDigits(s, false)
  }

  lemma {:induction false} PrintNatReadsBack(n: nat)
    ensures DigitsValue(PrintNat(n)) == n
  {
    var s := PrintNat(n);
    if n >= 10 {
      PrintNatReadsBack(n / 10);
      assert s[..|s| - 1] == PrintNat(n / 10);
    } else {
      assert s[..|s| - 1] == "";
    }
  }

  /** Different numbers never print alike. */
  lemma PrintNatInjective(m: nat, n: nat)
    requires PrintNat(m) == PrintNat(n)
    ensures m == n
  {
    PrintNatReadsBack(m);
    PrintNatReadsBack(n);
  }

  /** Reading back what was printed gives the number, or nothing when it does not fit. */
  lemma PrintParses(n: int)
    ensures ParseI64(Print(n)) == InRange(n)
  {
    if n < 0 {
      PrintNatReadsBack(-n);
      assert Print(n)[1..] == PrintNat(-n);
    } else {
      PrintNatReadsBack(n);
      assert IsDigit(PrintNat(n)[0]);
    }
  }

  /** What is read: digits, with a sign in front or without, and nothing else. */
  lemma ParsesIff(s: string)
    ensures AllDigits(s) && s != [] ==>
              && ParseI64(s) == InRange(DigitsValue(s))
              && ParseI64("+" + s) == InRange(DigitsValue(s))
              && ParseI64("-" + s) == InRange(-(DigitsValue(s) as int))
    ensures ParseI64(s).Some? ==>
              || (s != [] && AllDigits(s))
              || (|s| > 1 && (s[0] == '+' || s[0] == '-') && AllDigits(s[1..]))
  {
    assert ("+" + s)[1..] == s && ("-" + s)[1..] == s;
    if AllDigits(s) && s != [] {
      assert IsDigit(s[0]);
    }
  }

  /** Leading zeros do not change the value. */
  lemma {:induction false} LeadingZeroIsIgnored(s: string)
    requires AllDigits(s)
    ensures AllDigits("0" + s) && DigitsValue("0" + s) == DigitsValue(s)
    decreases |s|
  {
    var t := "0" + s;
    assert forall i | 0 <= i < |t| :: t[i] == if i == 0 then '0' else s[i - 1];
    if s == [] {
      assert t[..|t| - 1] == [];
    } else {
      assert t[..|t| - 1] == "0" + s[..|s| - 1];
      LeadingZeroIsIgnored(s[..|s| - 1]);
    }
  }
}
