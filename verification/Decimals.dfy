/** Decimal printing and parsing of big integers, and the round trip between them. */
module Decimals {
  import opened Wrappers

  predicate IsDigit(c: char) {
    '0' <= c <= '9'
  }

  predicate AllDigits(s: string) {
    forall i | 0 <= i < |s| :: IsDigit(s[i])
  }

  function Pow10(n: nat): nat
    ensures Pow10(n) > 0
  {
    if n == 0 then 1 else 10 * Pow10(n - 1)
  }

  /** The number a digit string denotes; leading zeros do not matter. */
  function ValueOf(s: string): nat
    requires AllDigits(s)
  {
    if s == [] then 0 else 10 * ValueOf(s[..|s| - 1]) + (s[|s| - 1] as int - '0' as int)
  }

  function PrintNat(n: nat): string {
    var digit := ('0' as int + n % 10) as char;
    if n < 10 then [digit] else PrintNat(n / 10) + [digit]
  }

  function Print(n: int): string {
    if n < 0 then "-" + PrintNat(-n) else PrintNat(n)
  }

  /** An unsigned numeral: at least one digit and nothing else. */
  function ParseNat(s: string): Option<nat> {
    if s == [] || !AllDigits(s) then None else Some(ValueOf(s))
  }

  /** A numeral in base ten with an optional sign. */
  function Parse(s: string): Option<int> {
    if s != [] && (s[0] == '-' || s[0] == '+') then
      match ParseNat(s[1..])
      case None => None
      case Some(v) => Signed(s[0] == '-', v)
    else
      ParseNat(s)
  }

  function Signed(negative: bool, v: int): Option<int> {
    Some(if negative then -v else v)
  }

  lemma {:induction false} PrintNatRoundTrip(n: nat)
    ensures PrintNat(n) != [] && AllDigits(PrintNat(n)) && ValueOf(PrintNat(n)) == n
  {
    var s := PrintNat(n);
    if n >= 10 {
      PrintNatRoundTrip(n / 10);
      assert s[..|s| - 1] == PrintNat(n / 10);
    } else {
      assert s[..|s| - 1] == [];
    }
  }

  lemma ParseDigits(s: string)
    requires s != [] && AllDigits(s)
    ensures Parse(s) == Some(ValueOf(s))
  {
    assert IsDigit(s[0]);
  }

  lemma PrintRoundTrip(n: int)
    ensures Parse(Print(n)) == Some(n)
  {
    if n < 0 {
      PrintNatRoundTrip(-n);
      assert Print(n)[1..] == PrintNat(-n);
    } else {
      PrintNatRoundTrip(n);
      ParseDigits(PrintNat(n));
    }
  }

  lemma PrintIsInjective(m: int, n: int)
    requires Print(m) == Print(n)
    ensures m == n
  {
    PrintRoundTrip(m);
    PrintRoundTrip(n);
  }

  /** Printed numbers are made of digits, after a possible minus sign. */
  lemma PrintedCharacters(n: int, c: char)
    requires c in Print(n)
    ensures IsDigit(c) || c == '-'
  {
    PrintNatRoundTrip(if n < 0 then -n else n);
  }

  lemma TenTimes(v: nat, p: nat)
    ensures v * (10 * p) == 10 * (v * p)
    ensures (10 * p) * v == 10 * (p * v)
  {
  }

  lemma {:induction false} ValueOfConcat(s: string, t: string)
    requires AllDigits(s) && AllDigits(t)
    ensures AllDigits(s + t)
    ensures ValueOf(s + t) == ValueOf(s) * Pow10(|t|) + ValueOf(t)
  {
    if t == [] {
      assert s + t == s;
    } else {
      var front := t[..|t| - 1];
      ValueOfConcat(s, front);
      assert (s + t)[..|s + t| - 1] == s + front;
      assert (s + t)[|s + t| - 1] == t[|t| - 1];
      var p := Pow10(|front|);
      assert Pow10(|t|) == 10 * p;
      TenTimes(ValueOf(s), p);
    }
  }

  lemma {:induction false} ValueOfIsBounded(s: string)
    requires AllDigits(s)
    ensures ValueOf(s) < Pow10(|s|)
  {
    if s != [] {
      ValueOfIsBounded(s[..|s| - 1]);
    }
  }

  lemma {:induction false} Pow10Adds(m: nat, n: nat)
    ensures Pow10(m + n) == Pow10(m) * Pow10(n)
  {
    if m > 0 {
      Pow10Adds(m - 1, n);
      TenTimes(Pow10(n), Pow10(m - 1));
    }
  }

  function Zeros(n: nat): string {
    seq(n, _ => '0')
  }

  lemma {:induction false} ZerosAreZero(n: nat)
    ensures AllDigits(Zeros(n)) && ValueOf(Zeros(n)) == 0
  {
    if n > 0 {
      ZerosAreZero(n - 1);
      assert Zeros(n)[..n - 1] == Zeros(n - 1);
    }
  }
}
