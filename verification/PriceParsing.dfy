/** Turning an exchange's decimal price string into the oracle's fixed-point scale. */
module PriceParsing {
  import opened Wrappers
  import opened Decimals

  const DECIMALS: nat := 14

  /** Unicode white space, as Go's strings.TrimSpace strips it. */
  predicate IsSpace(c: char) {
    || '\U{9}' <= c <= '\U{D}' || c == ' ' || c == '\U{85}' || c == '\U{A0}' || c == '\U{1680}'
    || '\U{2000}' <= c <= '\U{200A}' || c == '\U{2028}' || c == '\U{2029}' || c == '\U{202F}'
    || c == '\U{205F}' || c == '\U{3000}'
  }

  function TrimSpace(s: string): string {
    if s != [] && IsSpace(s[0]) then TrimSpace(s[1..])
    else if s != [] && IsSpace(s[|s| - 1]) then TrimSpace(s[..|s| - 1])
    else s
  }

  /** The text before and after the first dot; without a dot, the whole text and nothing. */
  function Cut(s: string): (string, string) {
    if s == [] then ([], [])
    else if s[0] == '.' then ([], s[1..])
    else var (before, after) := Cut(s[1..]); ([s[0]] + before, after)
  }

  function ParsePriceToScale(s: string): Option<int> {
    var t := TrimSpace(s);
    if t == [] then
      None
    else
      var (intPart, fracPart) := Cut(t);
      var frac := if |fracPart| > DECIMALS then fracPart[..DECIMALS] else fracPart;
      match Parse(intPart + frac + Zeros(DECIMALS - |frac|))
      case None => None
      case Some(v) => if v <= 0 then None else Some(v)
  }

  /** A decimal numeral: whole digits, and fraction digits after a dot if there is one. */
  predicate IsNumeral(s: string, whole: string, frac: string) {
    && AllDigits(whole) && AllDigits(frac)
    && (s == whole + "." + frac || (s == whole && frac == []))
  }

  /** The code points with the Unicode property White_Space. */
  predicate White(c: char) {
    var u := c as int;
    || 9 <= u <= 13 || u == 32 || u == 0x85 || u == 0xA0 || u == 0x1680 || 0x2000 <= u <= 0x200A
    || u == 0x2028 || u == 0x2029 || u == 0x202F || u == 0x205F || u == 0x3000
  }

  predicate AllWhite(s: string) {
    forall i | 0 <= i < |s| :: White(s[i])
  }

  /** Neither begins nor ends with white space. */
  predicate Bare(s: string) {
    s != [] ==> !White(s[0]) && !White(s[|s| - 1])
  }

  /** Trimming removes the white space around a text, all of it and nothing else. */
  lemma {:induction false} TrimsWhiteSpace(before: string, s: string, after: string)
    requires AllWhite(before) && AllWhite(after) && Bare(s)
    ensures TrimSpace(before + s + after) == s
    decreases |before| + |after|
  {
    var padded := before + s + after;
    if before != [] {
      assert padded[0] == before[0];
      assert padded[1..] == before[1..] + s + after;
      TrimsWhiteSpace(before[1..], s, after);
    } else if after != [] {
      if s == [] {
        assert padded == after && padded[1..] == before + s + after[1..];
        TrimsWhiteSpace(before, s, after[1..]);
      } else {
        assert padded[0] == s[0] && padded[|padded| - 1] == after[|after| - 1];
        assert padded[..|padded| - 1] == before + s + after[..|after| - 1];
        TrimsWhiteSpace(before, s, after[..|after| - 1]);
      }
    } else {
      assert padded == s;
    }
  }

  lemma NumeralsAreBare(s: string, whole: string, frac: string)
    requires IsNumeral(s, whole, frac)
    ensures Bare(s)
  {
  }

  /** The numeral's value times 10^14, rounded down. */
  function Scaled(whole: string, frac: string): nat
    requires AllDigits(whole) && AllDigits(frac)
  {
    ScaleDown(ValueOf(whole + frac), 100_000_000_000_000, Pow10(|frac|))
  }

  lemma Pow10Of14()
    ensures Pow10(DECIMALS) == 100_000_000_000_000
  {
    assert Pow10(7) == 10_000_000;
    Pow10Adds(7, 7);
  }

  function ScaleDown(value: nat, factor: nat, divisor: nat): nat
    requires divisor > 0
  {
    value * factor / divisor
  }

  lemma {:induction false} CutAtTheDot(s: string, whole: string, frac: string)
    requires '.' !in whole
    requires s == whole + "." + frac || (s == whole && frac == [])
    ensures Cut(s) == (whole, frac)
  {
    if whole != [] {
      CutAtTheDot(s[1..], whole[1..], frac);
      assert [s[0]] + whole[1..] == whole;
    }
  }

  lemma DivideScaled(v: nat, a: nat, b: nat)
    requires b > 0
    ensures (v * (a * b)) / b == v * a
  {
    assert v * (a * b) == (v * a) * b;
    DivideExactly(v * a, b);
  }

  lemma DivideExactly(q: nat, b: nat)
    requires b > 0
    ensures (q * b) / b == q
  {
    DivideWithRemainder(q, 0, b);
  }

  lemma DivideWithRemainder(q: nat, r: nat, b: nat)
    requires r < b
    ensures (q * b + r) / b == q
  {
    var n := q * b + r;
    var d := n / b;
    assert n == b * d + n % b;
    Between(b, d, q);
    Between(b, q, d);
  }

  lemma Between(b: nat, lo: int, hi: int)
    requires b * hi < b * lo + b
    ensures hi <= lo
  {
    assert b * (lo + 1) == b * lo + b;
    if hi >= lo + 1 {
      Scale(b, lo + 1, hi);
    }
  }

  lemma Scale(b: nat, x: int, y: int)
    requires x <= y
    ensures b * x <= b * y
  {
  }

  /** The digits handed to the integer parser denote the scaled value. */
  lemma DigitsDenoteScaled(whole: string, frac: string)
    requires AllDigits(whole) && AllDigits(frac)
    ensures var kept := if |frac| > DECIMALS then frac[..DECIMALS] else frac;
            var digits := whole + kept + Zeros(DECIMALS - |kept|);
            AllDigits(digits) && ValueOf(digits) == Scaled(whole, frac)
  {
    if |frac| <= DECIMALS {
      PaddedDigits(whole, frac);
    } else {
      TruncatedDigits(whole, frac);
    }
  }

  lemma PaddedDigits(whole: string, frac: string)
    requires AllDigits(whole) && AllDigits(frac) && |frac| <= DECIMALS
    ensures var digits := whole + frac + Zeros(DECIMALS - |frac|);
            AllDigits(digits) && ValueOf(digits) == Scaled(whole, frac)
  {
    var pad := DECIMALS - |frac|;
    ZerosAreZero(pad);
    ValueOfConcat(whole + frac, Zeros(pad));
    Pow10Adds(pad, |frac|);
    Pow10Of14();
    DivideScaled(ValueOf(whole + frac), Pow10(pad), Pow10(|frac|));
  }

  lemma TruncatedDigits(whole: string, frac: string)
    requires AllDigits(whole) && AllDigits(frac) && |frac| > DECIMALS
    ensures var digits := whole + frac[..DECIMALS] + Zeros(0);
            AllDigits(digits) && ValueOf(digits) == Scaled(whole, frac)
  {
    var kept, rest := frac[..DECIMALS], frac[DECIMALS..];
    assert whole + frac == (whole + kept) + rest;
    ValueOfConcat(whole + kept, rest);
    ValueOfIsBounded(rest);
    Pow10Adds(|rest|, DECIMALS);
    Pow10Of14();
    DropRemainder(ValueOf(whole + kept), ValueOf(rest), Pow10(|rest|), Pow10(DECIMALS));
    assert whole + kept + Zeros(0) == whole + kept;
  }

  lemma DropRemainder(v: nat, r: nat, b: nat, p: nat)
    requires r < b && p > 0
    ensures b * p > 0
    ensures (v * b + r) * p / (b * p) == v
  {
    assert (v * b + r) * p == v * (b * p) + r * p;
    assert r * p < b * p;
    DivideWithRemainder(v, r * p, b * p);
  }

  /**
   Parsing is exact: a numeral with any white space around it gives its value scaled by 10^14 and
   rounded down when that is positive, and nothing otherwise.
   */
  lemma ParsingIsExact(before: string, s: string, after: string, whole: string, frac: string)
    requires AllWhite(before) && AllWhite(after) && IsNumeral(s, whole, frac)
    ensures ParsePriceToScale(before + s + after) == if Scaled(whole, frac) > 0 then Some(Scaled(whole, frac)) else None
  {
    NumeralsAreBare(s, whole, frac);
    TrimsWhiteSpace(before, s, after);
    CutAtTheDot(s, whole, frac);
    DigitsDenoteScaled(whole, frac);
    var kept := if |frac| > DECIMALS then frac[..DECIMALS] else frac;
    var digits := whole + kept + Zeros(DECIMALS - |kept|);
    if s == [] {
      assert whole + frac == [];
      assert ValueOf(whole + frac) == 0;
    } else {
      ParseDigits(digits);
    }
  }

  /** Accepted prices keep the order of the numerals' exact values (compared by cross-multiplication). */
  lemma ParsingKeepsOrder(before: string, s: string, after: string, whole: string, frac: string,
                          before': string, s': string, after': string, whole': string, frac': string)
    requires AllWhite(before) && AllWhite(after) && IsNumeral(s, whole, frac)
    requires AllWhite(before') && AllWhite(after') && IsNumeral(s', whole', frac')
    requires ValueOf(whole + frac) * Pow10(|frac'|) <= ValueOf(whole' + frac') * Pow10(|frac|)
    requires ParsePriceToScale(before + s + after).Some?
    ensures ParsePriceToScale(before' + s' + after').Some?
    ensures ParsePriceToScale(before + s + after).value <= ParsePriceToScale(before' + s' + after').value
  {
    ParsingIsExact(before, s, after, whole, frac);
    ParsingIsExact(before', s', after', whole', frac');
    CrossScale(ValueOf(whole + frac), Pow10(|frac|), ValueOf(whole' + frac'), Pow10(|frac'|), 100_000_000_000_000);
  }

  lemma CrossScale(a: nat, b: nat, c: nat, d: nat, p: nat)
    requires b > 0 && d > 0 && a * d <= c * b
    ensures a * p / b <= c * p / d
  {
    assert a * p * d == p * (a * d);
    assert c * p * b == p * (c * b);
    QuotientsKeepOrder(a * p, b, c * p, d);
  }

  lemma QuotientsKeepOrder(a: nat, b: nat, c: nat, d: nat)
    requires b > 0 && d > 0 && a * d <= c * b
    ensures a / b <= c / d
  {
    var q, r := a / b, c / d;
    assert a == b * q + a % b;
    assert c == d * r + c % d;
    Scale(d, b * q, a);
    ScaleStrictly(b, c, d * r + d);
    Rearranged(b, d, q, r);
    Between(b * d, r, q);
  }

  lemma ScaleStrictly(b: nat, x: int, y: int)
    requires b > 0 && x < y
    ensures b * x < b * y
  {
  }

  lemma Rearranged(b: nat, d: nat, q: nat, r: nat)
    ensures d * (b * q) == (b * d) * q
    ensures b * (d * r + d) == (b * d) * r + b * d
  {
  }

  /** Whatever follows the fourteenth fraction character is not even read, well-formed or not. */
  lemma SurplusIsNotRead(whole: string, frac: string, surplus: string)
    requires '.' !in whole && |frac| == 14
    requires Bare(whole + "." + frac) && Bare(whole + "." + frac + surplus)
    ensures ParsePriceToScale(whole + "." + frac + surplus) == ParsePriceToScale(whole + "." + frac)
  {
    TrimmedAlready(whole + "." + frac);
    TrimmedAlready(whole + "." + frac + surplus);
    CutAtTheDot(whole + "." + frac, whole, frac);
    assert surplus == [] ==> frac + surplus == frac;
    assert whole + "." + frac + surplus == whole + "." + (frac + surplus);
    CutAtTheDot(whole + "." + frac + surplus, whole, frac + surplus);
    assert (frac + surplus)[..DECIMALS] == frac;
  }

  /**
   A character among those read that is not a digit, other than a leading plus, spoils the price; a
   leading minus is no exception.
   */
  lemma StrayCharacterIsRefused(whole: string, frac: string, k: nat)
    requires '.' !in whole && Bare(whole + "." + frac)
    requires var read := whole + if |frac| > 14 then frac[..14] else frac;
             k < |read| && !('0' <= read[k] <= '9') && (k == 0 ==> read[0] != '+')
    ensures ParsePriceToScale(whole + "." + frac) == None
  {
    TrimmedAlready(whole + "." + frac);
    CutAtTheDot(whole + "." + frac, whole, frac);
    var kept := if |frac| > DECIMALS then frac[..DECIMALS] else frac;
    var digits := whole + kept + Zeros(DECIMALS - |kept|);
    assert digits[k] == (whole + kept)[k];
    if k > 0 {
      assert digits[1..][k - 1] == digits[k];
    }
  }

  lemma TrimmedAlready(s: string)
    requires Bare(s)
    ensures TrimSpace(s) == s
  {
    TrimsWhiteSpace([], s, []);
    assert [] + s + [] == s;
  }

  lemma ExampleValue()
    ensures AllDigits("62738" + "10") && ValueOf("62738" + "10") == 6_273_810
  {
    assert ValueOf("62") == 62 && ValueOf("738") == 738 && ValueOf("10") == 10;
    ValueOfConcat("62", "738");
    assert Pow10(3) == 1_000 && "62" + "738" == "62738";
    ValueOfConcat("62738", "10");
    assert Pow10(2) == 100;
  }

  lemma TwoDecimals(s: string, whole: string, frac: string)
    requires IsNumeral(s, whole, frac) && |frac| == 2 && ValueOf(whole + frac) > 0
    ensures ParsePriceToScale(s) == Some(ValueOf(whole + frac) * 1_000_000_000_000)
  {
    assert Pow10(2) == 100;
    assert "" + s + "" == s;
    ParsingIsExact("", s, "", whole, frac);
  }

  /** The example in the repository's own comment. */
  lemma PriceExample()
    ensures ParsePriceToScale("62738.10") == Some(6_273_810_000_000_000_000)
  {
    ExampleValue();
    TwoDecimals("62738" + "." + "10", "62738", "10");
    assert "62738.10" == "62738" + "." + "10";
  }
}
