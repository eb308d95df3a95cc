/** Telling take-profit from stop-loss by comparing rounded prices. */
module CloseReasons {
  import opened Wrappers
  import opened WideIntegers

  datatype Reason = Manual | TakeProfit | StopLoss | Liquidation

  function BitLength(n: nat): nat {
    if n == 0 then 0 else 1 + BitLength(n / 2)
  }

  /** Round to the nearest number with so many significant bits, ties to even. */
  function RoundToBits(n: int, bits: nat): int {
    var m := RoundNat(Magnitude(n), bits);
    if n < 0 then 0 - m else m
  }

  function RoundNat(n: nat, bits: nat): nat {
    if BitLength(n) <= bits then n
    else RoundToMultiple(n, Pow2(BitLength(n) - bits))
  }

  /** Round to the nearest multiple of the unit, halves to the even one. */
  function RoundToMultiple(n: nat, unit: nat): nat {
    if unit == 0 then n
    else if n >= 2 * unit then 2 * unit + RoundToMultiple(n - 2 * unit, unit)
    else if 2 * n <= unit then 0
    else if 2 * n < 3 * unit then unit
    else 2 * unit
  }

  /**
   The stored tp and sl are read as float64, the close price as a 64-bit big.Float. With
   a close price, anything that is not a stop-loss ends up as a take-profit.
   */
  function ExecutedReason(isLong: bool, tp: int, sl: int, closePrice: Option<int>): Reason {
    var tp', sl' := RoundToBits(tp, 53), RoundToBits(sl, 53);
    if closePrice.Some? then
      var cp := RoundToBits(closePrice.value, 64);
      if isLong then
        if sl' > 0 && cp <= sl' then StopLoss else TakeProfit
      else
        if sl' > 0 && cp >= sl' then StopLoss else TakeProfit
    else if tp' == 0 then StopLoss
    else TakeProfit
  }

  lemma {:induction false} BitLengthBounds(n: nat, k: nat)
    ensures BitLength(n) <= k <==> n < Pow2(k)
    decreases k
  {
    if k > 0 {
      BitLengthBounds(n / 2, k - 1);
    }
  }

  lemma {:induction false} Pow2IsMonotone(m: nat, n: nat)
    requires m <= n
    ensures 0 < Pow2(m) <= Pow2(n)
    decreases n
  {
    if m < n {
      Pow2IsMonotone(m, n - 1);
    } else if n > 0 {
      Pow2IsMonotone(m - 1, n - 1);
    }
  }

  lemma RoundingKeepsPositive(n: nat, bits: nat)
    requires bits > 0
    ensures RoundNat(n, bits) > 0 <==> n > 0
  {
    var length := BitLength(n);
    if length > bits {
      BitLengthBounds(n, length - 1);
      Pow2IsMonotone(length - bits, length - 1);
      MultipleKeepsPositive(n, Pow2(length - bits));
    }
  }

  lemma MultipleKeepsPositive(n: nat, unit: nat)
    requires 0 < unit <= n
    ensures RoundToMultiple(n, unit) > 0
  {
  }

  /** The stop was hit at the exact prices. */
  predicate StoppedOut(isLong: bool, sl: int, closePrice: int) {
    sl > 0 && if isLong then closePrice <= sl else closePrice >= sl
  }

  /** The recorded reason tells truly whether the stop was hit. */
  predicate ReasonIsRight(isLong: bool, tp: int, sl: int, closePrice: int) {
    ExecutedReason(isLong, tp, sl, Some(closePrice)) == if StoppedOut(isLong, sl, closePrice) then StopLoss else TakeProfit
  }

  // ----- Rounding keeps order -----

  lemma {:induction false} MultipleIsMonotone(a: nat, b: nat, unit: nat)
    requires 0 < unit && a <= b
    ensures RoundToMultiple(a, unit) <= RoundToMultiple(b, unit)
    decreases b
  {
    if a >= 2 * unit {
      MultipleIsMonotone(a - 2 * unit, b - 2 * unit, unit);
    }
  }

  lemma {:induction false} MultipleIsItself(k: nat, unit: nat, n: nat)
    requires 0 < unit && n == k * unit
    ensures RoundToMultiple(n, unit) == n
    decreases k
  {
    if k >= 2 {
      TwoFewer(k, unit);
      MultipleIsItself(k - 2, unit, n - 2 * unit);
    }
  }

  lemma TwoFewer(k: nat, unit: nat)
    requires k >= 2
    ensures k * unit == (k - 2) * unit + 2 * unit
  {
  }

  lemma PowerIsItself(high: nat, low: nat)
    requires low <= high
    ensures Pow2(low) > 0 && RoundToMultiple(Pow2(high), Pow2(low)) == Pow2(high)
  {
    Pow2IsMonotone(0, low);
    Pow2Adds(high - low, low);
    MultipleIsItself(Pow2(high - low), Pow2(low), Pow2(high));
  }

  lemma BinadeEnds(length: nat, low: nat)
    requires low < length
    ensures Pow2(low) > 0
    ensures RoundToMultiple(Pow2(length - 1), Pow2(low)) == Pow2(length - 1)
    ensures RoundToMultiple(Pow2(length), Pow2(low)) == Pow2(length)
  {
    PowerIsItself(length - 1, low);
    PowerIsItself(length, low);
  }

  /** Rounding does not leave the binade. */
  lemma RoundStaysInBinade(n: nat, bits: nat)
    requires bits > 0 && n > 0
    ensures Pow2(BitLength(n) - 1) <= RoundNat(n, bits) <= Pow2(BitLength(n))
  {
    var length := BitLength(n);
    BitLengthBounds(n, length);
    BitLengthBounds(n, length - 1);
    if length > bits {
      BinadeEnds(length, length - bits);
      LongStaysWithin(n, bits, Pow2(length - bits), Pow2(length - 1), Pow2(length));
    }
  }

  lemma LongStaysWithin(n: nat, bits: nat, unit: nat, low: nat, high: nat)
    requires BitLength(n) > bits && unit == Pow2(BitLength(n) - bits) > 0 && low <= n <= high
    requires RoundToMultiple(low, unit) == low && RoundToMultiple(high, unit) == high
    ensures low <= RoundNat(n, bits) <= high
  {
    MultipleStaysWithin(n, unit, low, high);
  }

  lemma MultipleStaysWithin(n: nat, unit: nat, low: nat, high: nat)
    requires 0 < unit && low <= n <= high
    requires RoundToMultiple(low, unit) == low && RoundToMultiple(high, unit) == high
    ensures low <= RoundToMultiple(n, unit) <= high
  {
    MultipleIsMonotone(low, n, unit);
    MultipleIsMonotone(n, high, unit);
  }

  lemma RoundInBinadeIsMonotone(a: nat, b: nat, bits: nat)
    requires a <= b && BitLength(a) == BitLength(b) > bits
    ensures RoundNat(a, bits) <= RoundNat(b, bits)
  {
    Pow2IsMonotone(0, BitLength(a) - bits);
    MultipleIsMonotone(a, b, Pow2(BitLength(a) - bits));
  }

  lemma BitLengthIsMonotone(a: nat, b: nat)
    requires a <= b
    ensures BitLength(a) <= BitLength(b)
  {
    BitLengthBounds(b, BitLength(b));
    BitLengthBounds(a, BitLength(b));
  }

  lemma RoundIsMonotone(a: nat, b: nat, bits: nat)
    requires bits > 0 && a <= b
    ensures RoundNat(a, bits) <= RoundNat(b, bits)
  {
    BitLengthIsMonotone(a, b);
    if a == 0 {
    } else if BitLength(a) == BitLength(b) {
      if BitLength(a) > bits {
        RoundInBinadeIsMonotone(a, b, bits);
      }
    } else {
      RoundStaysInBinade(a, bits);
      RoundStaysInBinade(b, bits);
      Pow2IsMonotone(BitLength(a), BitLength(b) - 1);
    }
  }

  lemma SignedRoundIsMonotone(a: int, b: int, bits: nat)
    requires bits > 0 && a <= b
    ensures RoundToBits(a, bits) <= RoundToBits(b, bits)
  {
    if a >= 0 {
      RoundIsMonotone(a, b, bits);
    } else if b < 0 {
      RoundIsMonotone(-b, -a, bits);
    }
  }

  // ----- What rounding computes -----

  /** The result is the multiple of the unit nearest to n, and of two equally near ones the even multiple. */
  lemma {:induction false} MultipleIsNearest(n: nat, unit: nat) returns (q: nat)
    requires unit > 0
    ensures RoundToMultiple(n, unit) == q * unit
    ensures 2 * (q * unit) - unit <= 2 * n <= 2 * (q * unit) + unit
    ensures 2 * n == 2 * (q * unit) + unit || 2 * n == 2 * (q * unit) - unit ==> q % 2 == 0
    decreases n
  {
    if n >= 2 * unit {
      var q' := MultipleIsNearest(n - 2 * unit, unit);
      q := q' + 2;
      TwoFewer(q, unit);
    } else {
      q := if 2 * n <= unit then 0 else if 2 * n < 3 * unit then 1 else 2;
    }
  }

  predicate Scales(n: nat, m: nat, k: nat) {
    n == m * Pow2(k)
  }

  /** A significand of so many bits times a power of two. */
  ghost predicate Fits(n: nat, bits: nat) {
    exists m: nat, k: nat :: m < Pow2(bits) && Scales(n, m, k)
  }

  lemma FactorIsBounded(n: nat, q: nat, unit: nat, bound: nat)
    requires unit > 0 && n == q * unit && n < bound * unit
    ensures q < bound
  {
    ProductIsMonotone(bound, q, unit);
  }

  lemma ProductIsMonotone(a: nat, b: nat, unit: nat)
    ensures a <= b ==> a * unit <= b * unit
  {
  }

  lemma ProductStaysBelow(m: nat, bound: nat, unit: nat, n: nat, limit: nat)
    requires m < bound && unit > 0 && n == m * unit && limit == bound * unit
    ensures n < limit
  {
  }

  lemma KeptFits(n: nat, bits: nat)
    requires RoundNat(n, bits) == n
    ensures Fits(n, bits)
  {
    var length := BitLength(n);
    if length <= bits {
      BitLengthBounds(n, bits);
      assert Scales(n, n, 0);
    } else {
      BitLengthBounds(n, length);
      Pow2IsMonotone(0, length - bits);
      Pow2Adds(bits, length - bits);
      var q := MultipleIsNearest(n, Pow2(length - bits));
      FactorIsBounded(n, q, Pow2(length - bits), Pow2(bits));
      assert Scales(n, q, length - bits);
    }
  }

  lemma ProductIsKept(n: nat, bits: nat, m: nat, k: nat)
    requires m < Pow2(bits) && Scales(n, m, k)
    ensures RoundNat(n, bits) == n
  {
    if BitLength(n) > bits {
      ProductLength(n, m, bits, k);
      var q := PowerDivides(n, m, k, BitLength(n) - bits);
      MultipleIsKept(n, bits, q);
    }
  }

  /** Rounding to so many bits keeps exactly the numbers that fit into them. */
  lemma KeptIffFits(n: nat, bits: nat)
    ensures RoundNat(n, bits) == n <==> Fits(n, bits)
  {
    if RoundNat(n, bits) == n {
      KeptFits(n, bits);
    }
    if Fits(n, bits) {
      var m: nat, k: nat :| m < Pow2(bits) && Scales(n, m, k);
      ProductIsKept(n, bits, m, k);
    }
  }

  lemma ProductIsBelow(n: nat, m: nat, bits: nat, k: nat)
    requires m < Pow2(bits) && Scales(n, m, k)
    ensures n < Pow2(bits + k)
  {
    var unit, bound := Pow2(k), Pow2(bits);
    Pow2IsMonotone(0, k);
    Pow2Adds(bits, k);
    ProductStaysBelow(m, bound, unit, n, Pow2(bits + k));
  }

  lemma ProductLength(n: nat, m: nat, bits: nat, k: nat)
    requires m < Pow2(bits) && Scales(n, m, k)
    ensures BitLength(n) <= bits + k
  {
    ProductIsBelow(n, m, bits, k);
    BitLengthBounds(n, bits + k);
  }

  lemma PowerDivides(n: nat, m: nat, k: nat, low: nat) returns (q: nat)
    requires low <= k && Scales(n, m, k)
    ensures Scales(n, q, low)
  {
    Pow2Adds(k - low, low);
    Regroup(m, Pow2(k - low), Pow2(low));
    q := m * Pow2(k - low);
  }

  lemma MultipleIsKept(n: nat, bits: nat, q: nat)
    requires BitLength(n) > bits && Scales(n, q, BitLength(n) - bits)
    ensures RoundNat(n, bits) == n
  {
    Pow2IsMonotone(0, BitLength(n) - bits);
    MultipleIsItself(q, Pow2(BitLength(n) - bits), n);
  }

  lemma Regroup(a: nat, b: nat, c: nat)
    ensures a * (b * c) == (a * b) * c
  {
  }

  // ----- When the recorded reason is right -----

  /** The reason compares what the two prices are read as. */
  lemma ReasonIsRightIff(isLong: bool, tp: int, sl: int, closePrice: int)
    ensures ReasonIsRight(isLong, tp, sl, closePrice)
       <==> || sl <= 0
            || if isLong then closePrice <= sl <==> RoundToBits(closePrice, 64) <= RoundToBits(sl, 53)
               else closePrice >= sl <==> RoundToBits(closePrice, 64) >= RoundToBits(sl, 53)
  {
    if sl > 0 {
      RoundingKeepsPositive(sl, 53);
    }
  }

  ghost predicate EveryReasonIsRight(isLong: bool, tp: int, sl: int) {
    forall closePrice: int :: ReasonIsRight(isLong, tp, sl, closePrice)
  }

  /** The stop separates the close prices that are read as hitting it from the others. */
  predicate ReadsSharply(isLong: bool, sl: int) {
    var sl' := RoundToBits(sl, 53);
    if isLong then RoundToBits(sl, 64) <= sl' < RoundToBits(sl + 1, 64)
    else RoundToBits(sl - 1, 64) < sl' <= RoundToBits(sl, 64)
  }

  /**
   Whether every close of a position is filed rightly depends on the stop alone: on what it and the
   next price beyond it are read as. This holds of prices of any size.
   */
  lemma EveryReasonIsRightIff(isLong: bool, tp: int, sl: int)
    ensures EveryReasonIsRight(isLong, tp, sl) <==> sl <= 0 || ReadsSharply(isLong, sl)
  {
    var next := if isLong then sl + 1 else sl - 1;
    ReasonIsRightIff(isLong, tp, sl, sl);
    ReasonIsRightIff(isLong, tp, sl, next);
    if EveryReasonIsRight(isLong, tp, sl) {
      assert ReasonIsRight(isLong, tp, sl, sl) && ReasonIsRight(isLong, tp, sl, next);
    }
    if sl <= 0 || ReadsSharply(isLong, sl) {
      forall closePrice: int
        ensures ReasonIsRight(isLong, tp, sl, closePrice)
      {
        SharpStopIsRight(isLong, tp, sl, closePrice);
      }
    }
  }

  lemma SharpStopIsRight(isLong: bool, tp: int, sl: int, closePrice: int)
    requires sl <= 0 || ReadsSharply(isLong, sl)
    ensures ReasonIsRight(isLong, tp, sl, closePrice)
  {
    ReasonIsRightIff(isLong, tp, sl, closePrice);
    if closePrice <= sl {
      SignedRoundIsMonotone(closePrice, sl, 64);
    } else {
      SignedRoundIsMonotone(sl + 1, closePrice, 64);
    }
    if closePrice >= sl {
      SignedRoundIsMonotone(sl, closePrice, 64);
    } else {
      SignedRoundIsMonotone(closePrice, sl - 1, 64);
    }
  }

  /** For a stop below 2^64 - 1, every close is filed rightly if and only if the stop is unset or a float64. */
  lemma FloatStopsAreRightIff(isLong: bool, tp: int, sl: int)
    requires sl < 0xFFFF_FFFF_FFFF_FFFF
    ensures EveryReasonIsRight(isLong, tp, sl) <==> sl <= 0 || Fits(sl, 53)
  {
    EveryReasonIsRightIff(isLong, tp, sl);
    if sl > 0 {
      Pow2Of64();
      BitLengthBounds(sl + 1, 64);
      BitLengthIsMonotone(sl, sl + 1);
      BitLengthIsMonotone(sl - 1, sl);
      ExactNeighbours(isLong, sl);
      KeptIffFits(sl, 53);
    }
  }

  lemma ExactNeighbours(isLong: bool, sl: nat)
    requires sl > 0 && RoundNat(sl - 1, 64) == sl - 1 && RoundNat(sl, 64) == sl && RoundNat(sl + 1, 64) == sl + 1
    ensures ReadsSharply(isLong, sl) <==> RoundNat(sl, 53) == sl
  {
  }

  /** Without a close price only the take-profit is looked at. */
  lemma ReasonWithoutPrice(isLong: bool, tp: int, sl: int)
    ensures ExecutedReason(isLong, tp, sl, None) == if tp == 0 then StopLoss else TakeProfit
  {
    RoundingKeepsPositive(Magnitude(tp), 53);
  }

  lemma {:induction false} TieRoundsDown(h: nat)
    ensures RoundToMultiple(4 * h + 1, 2) == 4 * h
  {
    if h > 0 {
      TieRoundsDown(h - 1);
    }
  }

  /** One past a multiple of four is a tie when one bit too long, and rounds down. */
  lemma TieAt(n: nat, h: nat, bits: nat)
    requires n == 4 * h + 1 && BitLength(n) == bits + 1
    ensures RoundNat(n, bits) == n - 1
  {
    assert Pow2(1) == 2;
    TieRoundsDown(h);
  }

  /** A long without a take-profit was stopped out exactly at its stop and is filed as a take-profit. */
  predicate Misfiled(sl: nat) {
    StoppedOut(true, sl, sl) && ExecutedReason(true, 0, sl, Some(sl)) == TakeProfit
  }

  /** It happens to every 54-bit stop one past a multiple of four. */
  lemma StopLossFiledAsTakeProfit(sl: nat, h: nat)
    requires sl == 4 * h + 1 && BitLength(sl) == 54
    ensures Misfiled(sl)
  {
    TieAt(sl, h, 53);
  }

  lemma PowerPlusOne(k: nat)
    requires k >= 2
    ensures BitLength(Pow2(k) + 1) == k + 1 && Pow2(k) == 4 * Pow2(k - 2)
  {
    BitLengthBounds(Pow2(k) + 1, k);
    BitLengthBounds(Pow2(k) + 1, k + 1);
  }

  lemma UpToAPower(n: nat, k: nat)
    requires n <= Pow2(k) && k > 0
    ensures RoundNat(n, k) == n && BitLength(n) <= k + 1
  {
    BitLengthBounds(n, k);
    BitLengthBounds(n, k + 1);
    if n == Pow2(k) {
      assert Pow2(1) == 2;
      PowerIsItself(k, 1);
    }
  }

  lemma ExactStopIsRight(sl: nat)
    requires RoundNat(sl, 53) == sl && BitLength(sl) <= 64
    ensures !Misfiled(sl)
  {
  }

  lemma UpToThePowerNoneIsMisfiled(sl: nat)
    requires sl <= Pow2(53)
    ensures !Misfiled(sl)
  {
    UpToAPower(sl, 53);
    ExactStopIsRight(sl);
  }

  lemma OnePastThePowerIsMisfiled()
    ensures Misfiled(Pow2(53) + 1)
  {
    PowerPlusOne(53);
    var h := Pow2(51);
    StopLossFiledAsTakeProfit(4 * h + 1, h);
  }

  /** The least misfiled stop is one past 2^53. */
  lemma LeastMisfiledStop(sl: nat)
    ensures sl <= Pow2(53) ==> !Misfiled(sl)
    ensures Misfiled(Pow2(53) + 1)
  {
    if sl <= Pow2(53) {
      UpToThePowerNoneIsMisfiled(sl);
    }
    OnePastThePowerIsMisfiled();
  }
}
