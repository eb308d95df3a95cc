/**
 When a price liquidates a position. The code divides three times and rounds each
 time; here its verdict is compared with the exact leveraged loss, over the reals.
 */
module Liquidation {
  import opened Wrappers
  import opened TruncatedDivision
  import opened FeeMath

  /** A position with the fees it has run up. */
  datatype Exposure = Exposure(
    isLong: bool,
    openPrice: int,
    collateral: int,
    leverage: uint32,
    rolloverFee: int,
    fundingFee: int,
    liqThresholdP: uint32
  ) {
    predicate Positive() {
      openPrice > 0 && collateral > 0 && leverage > 0
    }

    /** Loss still affordable once fees are taken; may be negative. */
    function Headroom(): int {
      CollateralThreshold(collateral, liqThresholdP) - rolloverFee - fundingFee
    }

    function Price(): Result<int, MathError> {
      LiquidationPrice(Some(openPrice), isLong, Some(collateral), leverage, Some(rolloverFee), Some(fundingFee), liqThresholdP)
    }

    /** The keeper's verdict at an observed price. */
    predicate Flagged(observed: int) {
      Price().Ok? && IsLiquidatable(Some(observed), Some(Price().value), isLong)
    }

    /** The price movement against the position. */
    function Against(observed: int): int {
      if isLong then openPrice - observed else observed - openPrice
    }

    /** The exact leveraged loss at an observed price. */
    function Loss(observed: int): real
      requires openPrice > 0
    {
      (collateral * leverage * Against(observed)) as real / openPrice as real
    }

    /** Loss and fees have used up the (truncated) threshold. */
    predicate LossReached(observed: int)
      requires openPrice > 0
    {
      Loss(observed) + rolloverFee as real + fundingFee as real >= CollateralThreshold(collateral, liqThresholdP) as real
    }

    /** Loss and fees have used up the threshold percentage, without any rounding. */
    predicate ExactLossReached(observed: int, slack: int)
      requires openPrice > 0
    {
      Loss(observed) + rolloverFee as real + fundingFee as real + slack as real >= (collateral * liqThresholdP) as real / 100.0
    }

    /** The next price further against the position. */
    function Worse(observed: int): int {
      if isLong then observed - 1 else observed + 1
    }

    /** The fees stay under the threshold plus the whole notional. */
    predicate FeesBelowNotional() {
      rolloverFee + fundingFee < CollateralThreshold(collateral, liqThresholdP) + collateral * leverage
    }
  }

  lemma DivideAtLeast(n: int, d: int, bound: int)
    requires d > 0
    ensures n as real / d as real >= bound as real <==> n >= d * bound
  {
    var q := n as real / d as real;
    assert q * d as real == n as real;
    assert bound as real * d as real == (d * bound) as real;
    if q >= bound as real {
      assert q * d as real >= bound as real * d as real;
    } else {
      assert q * d as real < bound as real * d as real;
    }
  }

  /** The exact comparison, cleared of its division. */
  lemma LossReachedInIntegers(x: Exposure, observed: int)
    requires x.openPrice > 0
    ensures x.LossReached(observed) <==> x.collateral * x.leverage * x.Against(observed) >= x.openPrice * x.Headroom()
  {
    DivideAtLeast(x.collateral * x.leverage * x.Against(observed), x.openPrice, x.Headroom());
  }

  lemma DistanceIsOneDivision(x: Exposure)
    requires x.Positive()
    ensures x.collateral * x.leverage > 0
    ensures Distance(x.openPrice, x.collateral, x.leverage, x.Headroom())
         == Quo(x.openPrice * x.Headroom(), x.collateral * x.leverage)
  {
    QuoNested(x.openPrice * x.Headroom(), x.collateral, x.leverage);
  }

  /** Moving by the computed distance is one unit short of enough at most. */
  lemma DistanceIsTight(x: Exposure, move: int)
    requires x.Positive()
    ensures x.collateral * x.leverage * move >= x.openPrice * x.Headroom() ==>
              move >= Distance(x.openPrice, x.collateral, x.leverage, x.Headroom())
    ensures move >= Distance(x.openPrice, x.collateral, x.leverage, x.Headroom()) ==>
              x.collateral * x.leverage * (move + 1) >= x.openPrice * x.Headroom()
  {
    DistanceIsOneDivision(x);
    QuoTight(x.openPrice * x.Headroom(), x.collateral * x.leverage, move);
  }

  /** A short's computed price is positive exactly while its fees stay below threshold plus notional. */
  lemma ShortPriceIsPositiveIff(x: Exposure)
    requires x.Positive()
    ensures x.openPrice + Distance(x.openPrice, x.collateral, x.leverage, x.Headroom()) > 0 <==> x.FeesBelowNotional()
  {
    DistanceIsOneDivision(x);
    QuoAbove(x.openPrice, x.Headroom(), x.collateral * x.leverage);
  }

  /** A long's verdict needs no side condition. */
  lemma LongIsFlaggedWhenDue(x: Exposure, observed: int)
    requires x.Positive() && x.isLong && observed > 0
    ensures x.LossReached(observed) ==> x.Flagged(observed)
    ensures x.Flagged(observed) ==> x.LossReached(x.Worse(observed))
  {
    LossReachedInIntegers(x, observed);
    LossReachedInIntegers(x, x.Worse(observed));
    DistanceIsTight(x, x.Against(observed));
  }

  /**
   A short whose loss is due is flagged exactly while its fees stay below threshold plus
   notional. Beyond that its price is floored at zero, which the verdict reads as "never".
   */
  lemma ShortIsFlaggedWhenDueIff(x: Exposure, observed: int)
    requires x.Positive() && !x.isLong && observed > 0
    ensures x.LossReached(observed) ==> (x.Flagged(observed) <==> x.FeesBelowNotional())
    ensures x.Flagged(observed) ==> x.LossReached(x.Worse(observed))
  {
    LossReachedInIntegers(x, observed);
    LossReachedInIntegers(x, x.Worse(observed));
    DistanceIsTight(x, x.Against(observed));
    ShortPriceIsPositiveIff(x);
  }

  /**
   Against the threshold percentage itself: a due position is flagged, and a flagged one
   is short of it by less than one price unit and one collateral unit.
   */
  lemma LiquidationIsExact(x: Exposure, observed: int)
    requires x.Positive() && observed > 0
    requires x.isLong || x.FeesBelowNotional()
    ensures x.ExactLossReached(observed, 0) ==> x.Flagged(observed)
    ensures x.Flagged(observed) ==> x.ExactLossReached(x.Worse(observed), 1)
  {
    if x.isLong {
      LongIsFlaggedWhenDue(x, observed);
    } else {
      ShortIsFlaggedWhenDueIff(x, observed);
    }
    ThresholdRoundsDown(x);
  }

  lemma ThresholdRoundsDown(x: Exposure)
    requires x.collateral > 0
    ensures var t := CollateralThreshold(x.collateral, x.liqThresholdP) as real;
            t <= (x.collateral * x.liqThresholdP) as real / 100.0 < t + 1.0
  {
    var n := x.collateral * x.liqThresholdP;
    assert n >= 0;
    QuoRemainder(n, HUNDRED);
    DivideAtLeast(n, 100, Quo(n, 100));
    DivideAtLeast(n, 100, Quo(n, 100) + 1);
  }

  /** A due short that is never flagged: open at 100, one unit of collateral, fees above threshold plus notional. */
  lemma OverdueShortIsMissed()
    ensures var x := Exposure(false, 100, 10, 1, 19, 0, 90);
            x.LossReached(200) && !x.Flagged(200)
  {
    var x := Exposure(false, 100, 10, 1, 19, 0, 90);
    assert CollateralThreshold(10, 90) == 9;
    ShortIsFlaggedWhenDueIff(x, 200);
    LossReachedInIntegers(x, 200);
  }

  /** The verdict, in terms of the movement against the position. */
  lemma FlaggedIff(x: Exposure, observed: int)
    requires x.Positive() && observed > 0
    ensures x.Flagged(observed)
       <==> && x.Against(observed) >= Distance(x.openPrice, x.collateral, x.leverage, x.Headroom())
            && (x.isLong || x.FeesBelowNotional())
  {
    ShortPriceIsPositiveIff(x);
  }

  /** Higher fees leave less room. */
  lemma DistanceShrinks(x: Exposure, y: Exposure)
    requires x.Positive()
    requires y == x.(rolloverFee := y.rolloverFee, fundingFee := y.fundingFee)
    requires y.Headroom() <= x.Headroom()
    ensures Distance(y.openPrice, y.collateral, y.leverage, y.Headroom())
         <= Distance(x.openPrice, x.collateral, x.leverage, x.Headroom())
  {
    DistanceIsMonotone(x.openPrice, x.collateral, x.leverage, y.Headroom(), x.Headroom());
  }

  lemma DistanceIsMonotone(openPrice: int, collateral: int, leverage: uint32, low: int, high: int)
    requires openPrice > 0 && collateral > 0 && leverage > 0 && low <= high
    ensures Distance(openPrice, collateral, leverage, low) <= Distance(openPrice, collateral, leverage, high)
  {
    ScaleMonotone(openPrice, low, high);
    QuoMonotone(openPrice * low, openPrice * high, collateral);
    QuoMonotone(Quo(openPrice * low, collateral), Quo(openPrice * high, collateral), leverage);
  }

  lemma ScaleMonotone(p: int, low: int, high: int)
    requires p > 0 && low <= high
    ensures p * low <= p * high
  {
  }

  /**
   Once flagged, always flagged: at any price at least as adverse and under fees at least
   as high, up to the point where a short's own price is floored.
   */
  lemma FlaggedIsMonotone(x: Exposure, observed: int, y: Exposure, observed': int)
    requires x.Positive() && observed > 0 && observed' > 0
    requires y == x.(rolloverFee := y.rolloverFee, fundingFee := y.fundingFee)
    requires y.rolloverFee >= x.rolloverFee && y.fundingFee >= x.fundingFee
    requires y.Against(observed') >= x.Against(observed)
    requires x.Flagged(observed)
    ensures y.Flagged(observed') <==> y.isLong || y.FeesBelowNotional()
  {
    FlaggedIff(x, observed);
    FlaggedIff(y, observed');
    DistanceShrinks(x, y);
  }
}
