/**
 When the detector calls for a liquidation, measured against what the trade has really lost: the
 leveraged loss at the observed price and the fees run up since the open, over the reals.
 */
module ExactDetection {
  import opened Wrappers
  import opened TruncatedDivision
  import opened FeeMath
  import opened Liquidation
  import opened KeeperState
  import opened Detector
  import opened DetectionMonotonicity

  /** Accumulators count collateral units times 10^7. */
  function ExactRollover(t: TradeView, fee: PairFees): real
    requires Complete(t)
  {
    ((OrZero(fee.accRollover) - OrZero(t.accRolloverOpen)) * t.collateral.value) as real / 10000000.0
  }

  /** Funding is charged on the notional, by the accumulator of the trade's own side. */
  function ExactFunding(t: TradeView, fee: PairFees): real
    requires Complete(t)
  {
    var accNow := if t.isLong then OrZero(fee.accFundingLong) else OrZero(fee.accFundingShort);
    ((accNow - OrZero(t.accFundingOpen)) * t.collateral.value * t.leverage) as real / 10000000.0
  }

  function ExactLoss(t: TradeView, price: int): real
    requires Complete(t)
  {
    var against := if t.isLong then t.openPrice.value - price else price - t.openPrice.value;
    (t.collateral.value * t.leverage * against) as real / t.openPrice.value as real
  }

  /** Loss and fees together. */
  function Gone(t: TradeView, fee: PairFees, price: int): real
    requires Complete(t)
  {
    ExactLoss(t, price) + ExactRollover(t, fee) + ExactFunding(t, fee)
  }

  /** The share of the collateral that may be gone; without a threshold of its own, 90 percent. */
  function Allowed(t: TradeView): real
    requires Complete(t)
  {
    (t.collateral.value * if t.liqThresholdP == 0 then 90 else t.liqThresholdP) as real / 100.0
  }

  lemma DividedByScale(x: int, q: int)
    requires -10_000_000 < x - 10_000_000 * q < 10_000_000
    ensures -1.0 < x as real / 10000000.0 - q as real < 1.0
  {
  }

  lemma RolloverIsNearlyExact(t: TradeView, fee: PairFees)
    requires Complete(t)
    ensures -1.0 < ExactRollover(t, fee) - ExposureOf(t, fee).rolloverFee as real < 1.0
  {
    var x := RolloverDelta(t, fee) * t.collateral.value;
    QuoRemainder(x, 10_000_000);
    DividedByScale(x, Quo(x, 10_000_000));
  }

  lemma FundingIsNearlyExact(t: TradeView, fee: PairFees)
    requires Complete(t)
    ensures -(t.leverage as real) < ExactFunding(t, fee) - ExposureOf(t, fee).fundingFee as real < t.leverage as real
  {
    var x, lev := FundingDelta(t, fee) * t.collateral.value, t.leverage;
    var q := Quo(x, 10_000_000);
    QuoRemainder(x, 10_000_000);
    LeveragedError(x, q, lev);
  }

  lemma LeveragedError(x: int, q: int, lev: nat)
    requires lev > 0 && -10_000_000 < x - 10_000_000 * q < 10_000_000
    ensures -(lev as real) < (x * lev) as real / 10000000.0 - (q * lev) as real < lev as real
  {
    var r := x - 10_000_000 * q;
    assert x * lev == 10_000_000 * (q * lev) + r * lev;
    ScaledRemainder(r, lev);
  }

  lemma ScaledRemainder(r: int, lev: nat)
    requires lev > 0 && -10_000_000 < r < 10_000_000
    ensures -(10_000_000 * lev) < r * lev < 10_000_000 * lev
  {
  }

  /**
   Rounding costs less than one collateral unit and one per unit of leverage: a trade that has lost
   that much more than it may is called for. And what is called for has lost no less than it may,
   up to as much again, one more unit and one step of the price - a short as long as its fees stay
   below threshold plus notional.
   */
  lemma LiquidatedWhenGone(t: TradeView, fee: PairFees, price: int)
    requires Complete(t) && price > 0
    requires t.isLong || ExposureOf(t, fee).FeesBelowNotional()
    ensures Gone(t, fee, price) >= Allowed(t) + 1.0 + t.leverage as real ==> Liquidates(t, fee, price)
    ensures Liquidates(t, fee, price) ==>
              Gone(t, fee, if t.isLong then price - 1 else price + 1) + 2.0 + t.leverage as real > Allowed(t)
  {
    var x := ExposureOf(t, fee);
    RolloverIsNearlyExact(t, fee);
    FundingIsNearlyExact(t, fee);
    LiquidatesIffFlagged(t, fee, price);
    LiquidationIsExact(x, price);
    SameMeasures(t, fee, price, 0);
    SameMeasures(t, fee, x.Worse(price), 1);
  }

  lemma SameMeasures(t: TradeView, fee: PairFees, price: int, slack: int)
    requires Complete(t)
    ensures ExposureOf(t, fee).ExactLossReached(price, slack)
       <==> ExactLoss(t, price) + ExposureOf(t, fee).rolloverFee as real + ExposureOf(t, fee).fundingFee as real + slack as real >= Allowed(t)
  {
  }

  /** Without fees the leverage plays no part: a trade that has lost what it may is called for, and none that is a price step and a unit short of it. */
  lemma LiquidatedWithoutFees(t: TradeView, fee: PairFees, price: int)
    requires Complete(t) && price > 0
    requires ExactRollover(t, fee) == 0.0 && ExactFunding(t, fee) == 0.0
    ensures ExactLoss(t, price) >= Allowed(t) ==> Liquidates(t, fee, price)
    ensures Liquidates(t, fee, price) ==> ExactLoss(t, if t.isLong then price - 1 else price + 1) + 1.0 >= Allowed(t)
  {
    var x := ExposureOf(t, fee);
    NoFees(t, fee);
    LiquidatesIffFlagged(t, fee, price);
    LiquidationIsExact(x, price);
    SameMeasures(t, fee, price, 0);
    SameMeasures(t, fee, x.Worse(price), 1);
  }

  lemma NoFees(t: TradeView, fee: PairFees)
    requires Complete(t) && ExactRollover(t, fee) == 0.0 && ExactFunding(t, fee) == 0.0
    ensures ExposureOf(t, fee).rolloverFee == 0 && ExposureOf(t, fee).fundingFee == 0
    ensures ExposureOf(t, fee).FeesBelowNotional()
  {
    var x, y := RolloverDelta(t, fee) * t.collateral.value, FundingDelta(t, fee) * t.collateral.value;
    assert x == 0 && y * t.leverage == 0;
    assert y == 0;
    assert t.collateral.value * t.leverage > 0;
    ThresholdRoundsDown(ExposureOf(t, fee));
  }
}
