/** A trade flagged for liquidation stays flagged as prices and fees move further against it. */
module DetectionMonotonicity {
  import opened Wrappers
  import opened TruncatedDivision
  import opened Events
  import opened FeeMath
  import opened Liquidation
  import opened KeeperState
  import opened Detector

  predicate Complete(t: TradeView) {
    t.openPrice.Some? && t.collateral.Some? && t.openPrice.value > 0 && t.collateral.value > 0 && t.leverage > 0
  }

  function RolloverDelta(t: TradeView, fee: PairFees): int {
    OrZero(fee.accRollover) - OrZero(t.accRolloverOpen)
  }

  function FundingDelta(t: TradeView, fee: PairFees): int {
    OrZero(if t.isLong then fee.accFundingLong else fee.accFundingShort) - OrZero(t.accFundingOpen)
  }

  /** The trade with the fees it has run up under the given accumulators. */
  function ExposureOf(t: TradeView, fee: PairFees): Exposure
    requires Complete(t)
  {
    Exposure(t.isLong, t.openPrice.value, t.collateral.value, t.leverage,
             Quo(RolloverDelta(t, fee) * t.collateral.value, USDC_SCALE),
             Quo(FundingDelta(t, fee) * t.collateral.value, USDC_SCALE) * t.leverage,
             if t.liqThresholdP == 0 then 90 else t.liqThresholdP)
  }

  lemma LivePriceIsExposurePrice(t: TradeView, fee: PairFees)
    requires Complete(t)
    ensures CurrentLiquidationPrice(t, fee) == ExposureOf(t, fee).Price()
    ensures EffectiveLiqPrice(t, Some(fee)) == Some(ExposureOf(t, fee).Price().value)
  {
    assert 0 * t.collateral.value == 0;
  }

  predicate Liquidates(t: TradeView, fee: PairFees, price: int) {
    TradeAction(t, Some(fee), price) == Some(PendingAction(Liquidate, t.key, t.isLong, 0))
  }

  lemma LiquidatesIffFlagged(t: TradeView, fee: PairFees, price: int)
    requires Complete(t)
    ensures Liquidates(t, fee, price) <==> ExposureOf(t, fee).Flagged(price)
  {
    LivePriceIsExposurePrice(t, fee);
  }

  /** Accumulators at least as high for the trade's side. */
  predicate AtLeast(t: TradeView, fee: PairFees, fee': PairFees) {
    RolloverDelta(t, fee) <= RolloverDelta(t, fee') && FundingDelta(t, fee) <= FundingDelta(t, fee')
  }

  lemma FeeGrows(delta: int, delta': int, collateral: int, leverage: nat)
    requires delta <= delta' && collateral > 0
    ensures Quo(delta * collateral, USDC_SCALE) <= Quo(delta' * collateral, USDC_SCALE)
    ensures Quo(delta * collateral, USDC_SCALE) * leverage <= Quo(delta' * collateral, USDC_SCALE) * leverage
  {
    assert delta * collateral <= delta' * collateral;
    QuoMonotone(delta * collateral, delta' * collateral, USDC_SCALE);
    Scale(Quo(delta * collateral, USDC_SCALE), Quo(delta' * collateral, USDC_SCALE), leverage);
  }

  lemma Scale(x: int, y: int, factor: nat)
    requires x <= y
    ensures x * factor <= y * factor
  {
  }

  lemma HigherAccumulatorsHigherFees(t: TradeView, fee: PairFees, fee': PairFees)
    requires Complete(t) && AtLeast(t, fee, fee')
    ensures ExposureOf(t, fee).rolloverFee <= ExposureOf(t, fee').rolloverFee
    ensures ExposureOf(t, fee).fundingFee <= ExposureOf(t, fee').fundingFee
  {
    FeeGrows(RolloverDelta(t, fee), RolloverDelta(t, fee'), t.collateral.value, t.leverage);
    FeeGrows(FundingDelta(t, fee), FundingDelta(t, fee'), t.collateral.value, t.leverage);
  }

  /**
   Through fees, liquidation price and detection: once liquidation is called for, it is called
   for at every positive price at least as adverse and under all accumulators at least as high;
   for a short, exactly while its fees stay below threshold plus notional.
   */
  lemma LiquidationStaysCalledFor(t: TradeView, fee: PairFees, price: int, fee': PairFees, price': int)
    requires Complete(t) && price > 0 && price' > 0
    requires AtLeast(t, fee, fee')
    requires if t.isLong then price' <= price else price' >= price
    requires Liquidates(t, fee, price)
    ensures Liquidates(t, fee', price') <==> t.isLong || ExposureOf(t, fee').FeesBelowNotional()
  {
    LiquidatesIffFlagged(t, fee, price);
    LiquidatesIffFlagged(t, fee', price');
    HigherAccumulatorsHigherFees(t, fee, fee');
    FlaggedIsMonotone(ExposureOf(t, fee), price, ExposureOf(t, fee'), price');
  }

  /**
   The same of a whole scan, whose result Detect computes: an entry liquidated once is among the
   actions of every later scan, short of a short's price being floored.
   */
  lemma DetectionIsMonotone(
    trades: map<Slot, TradeView>, slot: Slot, fee: PairFees, price: int, fee': PairFees, price': int
  )
    requires (forall k <- trades :: trades[k].key == k) && slot in trades && Complete(trades[slot])
    requires price > 0 && price' > 0
    requires AtLeast(trades[slot], fee, fee')
    requires if trades[slot].isLong then price' <= price else price' >= price
    requires CalledForByTrade(trades, Some(fee), slot.pair, price, LiquidationOf(trades[slot]))
    ensures CalledForByTrade(trades, Some(fee'), slot.pair, price', LiquidationOf(trades[slot]))
       <==> trades[slot].isLong || ExposureOf(trades[slot], fee').FeesBelowNotional()
  {
    OnlyTheTradeItself(trades, slot, fee, price);
    OnlyTheTradeItself(trades, slot, fee', price');
    LiquidationStaysCalledFor(trades[slot], fee, price, fee', price');
  }

  function LiquidationOf(t: TradeView): PendingAction {
    PendingAction(Liquidate, t.key, t.isLong, 0)
  }

  /** A scan calls for a trade's liquidation on that trade's account alone. */
  lemma OnlyTheTradeItself(trades: map<Slot, TradeView>, slot: Slot, fee: PairFees, price: int)
    requires (forall k <- trades :: trades[k].key == k) && slot in trades
    ensures CalledForByTrade(trades, Some(fee), slot.pair, price, LiquidationOf(trades[slot]))
       <==> Liquidates(trades[slot], fee, price)
  {
    if CalledForByTrade(trades, Some(fee), slot.pair, price, LiquidationOf(trades[slot])) {
      var k :| k in trades && k.pair == slot.pair && TradeAction(trades[k], Some(fee), price) == Some(LiquidationOf(trades[slot]));
      TradeActionNamesItsTrade(trades[k], Some(fee), price);
    }
  }
}
