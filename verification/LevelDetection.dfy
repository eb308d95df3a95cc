/** Which prices make a trade's stop or take-profit fire, a limit order fill, and a stored liquidation price bite. */
module LevelDetection {
  import opened Wrappers
  import opened Events
  import opened FeeMath
  import opened KeeperState
  import opened Detector

  predicate LiquidatesAt(t: TradeView, fee: Option<PairFees>, price: int) {
    TradeAction(t, fee, price) == Some(PendingAction(Liquidate, t.key, t.isLong, 0))
  }

  predicate FiresAt(t: TradeView, fee: Option<PairFees>, price: int) {
    TradeAction(t, fee, price) == Some(PendingAction(TpSl, t.key, t.isLong, 0))
  }

  predicate Unset(level: Option<int>) {
    level.None? || level.value <= 0
  }

  predicate SetTo(level: Option<int>, value: int) {
    level == Some(value) && value > 0
  }

  /** A trade calls for liquidation, for its levels, or for nothing; liquidation comes first. */
  lemma OneActionAtMost(t: TradeView, fee: Option<PairFees>, price: int)
    ensures TradeAction(t, fee, price).None? <==> !LiquidatesAt(t, fee, price) && !FiresAt(t, fee, price)
    ensures !(LiquidatesAt(t, fee, price) && FiresAt(t, fee, price))
  {
  }

  /** With both levels set, a trade that is not liquidated fires exactly outside the open interval between them. */
  lemma BothLevels(t: TradeView, fee: Option<PairFees>, price: int, tp: int, sl: int)
    requires !LiquidatesAt(t, fee, price) && SetTo(t.tpPrice, tp) && SetTo(t.slPrice, sl)
    ensures FiresAt(t, fee, price) <==> !(if t.isLong then sl < price < tp else tp < price < sl)
  {
  }

  /** With a take-profit alone, a long fires from it upwards and a short from it downwards. */
  lemma TakeProfitAlone(t: TradeView, fee: Option<PairFees>, price: int, tp: int)
    requires !LiquidatesAt(t, fee, price) && SetTo(t.tpPrice, tp) && Unset(t.slPrice)
    ensures FiresAt(t, fee, price) <==> if t.isLong then price >= tp else price <= tp
  {
  }

  /** With a stop alone, a long fires from it downwards and a short from it upwards. */
  lemma StopAlone(t: TradeView, fee: Option<PairFees>, price: int, sl: int)
    requires !LiquidatesAt(t, fee, price) && Unset(t.tpPrice) && SetTo(t.slPrice, sl)
    ensures FiresAt(t, fee, price) <==> if t.isLong then price <= sl else price >= sl
  {
  }

  lemma NoLevels(t: TradeView, fee: Option<PairFees>, price: int)
    requires Unset(t.tpPrice) && Unset(t.slPrice)
    ensures !FiresAt(t, fee, price)
  {
  }

  /** What makes a level fire keeps it firing as the price moves on, unless liquidation comes first. */
  lemma FiringPersists(t: TradeView, fee: Option<PairFees>, price: int, higher: int, lower: int)
    requires FiresAt(t, fee, price) && lower <= price <= higher
    ensures !LiquidatesAt(t, fee, higher) && !LiquidatesAt(t, fee, lower) ==> FiresAt(t, fee, higher) || FiresAt(t, fee, lower)
    ensures var tp, sl := OrZero(t.tpPrice), OrZero(t.slPrice);
            && (tp > 0 && (if t.isLong then price >= tp else price <= tp) ==>
                  var beyond := if t.isLong then higher else lower; LiquidatesAt(t, fee, beyond) || FiresAt(t, fee, beyond))
            && (sl > 0 && (if t.isLong then price <= sl else price >= sl) ==>
                  var beyond := if t.isLong then lower else higher; LiquidatesAt(t, fee, beyond) || FiresAt(t, fee, beyond))
  {
  }

  predicate CannotBePriced(t: TradeView) {
    t.openPrice.None? || OrZero(t.collateral) == 0 || t.leverage == 0
  }

  /** Without fees, or where no live price can be computed, the price stored at the open decides. */
  lemma StoredPriceDecides(t: TradeView, fee: Option<PairFees>, price: int)
    requires fee.None? || CannotBePriced(t)
    ensures LiquidatesAt(t, fee, price)
       <==> OrZero(t.liqPrice) != 0 && if t.isLong then price <= t.liqPrice.value else price >= t.liqPrice.value
  {
  }

  /** Where a live price can be computed the stored one does not matter. */
  lemma LivePriceDecides(t: TradeView, fee: PairFees, price: int, stored: Option<int>)
    requires !CannotBePriced(t)
    ensures LiquidatesAt(t, Some(fee), price) <==> LiquidatesAt(t.(liqPrice := stored), Some(fee), price)
  {
  }

  /** A long's limit order fills at every price up to its limit and at none above; a short's the other way round. */
  lemma OrderFillsIff(l: LimitView, price: int, limit: int)
    requires SetTo(l.limitPrice, limit)
    ensures LimitAction(l, price).Some? <==> if l.isLong then price <= limit else price >= limit
    ensures LimitAction(l, price).Some? ==>
              LimitAction(l, price) == Some(PendingAction(Limit, Slot(l.key.trader, l.key.pair, 0), l.isLong, l.key.index))
  {
  }

  lemma OrderWithoutLimit(l: LimitView, price: int)
    requires Unset(l.limitPrice)
    ensures LimitAction(l, price).None?
  {
  }

  // ----- What the whole scan calls for -----

  /** The levels of a held trade fire in a scan exactly when they fire on their own. */
  lemma ScanFiresIff(trades: map<Slot, TradeView>, fee: Option<PairFees>, slot: Slot, price: int)
    requires (forall k <- trades :: trades[k].key == k) && slot in trades
    ensures CalledForByTrade(trades, fee, slot.pair, price, PendingAction(TpSl, slot, trades[slot].isLong, 0))
       <==> FiresAt(trades[slot], fee, price)
  {
    if CalledForByTrade(trades, fee, slot.pair, price, PendingAction(TpSl, slot, trades[slot].isLong, 0)) {
      var k :| k in trades && k.pair == slot.pair &&
               TradeAction(trades[k], fee, price) == Some(PendingAction(TpSl, slot, trades[slot].isLong, 0));
      TradeActionNamesItsTrade(trades[k], fee, price);
    }
  }

  /** A held order is called for in a scan exactly when its limit is reached. */
  lemma ScanFillsIff(limits: map<Slot, LimitView>, slot: Slot, price: int, limit: int)
    requires (forall k <- limits :: limits[k].key == k) && slot in limits && SetTo(limits[slot].limitPrice, limit)
    ensures CalledForByLimit(limits, slot.pair, price, PendingAction(Limit, Slot(slot.trader, slot.pair, 0), limits[slot].isLong, slot.index))
       <==> if limits[slot].isLong then price <= limit else price >= limit
  {
    OrderFillsIff(limits[slot], price, limit);
  }
}
