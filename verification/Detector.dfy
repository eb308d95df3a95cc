/** Which trades and limit orders a price tick calls for acting on. */
module Detector {
  import opened Wrappers
  import opened Events
  import opened FeeMath
  import opened KeeperState

  datatype ActionType = Liquidate | TpSl | Limit

  /** For a limit action the key's index is unused and zero; limitIndex is used instead. */
  datatype PendingAction = PendingAction(kind: ActionType, key: Slot, isLong: bool, limitIndex: int)

  function CurrentLiquidationPrice(t: TradeView, fee: PairFees): Result<int, MathError> {
    var fundingNow := if t.isLong then fee.accFundingLong else fee.accFundingShort;
    match RolloverFeeForTrade(t.accRolloverOpen, fee.accRollover, t.collateral)
    case Err(e) => Err(e)
    case Ok(rolloverFee) =>
      match FundingFeeForTrade(t.accFundingOpen, fundingNow, t.collateral, t.leverage)
      case Err(e) => Err(e)
      case Ok(fundingFee) =>
        LiquidationPrice(t.openPrice, t.isLong, t.collateral, t.leverage, Some(rolloverFee), Some(fundingFee),
                         if t.liqThresholdP == 0 then 90 else t.liqThresholdP)
  }

  /** The live price where fees are known and it can be computed, else the price stored at the open. */
  function EffectiveLiqPrice(t: TradeView, fee: Option<PairFees>): Option<int> {
    if fee.Some? && CurrentLiquidationPrice(t, fee.value).Ok? then Some(CurrentLiquidationPrice(t, fee.value).value)
    else t.liqPrice
  }

  predicate Reaches(price: int, level: Option<int>, above: bool) {
    level.Some? && level.value > 0 && if above then price >= level.value else price <= level.value
  }

  /** A long fills at or below its limit, a short at or above. */
  predicate CheckLimit(price: int, limit: Option<int>, isLong: bool) {
    Reaches(price, limit, !isLong)
  }

  predicate CheckTpSl(price: int, tp: Option<int>, sl: Option<int>, isLong: bool) {
    Reaches(price, tp, isLong) || Reaches(price, sl, !isLong)
  }

  /** Liquidation takes precedence over tp/sl. */
  function TradeAction(t: TradeView, fee: Option<PairFees>, price: int): Option<PendingAction> {
    if IsLiquidatable(Some(price), EffectiveLiqPrice(t, fee), t.isLong) then
      Some(PendingAction(Liquidate, t.key, t.isLong, 0))
    else if CheckTpSl(price, t.tpPrice, t.slPrice, t.isLong) then
      Some(PendingAction(TpSl, t.key, t.isLong, 0))
    else None
  }

  function LimitAction(l: LimitView, price: int): Option<PendingAction> {
    if CheckLimit(price, l.limitPrice, l.isLong) then
      Some(PendingAction(Limit, Slot(l.key.trader, l.key.pair, 0), l.isLong, l.key.index))
    else None
  }

  function FeesOf(fees: map<int, PairFees>, pair: int): Option<PairFees> {
    if pair in fees then Some(fees[pair]) else None
  }

  ghost predicate CalledForByTrade(trades: map<Slot, TradeView>, fee: Option<PairFees>, pair: int, price: int, a: PendingAction) {
    exists k <- trades :: k.pair == pair && TradeAction(trades[k], fee, price) == Some(a)
  }

  ghost predicate CalledForByLimit(limits: map<Slot, LimitView>, pair: int, price: int, a: PendingAction) {
    exists k <- limits :: k.pair == pair && LimitAction(limits[k], price) == Some(a)
  }

  predicate NoDuplicates(actions: seq<PendingAction>) {
    forall i, j | 0 <= i < j < |actions| :: actions[i] != actions[j]
  }

  function Optional(a: Option<PendingAction>): seq<PendingAction> {
    if a.Some? then [a.value] else []
  }

  function ActionsForTrades(trades: seq<TradeView>, fee: Option<PairFees>, price: int): seq<PendingAction> {
    if trades == [] then []
    else ActionsForTrades(trades[..|trades| - 1], fee, price) + Optional(TradeAction(trades[|trades| - 1], fee, price))
  }

  function ActionsForLimits(limits: seq<LimitView>, price: int): seq<PendingAction> {
    if limits == [] then []
    else ActionsForLimits(limits[..|limits| - 1], price) + Optional(LimitAction(limits[|limits| - 1], price))
  }

  lemma {:induction false} TradeActionsComeFromTrades(trades: seq<TradeView>, fee: Option<PairFees>, price: int)
    ensures forall a :: a in ActionsForTrades(trades, fee, price) <==> exists t <- trades :: TradeAction(t, fee, price) == Some(a)
  {
    if trades != [] {
      var front, last := trades[..|trades| - 1], trades[|trades| - 1];
      TradeActionsComeFromTrades(front, fee, price);
      assert trades == front + [last];
    }
  }

  lemma TradeActionNamesItsTrade(t: TradeView, fee: Option<PairFees>, price: int)
    ensures var a := TradeAction(t, fee, price); a.Some? ==> a.value.key == t.key && !a.value.kind.Limit?
  {
  }

  /** The actions of distinct trades are distinct. */
  lemma {:induction false} TradeActionsAreDistinct(trades: seq<TradeView>, fee: Option<PairFees>, price: int)
    requires forall i, j | 0 <= i < j < |trades| :: trades[i].key != trades[j].key
    ensures NoDuplicates(ActionsForTrades(trades, fee, price))
  {
    if trades != [] {
      var front, last := trades[..|trades| - 1], trades[|trades| - 1];
      TradeActionsAreDistinct(front, fee, price);
      TradeActionsComeFromTrades(front, fee, price);
      TradeActionNamesItsTrade(last, fee, price);
      forall a | a in ActionsForTrades(front, fee, price)
        ensures a.key != last.key
      {
        var t :| t in front && TradeAction(t, fee, price) == Some(a);
        TradeActionNamesItsTrade(t, fee, price);
      }
    }
  }

  lemma {:induction false} LimitActionsComeFromLimits(limits: seq<LimitView>, price: int)
    ensures forall a :: a in ActionsForLimits(limits, price) <==> exists l <- limits :: LimitAction(l, price) == Some(a)
  {
    if limits != [] {
      var front, last := limits[..|limits| - 1], limits[|limits| - 1];
      LimitActionsComeFromLimits(front, price);
      assert limits == front + [last];
    }
  }

  /** The actions of distinct limit orders are distinct. */
  lemma {:induction false} LimitActionsAreDistinct(limits: seq<LimitView>, price: int)
    requires forall i, j | 0 <= i < j < |limits| :: limits[i].key != limits[j].key
    ensures NoDuplicates(ActionsForLimits(limits, price))
  {
    if limits != [] {
      var front, last := limits[..|limits| - 1], limits[|limits| - 1];
      LimitActionsAreDistinct(front, price);
      LimitActionsComeFromLimits(front, price);
      forall a | a in ActionsForLimits(front, price)
        ensures Slot(a.key.trader, a.key.pair, a.limitIndex) != last.key
      {
        var l :| l in front && LimitAction(l, price) == Some(a);
      }
    }
  }

  method DetectTrade(t: TradeView, price: int, state: TradeState) returns (action: Option<PendingAction>)
    ensures action == TradeAction(t, FeesOf(state.fees, t.key.pair), price)
  {
    var liqPrice := t.liqPrice;
    var fee := state.FeeState(t.key.pair);
    if fee.Some? {
      var current := CurrentLiquidationPrice(t, fee.value);
      if current.Ok? {
        liqPrice := Some(current.value);
      }
    }
    if IsLiquidatable(Some(price), liqPrice, t.isLong) {
      return Some(PendingAction(Liquidate, t.key, t.isLong, 0));
    }
    if CheckTpSl(price, t.tpPrice, t.slPrice, t.isLong) {
      return Some(PendingAction(TpSl, t.key, t.isLong, 0));
    }
    return None;
  }

  /** Scans a pair's trades; the result is exactly what they call for, each action once. */
  method DetectTrades(pair: int, price: int, state: TradeState) returns (actions: seq<PendingAction>)
    requires state.Valid()
    ensures forall a :: a in actions <==> CalledForByTrade(state.Trades(), FeesOf(state.fees, pair), pair, price, a)
    ensures NoDuplicates(actions)
  {
    var trades := state.GetTradesForPair(pair);
    ghost var fees := FeesOf(state.fees, pair);
    actions := [];
    for i := 0 to |trades|
      invariant actions == ActionsForTrades(trades[..i], fees, price)
    {
      assert trades[..i + 1][..i] == trades[..i];
      var action := DetectTrade(trades[i], price, state);
      actions := actions + Optional(action);
    }
    assert trades[..|trades|] == trades;
    TradeActionsAreDistinct(trades, fees, price);
    TradeActionsComeFromTrades(trades, fees, price);
    TradesCovered(state.Trades(), trades, fees, pair, price);
  }

  lemma TradesCovered(trades: map<Slot, TradeView>, copies: seq<TradeView>, fee: Option<PairFees>, pair: int, price: int)
    requires forall t <- copies :: t.key.pair == pair && t.key in trades && trades[t.key] == t
    requires forall k <- trades | k.pair == pair :: trades[k] in copies
    ensures forall a :: CalledForByTrade(trades, fee, pair, price, a) <==> exists t <- copies :: TradeAction(t, fee, price) == Some(a)
  {
  }

  /** Scans a pair's limit orders. */
  method DetectLimits(pair: int, price: int, state: TradeState) returns (actions: seq<PendingAction>)
    requires state.Valid()
    ensures forall a :: a in actions <==> CalledForByLimit(state.Limits(), pair, price, a)
    ensures NoDuplicates(actions)
  {
    var limits := state.GetLimitsForPair(pair);
    actions := [];
    for i := 0 to |limits|
      invariant actions == ActionsForLimits(limits[..i], price)
    {
      assert limits[..i + 1][..i] == limits[..i];
      var l := limits[i];
      if CheckLimit(price, l.limitPrice, l.isLong) {
        actions := actions + [PendingAction(Limit, Slot(l.key.trader, l.key.pair, 0), l.isLong, l.key.index)];
      }
    }
    assert limits[..|limits|] == limits;
    LimitActionsAreDistinct(limits, price);
    LimitActionsComeFromLimits(limits, price);
    LimitsCovered(state.Limits(), limits, pair, price);
  }

  lemma LimitsCovered(limits: map<Slot, LimitView>, copies: seq<LimitView>, pair: int, price: int)
    requires forall l <- copies :: l.key.pair == pair && l.key in limits && limits[l.key] == l
    requires forall k <- limits | k.pair == pair :: limits[k] in copies
    ensures forall a :: CalledForByLimit(limits, pair, price, a) <==> exists l <- copies :: LimitAction(l, price) == Some(a)
  {
  }

  /** The whole scan: exactly what the pair's trades and limit orders call for, each action once. */
  method Detect(pair: int, price: int, state: TradeState) returns (actions: seq<PendingAction>)
    requires state.Valid()
    ensures forall a :: a in actions <==>
              || CalledForByTrade(state.Trades(), FeesOf(state.fees, pair), pair, price, a)
              || CalledForByLimit(state.Limits(), pair, price, a)
    ensures NoDuplicates(actions)
  {
    var forTrades := DetectTrades(pair, price, state);
    var forLimits := DetectLimits(pair, price, state);
    actions := forTrades + forLimits;
    assert forall a <- forTrades :: !a.kind.Limit?;
    assert forall a <- forLimits :: a.kind.Limit?;
  }
}
