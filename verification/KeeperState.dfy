/** The keeper's in-memory copy of the open trades and limit orders. */
module KeeperState {
  import opened Wrappers
  import opened Events
  import FeeMath

  /** A trade as the keeper sees it; missing numbers stay missing. */
  datatype TradeView = TradeView(
    key: Slot, isLong: bool, leverage: uint32, collateral: Option<int>, openPrice: Option<int>,
    accRolloverOpen: Option<int>, accFundingOpen: Option<int>,
    liqThresholdP: uint32, liqPrice: Option<int>, tpPrice: Option<int>, slPrice: Option<int>)

  datatype LimitView = LimitView(key: Slot, isLong: bool, limitPrice: Option<int>)

  datatype PairFees = PairFees(accRollover: Option<int>, accFundingLong: Option<int>, accFundingShort: Option<int>)

  // ----- What an event does to the two maps -----

  function OpenedView(e: Event): TradeView
    requires e.trade.Some? && e.tradeIndex.Some?
  {
    var t := e.trade.value;
    var liqPrice :=
      match FeeMath.LiquidationPrice(t.openPrice, t.isLong, t.collateral, t.leverage, None, None, 90)
      case Ok(liq) => Some(liq)
      case Err(_) => None;
    TradeView(OpenedSlot(e), t.isLong, t.leverage, t.collateral, t.openPrice, t.accRolloverOpen, t.accFundingOpen,
              90, liqPrice, t.tpPrice, t.slPrice)
  }

  /** A new price replaces the old one only if the event carries it. */
  function OrElse(new_: Option<int>, old_: Option<int>): Option<int> {
    if new_.Some? then new_ else old_
  }

  function TradesAfter(trades: map<Slot, TradeView>, e: Event): map<Slot, TradeView> {
    if e.topic.Opened? then
      if e.trade.None? || e.tradeIndex.None? then trades else trades[OpenedSlot(e) := OpenedView(e)]
    else if e.tradeIndex.None? then trades
    else if EndsTrade(e) then trades - {TradeSlot(e)}
    else if e.topic.UpdatedTpSl? && TradeSlot(e) in trades then
      var t := trades[TradeSlot(e)];
      trades[TradeSlot(e) := t.(tpPrice := OrElse(e.tpPrice, t.tpPrice), slPrice := OrElse(e.slPrice, t.slPrice))]
    else trades
  }

  function LimitsAfter(limits: map<Slot, LimitView>, e: Event): map<Slot, LimitView> {
    if e.topic.Placed? then
      if e.limit.None? || e.limitIndex.None? then limits
      else limits[PlacedSlot(e) := LimitView(PlacedSlot(e), e.limit.value.isLong, e.limit.value.limitPrice)]
    else if e.limitIndex.None? then limits
    else if EndsLimit(e) then limits - {LimitSlot(e)}
    else if e.topic.UpdatedLimit? && LimitSlot(e) in limits then
      var l := limits[LimitSlot(e)];
      limits[LimitSlot(e) := l.(limitPrice := OrElse(e.limitPrice, l.limitPrice))]
    else limits
  }

  // ----- The objects -----

  class TradeEntry {
    const key: Slot
    const isLong: bool
    const leverage: uint32
    const collateral: Option<int>
    const openPrice: Option<int>
    const accRolloverOpen: Option<int>
    const accFundingOpen: Option<int>
    const liqThresholdP: uint32
    const liqPrice: Option<int>
    var tpPrice: Option<int>
    var slPrice: Option<int>

    constructor (v: TradeView)
      ensures View() == v
    {
      key, isLong, leverage, collateral, openPrice := v.key, v.isLong, v.leverage, v.collateral, v.openPrice;
      accRolloverOpen, accFundingOpen := v.accRolloverOpen, v.accFundingOpen;
      liqThresholdP, liqPrice, tpPrice, slPrice := v.liqThresholdP, v.liqPrice, v.tpPrice, v.slPrice;
    }

    function View(): TradeView
      reads this
    {
      TradeView(key, isLong, leverage, collateral, openPrice, accRolloverOpen, accFundingOpen,
                liqThresholdP, liqPrice, tpPrice, slPrice)
    }
  }

  class LimitEntry {
    const key: Slot
    const isLong: bool
    var limitPrice: Option<int>

    constructor (v: LimitView)
      ensures View() == v
    {
      key, isLong, limitPrice := v.key, v.isLong, v.limitPrice;
    }

    function View(): LimitView
      reads this
    {
      LimitView(key, isLong, limitPrice)
    }
  }

  class TradeState {
    var trades: map<Slot, TradeEntry>
    var limits: map<Slot, LimitEntry>
    var fees: map<int, PairFees>

    /** Entries are filed under their own keys, so no entry is filed twice. */
    ghost predicate Valid()
      reads this`trades, this`limits
    {
      && (forall k <- trades :: trades[k].key == k)
      && (forall k <- limits :: limits[k].key == k)
    }

    ghost function Trades(): map<Slot, TradeView>
      reads this`trades, trades.Values
    {
      map k | k in trades :: trades[k].View()
    }

    ghost function Limits(): map<Slot, LimitView>
      reads this`limits, limits.Values
    {
      map k | k in limits :: limits[k].View()
    }

    constructor ()
      ensures Valid() && Trades() == map[] && Limits() == map[] && fees == map[]
    {
      trades, limits, fees := map[], map[], map[];
    }

    /** Every topic touches the trades or the limit orders, never both. */
    method Apply(e: Event)
      requires Valid()
      modifies this`trades, this`limits, trades.Values, limits.Values
      ensures Valid()
      ensures Trades() == TradesAfter(old(Trades()), e)
      ensures Limits() == LimitsAfter(old(Limits()), e)
    {
      ApplyToTrades(e);
      ApplyToLimits(e);
    }

    method ApplyToTrades(e: Event)
      requires Valid()
      modifies this`trades, trades.Values
      ensures Valid() && Trades() == TradesAfter(old(Trades()), e) && Limits() == old(Limits())
    {
      match e.topic
      case Opened => AddTrade(e);
      case Closed => ForgetTrade(e);
      case Liq => ForgetTrade(e);
      case TpSlExecuted => ForgetTrade(e);
      case UpdatedTpSl => UpdateStops(e);
      case _ =>
    }

    method ApplyToLimits(e: Event)
      requires Valid()
      modifies this`limits, limits.Values
      ensures Valid() && Limits() == LimitsAfter(old(Limits()), e) && Trades() == old(Trades())
    {
      match e.topic
      case Placed => AddLimit(e);
      case Executed => ForgetLimit(e);
      case Canceled => ForgetLimit(e);
      case UpdatedLimit => UpdateLimitPrice(e);
      case _ =>
    }

    method AddTrade(e: Event)
      requires Valid() && e.topic.Opened?
      modifies this`trades
      ensures Valid() && Trades() == TradesAfter(old(Trades()), e) && Limits() == old(Limits())
    {
      if e.trade.None? || e.tradeIndex.None? {
        return;
      }
      var entry := new TradeEntry(OpenedView(e));
      trades := trades[entry.key := entry];
    }

    method UpdateStops(e: Event)
      requires Valid() && e.topic.UpdatedTpSl?
      modifies trades.Values
      ensures Valid() && Trades() == TradesAfter(old(Trades()), e) && Limits() == old(Limits())
    {
      if e.tradeIndex.None? || TradeSlot(e) !in trades {
        return;
      }
      var t := trades[TradeSlot(e)];
      if e.tpPrice.Some? {
        t.tpPrice := e.tpPrice;
      }
      if e.slPrice.Some? {
        t.slPrice := e.slPrice;
      }
    }

    method AddLimit(e: Event)
      requires Valid() && e.topic.Placed?
      modifies this`limits
      ensures Valid() && Limits() == LimitsAfter(old(Limits()), e) && Trades() == old(Trades())
    {
      if e.limit.None? || e.limitIndex.None? {
        return;
      }
      var entry := new LimitEntry(LimitView(PlacedSlot(e), e.limit.value.isLong, e.limit.value.limitPrice));
      limits := limits[entry.key := entry];
    }

    method UpdateLimitPrice(e: Event)
      requires Valid() && e.topic.UpdatedLimit?
      modifies limits.Values
      ensures Valid() && Limits() == LimitsAfter(old(Limits()), e) && Trades() == old(Trades())
    {
      if e.limitIndex.None? || LimitSlot(e) !in limits {
        return;
      }
      if e.limitPrice.Some? {
        limits[LimitSlot(e)].limitPrice := e.limitPrice;
      }
    }

    method ForgetTrade(e: Event)
      requires Valid() && EndsTrade(e)
      modifies this`trades
      ensures Valid() && Trades() == TradesAfter(old(Trades()), e) && Limits() == old(Limits())
    {
      if e.tradeIndex.Some? {
        Remove(TradeSlot(e));
      }
    }

    method ForgetLimit(e: Event)
      requires Valid() && EndsLimit(e)
      modifies this`limits
      ensures Valid() && Limits() == LimitsAfter(old(Limits()), e) && Trades() == old(Trades())
    {
      if e.limitIndex.Some? {
        RemoveLimit(LimitSlot(e));
      }
    }

    method Remove(key: Slot)
      requires Valid()
      modifies this`trades
      ensures Valid()
      ensures Trades() == old(Trades()) - {key}
      ensures trades == old(trades) - {key}
    {
      trades := trades - {key};
    }

    method RemoveLimit(key: Slot)
      requires Valid()
      modifies this`limits
      ensures Valid()
      ensures Limits() == old(Limits()) - {key}
      ensures limits == old(limits) - {key}
    {
      limits := limits - {key};
    }

    method FeeState(pair: int) returns (fee: Option<PairFees>)
      ensures fee == if pair in fees then Some(fees[pair]) else None
    {
      fee := if pair in fees then Some(fees[pair]) else None;
    }

    /** Copies of a pair's trades, each once, in no particular order. */
    method GetTradesForPair(pair: int) returns (out: seq<TradeView>)
      requires Valid()
      ensures forall t <- out :: t.key.pair == pair && t.key in Trades() && Trades()[t.key] == t
      ensures forall k <- Trades() | k.pair == pair :: Trades()[k] in out
      ensures forall i, j | 0 <= i < j < |out| :: out[i].key != out[j].key
    {
      out := [];
      var todo := trades.Keys;
      while todo != {}
        invariant todo <= trades.Keys
        invariant forall t <- out :: t.key.pair == pair && t.key in trades.Keys - todo && Trades()[t.key] == t
        invariant forall k <- trades.Keys - todo | k.pair == pair :: Trades()[k] in out
        invariant forall i, j | 0 <= i < j < |out| :: out[i].key != out[j].key
        decreases todo
      {
        var k :| k in todo;
        todo := todo - {k};
        if k.pair == pair {
          out := out + [trades[k].View()];
        }
      }
    }

    /** Copies of a pair's limit orders, each once, in no particular order. */
    method GetLimitsForPair(pair: int) returns (out: seq<LimitView>)
      requires Valid()
      ensures forall l <- out :: l.key.pair == pair && l.key in Limits() && Limits()[l.key] == l
      ensures forall k <- Limits() | k.pair == pair :: Limits()[k] in out
      ensures forall i, j | 0 <= i < j < |out| :: out[i].key != out[j].key
    {
      out := [];
      var todo := limits.Keys;
      while todo != {}
        invariant todo <= limits.Keys
        invariant forall l <- out :: l.key.pair == pair && l.key in limits.Keys - todo && Limits()[l.key] == l
        invariant forall k <- limits.Keys - todo | k.pair == pair :: Limits()[k] in out
        invariant forall i, j | 0 <= i < j < |out| :: out[i].key != out[j].key
        decreases todo
      {
        var k :| k in todo;
        todo := todo - {k};
        if k.pair == pair {
          out := out + [limits[k].View()];
        }
      }
    }
  }
}
