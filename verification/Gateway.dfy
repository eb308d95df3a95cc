/** The WebSocket gateway's cache of open trades and limit orders, kept as decimal strings. */
module Gateway {
  import opened Wrappers
  import opened Events
  import opened Decimals
  import opened TraderLists
  import FeeMath
  import Projection

  datatype CachedTrade = CachedTrade(
    trader: string, pair: int, index: int, isLong: bool, leverage: uint32,
    collateral: string, openPrice: string, accRolloverOpen: string, accFundingOpen: string,
    tpPrice: string, slPrice: string, liqPrice: string,
    currentLiqPrice: string, rolloverFee: string, fundingFee: string, openedAt: int)

  datatype CachedLimit = CachedLimit(
    trader: string, pair: int, index: int, isLong: bool, leverage: uint32,
    collateral: string, limitPrice: string, tpPrice: string, slPrice: string, placedAt: int)

  /** A missing number prints as zero. */
  function BigStr(b: Option<int>): string {
    if b.None? then "0" else Print(b.value)
  }

  function TradeSlotOf(t: CachedTrade): Slot { Slot(t.trader, t.pair, t.index) }

  function LimitSlotOf(l: CachedLimit): Slot { Slot(l.trader, l.pair, l.index) }

  function BuildTrade(e: Event): CachedTrade
    requires e.trade.Some? && e.tradeIndex.Some?
  {
    var t := e.trade.value;
    var liq := BigStr(Projection.OpeningLiqPrice(t));
    CachedTrade(e.trader, t.pairIndex, e.tradeIndex.value, t.isLong, t.leverage,
                BigStr(t.collateral), BigStr(t.openPrice), BigStr(t.accRolloverOpen), BigStr(t.accFundingOpen),
                BigStr(t.tpPrice), BigStr(t.slPrice), liq, liq, "0", "0", e.at)
  }

  function BuildLimit(e: Event): CachedLimit
    requires e.limit.Some? && e.limitIndex.Some?
  {
    var l := e.limit.value;
    CachedLimit(e.trader, l.pairIndex, e.limitIndex.value, l.isLong, l.leverage,
                BigStr(l.collateral), BigStr(l.limitPrice), BigStr(l.tpPrice), BigStr(l.slPrice), e.at)
  }

  // ----- What an event does to the two caches -----

  type Trades = map<string, seq<CachedTrade>>
  type Limits = map<string, seq<CachedLimit>>

  function WithStops(tp: string, sl: string): CachedTrade -> CachedTrade {
    (t: CachedTrade) => t.(tpPrice := tp, slPrice := sl)
  }

  function WithLevels(limitPrice: string, tp: string, sl: string): CachedLimit -> CachedLimit {
    (l: CachedLimit) => l.(limitPrice := limitPrice, tpPrice := tp, slPrice := sl)
  }

  function TradesAfter(trades: Trades, e: Event): Trades {
    if e.source != PM then trades
    else if e.topic.Opened? then
      if e.trade.None? || e.tradeIndex.None? || Find(trades, TradeSlotOf, OpenedSlot(e)).Some? then trades
      else AddTo(trades, e.trader, BuildTrade(e))
    else if EndsTrade(e) && e.tradeIndex.Some? then RemoveFrom(trades, TradeSlotOf, TradeSlot(e))
    else if e.topic.UpdatedTpSl? && e.tradeIndex.Some? && e.tpPrice.Some? && e.slPrice.Some? then
      ReplaceIn(trades, TradeSlotOf, TradeSlot(e), WithStops(BigStr(e.tpPrice), BigStr(e.slPrice)))
    else trades
  }

  function LimitsAfter(limits: Limits, e: Event): Limits {
    if e.source != PM then limits
    else if e.topic.Placed? then
      if e.limit.None? || e.limitIndex.None? || Find(limits, LimitSlotOf, PlacedSlot(e)).Some? then limits
      else AddTo(limits, e.trader, BuildLimit(e))
    else if EndsLimit(e) && e.limitIndex.Some? then RemoveFrom(limits, LimitSlotOf, LimitSlot(e))
    else if e.topic.UpdatedLimit? && e.limitIndex.Some? then
      ReplaceIn(limits, LimitSlotOf, LimitSlot(e), WithLevels(BigStr(e.limitPrice), BigStr(e.tpPrice), BigStr(e.slPrice)))
    else limits
  }

  predicate IsLimitTopic(topic: Topic) {
    topic.Placed? || topic.Executed? || topic.Canceled? || topic.UpdatedLimit?
  }

  /** Whether the trader's subscribers are told. */
  predicate Notifies(trades: Trades, limits: Limits, e: Event) {
    e.source == PM &&
    match e.topic
    case Opened => e.trade.Some? && e.tradeIndex.Some? && Find(trades, TradeSlotOf, OpenedSlot(e)).None?
    case Closed => e.tradeIndex.Some? && Find(trades, TradeSlotOf, TradeSlot(e)).Some?
    case Liq => e.tradeIndex.Some? && Find(trades, TradeSlotOf, TradeSlot(e)).Some?
    case TpSlExecuted => e.tradeIndex.Some? && Find(trades, TradeSlotOf, TradeSlot(e)).Some?
    case UpdatedTpSl =>
      e.tradeIndex.Some? && e.tpPrice.Some? && e.slPrice.Some? && Find(trades, TradeSlotOf, TradeSlot(e)).Some?
    case Placed => e.limit.Some? && e.limitIndex.Some? && Find(limits, LimitSlotOf, PlacedSlot(e)).None?
    case Executed => e.limitIndex.Some? && Find(limits, LimitSlotOf, LimitSlot(e)).Some?
    case Canceled => e.limitIndex.Some? && Find(limits, LimitSlotOf, LimitSlot(e)).Some?
    case UpdatedLimit => e.limitIndex.Some? && Find(limits, LimitSlotOf, LimitSlot(e)).Some?
    case _ => false
  }

  // ----- List searches -----

  method FindTrade(list: seq<CachedTrade>, slot: Slot) returns (i: nat)
    requires forall t <- list :: t.trader == slot.trader
    ensures i == FirstFor(list, TradeSlotOf, slot)
  {
    i := 0;
    while i < |list| && !(list[i].pair == slot.pair && list[i].index == slot.index)
      invariant i <= |list|
      invariant forall j | 0 <= j < i :: TradeSlotOf(list[j]) != slot
    {
      i := i + 1;
    }
    if i < |list| {
      assert list[i] in list;
      FirstForIs(list, TradeSlotOf, slot, i);
    }
  }

  method FindLimit(list: seq<CachedLimit>, slot: Slot) returns (i: nat)
    requires forall l <- list :: l.trader == slot.trader
    ensures i == FirstFor(list, LimitSlotOf, slot)
  {
    i := 0;
    while i < |list| && !(list[i].pair == slot.pair && list[i].index == slot.index)
      invariant i <= |list|
      invariant forall j | 0 <= j < i :: LimitSlotOf(list[j]) != slot
    {
      i := i + 1;
    }
    if i < |list| {
      assert list[i] in list;
      FirstForIs(list, LimitSlotOf, slot, i);
    }
  }

  class TradeCache {
    var trades: Trades
    var limits: Limits

    ghost predicate Valid()
      reads this
    {
      Tidy(trades, TradeSlotOf) && Tidy(limits, LimitSlotOf)
    }

    constructor ()
      ensures Valid() && trades == map[] && limits == map[]
    {
      trades, limits := map[], map[];
    }

    /** Applies an event; reports whether subscribers are to be notified. */
    method ApplyEvent(e: Event) returns (changed: bool)
      requires Valid()
      modifies this
      ensures Valid()
      ensures trades == TradesAfter(old(trades), e) && limits == LimitsAfter(old(limits), e)
      ensures changed <==> Notifies(old(trades), old(limits), e)
    {
      if e.source != PM {
        return false;
      }
      if IsLimitTopic(e.topic) {
        changed := ApplyToLimits(e);
      } else {
        changed := ApplyToTrades(e);
      }
    }

    method ApplyToTrades(e: Event) returns (changed: bool)
      requires Valid() && e.source == PM && !IsLimitTopic(e.topic)
      modifies this`trades
      ensures Valid() && trades == TradesAfter(old(trades), e)
      ensures changed <==> Notifies(old(trades), limits, e)
    {
      match e.topic
      case Opened => changed := AddTrade(e);
      case Closed => changed := EndTrade(e);
      case Liq => changed := EndTrade(e);
      case TpSlExecuted => changed := EndTrade(e);
      case UpdatedTpSl =>
        if e.tradeIndex.None? || e.tpPrice.None? || e.slPrice.None? {
          return false;
        }
        changed := UpdateTradeTpSl(TradeSlot(e), BigStr(e.tpPrice), BigStr(e.slPrice));
      case _ => changed := false;
    }

    method ApplyToLimits(e: Event) returns (changed: bool)
      requires Valid() && e.source == PM && IsLimitTopic(e.topic)
      modifies this`limits
      ensures Valid() && limits == LimitsAfter(old(limits), e)
      ensures changed <==> Notifies(trades, old(limits), e)
    {
      match e.topic
      case Placed => changed := AddLimit(e);
      case Executed => changed := EndLimit(e);
      case Canceled => changed := EndLimit(e);
      case UpdatedLimit =>
        if e.limitIndex.None? {
          return false;
        }
        changed := UpdateLimit(LimitSlot(e), BigStr(e.limitPrice), BigStr(e.tpPrice), BigStr(e.slPrice));
    }

    method AddTrade(e: Event) returns (changed: bool)
      requires Valid() && e.source == PM && e.topic.Opened?
      modifies this`trades
      ensures Valid() && trades == TradesAfter(old(trades), e)
      ensures changed <==> Notifies(old(trades), limits, e)
    {
      if e.trade.None? || e.tradeIndex.None? {
        return false;
      }
      var i := FindTrade(Held(trades, e.trader), OpenedSlot(e));
      var found := i < |Held(trades, e.trader)|;
      if !found {
        AddToFinds(trades, TradeSlotOf, BuildTrade(e), OpenedSlot(e));
        trades := AddTo(trades, e.trader, BuildTrade(e));
      }
      return !found;
    }

    method EndTrade(e: Event) returns (changed: bool)
      requires Valid() && e.source == PM && EndsTrade(e)
      modifies this`trades
      ensures Valid() && trades == TradesAfter(old(trades), e)
      ensures changed <==> Notifies(old(trades), limits, e)
    {
      if e.tradeIndex.None? {
        return false;
      }
      changed := RemoveTrade(TradeSlot(e));
    }

    method RemoveTrade(slot: Slot) returns (removed: bool)
      requires Valid()
      modifies this`trades
      ensures Valid() && trades == RemoveFrom(old(trades), TradeSlotOf, slot)
      ensures removed <==> Find(old(trades), TradeSlotOf, slot).Some?
    {
      RemoveKeepsTidy(trades, TradeSlotOf, slot);
      var list := Held(trades, slot.trader);
      var i := FindTrade(list, slot);
      if i == |list| {
        return false;
      }
      trades := trades[slot.trader := list[..i] + list[i + 1..]];
      return true;
    }

    method UpdateTradeTpSl(slot: Slot, tp: string, sl: string) returns (updated: bool)
      requires Valid()
      modifies this`trades
      ensures Valid() && trades == ReplaceIn(old(trades), TradeSlotOf, slot, WithStops(tp, sl))
      ensures updated <==> Find(old(trades), TradeSlotOf, slot).Some?
    {
      ReplaceInFinds(trades, TradeSlotOf, slot, WithStops(tp, sl), slot);
      var list := Held(trades, slot.trader);
      var i := FindTrade(list, slot);
      if i == |list| {
        return false;
      }
      trades := trades[slot.trader := list[i := list[i].(tpPrice := tp, slPrice := sl)]];
      return true;
    }

    method AddLimit(e: Event) returns (changed: bool)
      requires Valid() && e.source == PM && e.topic.Placed?
      modifies this`limits
      ensures Valid() && limits == LimitsAfter(old(limits), e)
      ensures changed <==> Notifies(trades, old(limits), e)
    {
      if e.limit.None? || e.limitIndex.None? {
        return false;
      }
      var i := FindLimit(Held(limits, e.trader), PlacedSlot(e));
      var found := i < |Held(limits, e.trader)|;
      if !found {
        AddToFinds(limits, LimitSlotOf, BuildLimit(e), PlacedSlot(e));
        limits := AddTo(limits, e.trader, BuildLimit(e));
      }
      return !found;
    }

    method EndLimit(e: Event) returns (changed: bool)
      requires Valid() && e.source == PM && EndsLimit(e)
      modifies this`limits
      ensures Valid() && limits == LimitsAfter(old(limits), e)
      ensures changed <==> Notifies(trades, old(limits), e)
    {
      if e.limitIndex.None? {
        return false;
      }
      changed := RemoveLimit(LimitSlot(e));
    }

    method RemoveLimit(slot: Slot) returns (removed: bool)
      requires Valid()
      modifies this`limits
      ensures Valid() && limits == RemoveFrom(old(limits), LimitSlotOf, slot)
      ensures removed <==> Find(old(limits), LimitSlotOf, slot).Some?
    {
      RemoveKeepsTidy(limits, LimitSlotOf, slot);
      var list := Held(limits, slot.trader);
      var i := FindLimit(list, slot);
      if i == |list| {
        return false;
      }
      limits := limits[slot.trader := list[..i] + list[i + 1..]];
      return true;
    }

    method UpdateLimit(slot: Slot, limitPrice: string, tp: string, sl: string) returns (updated: bool)
      requires Valid()
      modifies this`limits
      ensures Valid() && limits == ReplaceIn(old(limits), LimitSlotOf, slot, WithLevels(limitPrice, tp, sl))
      ensures updated <==> Find(old(limits), LimitSlotOf, slot).Some?
    {
      ReplaceInFinds(limits, LimitSlotOf, slot, WithLevels(limitPrice, tp, sl), slot);
      var list := Held(limits, slot.trader);
      var i := FindLimit(list, slot);
      if i == |list| {
        return false;
      }
      limits := limits[slot.trader := list[i := list[i].(limitPrice := limitPrice, tpPrice := tp, slPrice := sl)]];
      return true;
    }
  }

  /**
   An event applied twice in a row leaves the cache alone the second time; it is announced again
   if and only if it is an update of an entry still held. Announcements says what a whole
   stretch of the log does when it is delivered again.
   */
  lemma RedeliveryNotifiesIff(trades: Trades, limits: Limits, e: Event)
    requires Tidy(trades, TradeSlotOf) && Tidy(limits, LimitSlotOf)
    ensures var trades', limits' := TradesAfter(trades, e), LimitsAfter(limits, e);
            && TradesAfter(trades', e) == trades' && LimitsAfter(limits', e) == limits'
            && (Notifies(trades', limits', e) <==>
                (e.topic.UpdatedTpSl? || e.topic.UpdatedLimit?) && Notifies(trades, limits, e))
  {
    if e.source == PM {
      TradesSettle(trades, e);
      LimitsSettle(limits, e);
    }
  }

  lemma TradesSettle(trades: Trades, e: Event)
    requires Tidy(trades, TradeSlotOf) && e.source == PM
    ensures var trades' := TradesAfter(trades, e);
            && TradesAfter(trades', e) == trades'
            && (e.topic.Opened? && e.trade.Some? && e.tradeIndex.Some? ==> Find(trades', TradeSlotOf, OpenedSlot(e)).Some?)
            && (EndsTrade(e) && e.tradeIndex.Some? ==> Find(trades', TradeSlotOf, TradeSlot(e)).None?)
            && (e.topic.UpdatedTpSl? && e.tradeIndex.Some? ==>
                  (Find(trades', TradeSlotOf, TradeSlot(e)).Some? <==> Find(trades, TradeSlotOf, TradeSlot(e)).Some?))
  {
    if e.topic.Opened? && e.trade.Some? && e.tradeIndex.Some? {
      if Find(trades, TradeSlotOf, OpenedSlot(e)).None? {
        AddToFinds(trades, TradeSlotOf, BuildTrade(e), OpenedSlot(e));
      }
    } else if EndsTrade(e) && e.tradeIndex.Some? {
      RemovingTwice(trades, TradeSlotOf, TradeSlot(e));
    } else if e.topic.UpdatedTpSl? && e.tradeIndex.Some? && e.tpPrice.Some? && e.slPrice.Some? {
      ReplacingTwice(trades, TradeSlotOf, TradeSlot(e), WithStops(BigStr(e.tpPrice), BigStr(e.slPrice)));
    }
  }

  lemma LimitsSettle(limits: Limits, e: Event)
    requires Tidy(limits, LimitSlotOf) && e.source == PM
    ensures var limits' := LimitsAfter(limits, e);
            && LimitsAfter(limits', e) == limits'
            && (e.topic.Placed? && e.limit.Some? && e.limitIndex.Some? ==> Find(limits', LimitSlotOf, PlacedSlot(e)).Some?)
            && (EndsLimit(e) && e.limitIndex.Some? ==> Find(limits', LimitSlotOf, LimitSlot(e)).None?)
            && (e.topic.UpdatedLimit? && e.limitIndex.Some? ==>
                  (Find(limits', LimitSlotOf, LimitSlot(e)).Some? <==> Find(limits, LimitSlotOf, LimitSlot(e)).Some?))
  {
    if e.topic.Placed? && e.limit.Some? && e.limitIndex.Some? {
      if Find(limits, LimitSlotOf, PlacedSlot(e)).None? {
        AddToFinds(limits, LimitSlotOf, BuildLimit(e), PlacedSlot(e));
      }
    } else if EndsLimit(e) && e.limitIndex.Some? {
      RemovingTwice(limits, LimitSlotOf, LimitSlot(e));
    } else if e.topic.UpdatedLimit? && e.limitIndex.Some? {
      ReplacingTwice(limits, LimitSlotOf, LimitSlot(e),
                     WithLevels(BigStr(e.limitPrice), BigStr(e.tpPrice), BigStr(e.slPrice)));
    }
  }

  /** An update the gateway acts on, of an entry it holds. */
  predicate UpdatesHeld(trades: Trades, limits: Limits, e: Event) {
    e.source == PM &&
    (|| (e.topic == UpdatedTpSl && e.tradeIndex.Some? && e.tpPrice.Some? && e.slPrice.Some? &&
         Find(trades, TradeSlotOf, TradeSlot(e)).Some?)
     || (e.topic == UpdatedLimit && e.limitIndex.Some? && Find(limits, LimitSlotOf, LimitSlot(e)).Some?))
  }

  /** Subscribers are told of every event that changes what the gateway holds, and else only of updates that set what was set. */
  lemma ToldIff(trades: Trades, limits: Limits, e: Event)
    requires Tidy(trades, TradeSlotOf) && Tidy(limits, LimitSlotOf)
    ensures Notifies(trades, limits, e)
       <==> TradesAfter(trades, e) != trades || LimitsAfter(limits, e) != limits || UpdatesHeld(trades, limits, e)
  {
    if e.source == PM {
      TradesChangeIff(trades, e);
      LimitsChangeIff(limits, e);
    }
  }

  lemma AddingChanges<T>(cache: map<string, seq<T>>, slotOf: T -> Slot, entry: T)
    requires Tidy(cache, slotOf) && Find(cache, slotOf, slotOf(entry)).None?
    ensures AddTo(cache, slotOf(entry).trader, entry) != cache
  {
    AddToFinds(cache, slotOf, entry, slotOf(entry));
  }

  lemma RemovingChangesIff<T>(cache: map<string, seq<T>>, slotOf: T -> Slot, slot: Slot)
    requires Tidy(cache, slotOf)
    ensures RemoveFrom(cache, slotOf, slot) != cache <==> Find(cache, slotOf, slot).Some?
  {
    RemoveFromFinds(cache, slotOf, slot, slot);
  }

  lemma ReplacingNothing<T>(cache: map<string, seq<T>>, slotOf: T -> Slot, slot: Slot, change: T -> T)
    requires Find(cache, slotOf, slot).None?
    ensures ReplaceIn(cache, slotOf, slot, change) == cache
  {
  }

  lemma TradesChangeIff(trades: Trades, e: Event)
    requires Tidy(trades, TradeSlotOf) && e.source == PM
    ensures !e.topic.UpdatedTpSl? ==> (Notifies(trades, map[], e) && !IsLimitTopic(e.topic) <==> TradesAfter(trades, e) != trades)
    ensures e.topic.UpdatedTpSl? && !Notifies(trades, map[], e) ==> TradesAfter(trades, e) == trades
  {
    if e.topic.Opened? {
      if e.trade.Some? && e.tradeIndex.Some? && Find(trades, TradeSlotOf, OpenedSlot(e)).None? {
        AddingChanges(trades, TradeSlotOf, BuildTrade(e));
      }
    } else if EndsTrade(e) {
      if e.tradeIndex.Some? {
        RemovingChangesIff(trades, TradeSlotOf, TradeSlot(e));
      }
    } else if e.topic.UpdatedTpSl? {
      if e.tradeIndex.Some? && Find(trades, TradeSlotOf, TradeSlot(e)).None? {
        ReplacingNothing(trades, TradeSlotOf, TradeSlot(e), WithStops(BigStr(e.tpPrice), BigStr(e.slPrice)));
      }
    }
  }

  lemma LimitsChangeIff(limits: Limits, e: Event)
    requires Tidy(limits, LimitSlotOf) && e.source == PM
    ensures !e.topic.UpdatedLimit? ==> (Notifies(map[], limits, e) && IsLimitTopic(e.topic) <==> LimitsAfter(limits, e) != limits)
    ensures e.topic.UpdatedLimit? && !Notifies(map[], limits, e) ==> LimitsAfter(limits, e) == limits
  {
    if e.topic.Placed? {
      if e.limit.Some? && e.limitIndex.Some? && Find(limits, LimitSlotOf, PlacedSlot(e)).None? {
        AddingChanges(limits, LimitSlotOf, BuildLimit(e));
      }
    } else if EndsLimit(e) {
      if e.limitIndex.Some? {
        RemovingChangesIff(limits, LimitSlotOf, LimitSlot(e));
      }
    } else if e.topic.UpdatedLimit? {
      if e.limitIndex.Some? && Find(limits, LimitSlotOf, LimitSlot(e)).None? {
        ReplacingNothing(limits, LimitSlotOf, LimitSlot(e),
                         WithLevels(BigStr(e.limitPrice), BigStr(e.tpPrice), BigStr(e.slPrice)));
      }
    }
  }
}
