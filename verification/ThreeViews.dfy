/**
 The database, the keeper and the gateway each keep the open trades and limit orders of the
 same event stream. They treat a repeated open differently, yet they agree, also after
 crashes and redelivery.
 */
module ThreeViews {
  import opened Wrappers
  import opened Events
  import opened Decimals
  import opened SlotTables
  import opened Projection
  import opened Deliveries
  import opened CrashConvergence
  import opened TraderLists
  import opened Indexer
  import FeeMath
  import Keeper = KeeperState
  import Cache = Gateway

  // ----- What a database row looks like in the other views -----

  function RepricedOpen(t: TradeTerms): Option<int> {
    match FeeMath.LiquidationPrice(Some(t.openPrice), t.isLong, Some(t.collateral), t.leverage, None, None, 90)
    case Ok(liq) => Some(liq)
    case Err(_) => None
  }

  function InKeeper(slot: Slot, row: TradeRow): Keeper.TradeView {
    var t := row.terms;
    Keeper.TradeView(slot, t.isLong, t.leverage, Some(t.collateral), Some(t.openPrice), Some(t.accRolloverOpen),
                     Some(t.accFundingOpen), 90, RepricedOpen(t), Some(row.levels.tp), Some(row.levels.sl))
  }

  function InCache(slot: Slot, row: TradeRow): Cache.CachedTrade {
    var t := row.terms;
    Cache.CachedTrade(slot.trader, slot.pair, slot.index, t.isLong, t.leverage,
                      Print(t.collateral), Print(t.openPrice), Print(t.accRolloverOpen), Print(t.accFundingOpen),
                      Print(row.levels.tp), Print(row.levels.sl), Print(t.liqPrice),
                      Print(t.liqPrice), "0", "0", row.origin.openedAt)
  }

  function LimitInKeeper(slot: Slot, row: LimitRow): Keeper.LimitView {
    Keeper.LimitView(slot, row.terms.isLong, Some(row.levels.limitPrice))
  }

  function LimitInCache(slot: Slot, row: LimitRow): Cache.CachedLimit {
    Cache.CachedLimit(slot.trader, slot.pair, slot.index, row.terms.isLong, row.terms.leverage, Print(row.terms.collateral),
                      Print(row.levels.limitPrice), Print(row.levels.tp), Print(row.levels.sl), row.origin.placedAt)
  }

  function KeeperTrades(rows: map<Slot, TradeRow>): map<Slot, Keeper.TradeView> {
    map s | s in rows :: InKeeper(s, rows[s])
  }

  function KeeperLimits(rows: map<Slot, LimitRow>): map<Slot, Keeper.LimitView> {
    map s | s in rows :: LimitInKeeper(s, rows[s])
  }

  /** The per-trader lists hold exactly the rows, each once. */
  ghost predicate CacheHolds<T(!new), R>(cache: map<string, seq<T>>, slotOf: T -> Slot, rows: map<Slot, R>, shown: (Slot, R) -> T) {
    && Tidy(cache, slotOf)
    && forall slot: Slot :: Find(cache, slotOf, slot) == if slot in rows then Some(shown(slot, rows[slot])) else None
  }

  lemma HoldsAdded<T(!new), R>(
    cache: map<string, seq<T>>, slotOf: T -> Slot, rows: map<Slot, R>, shown: (Slot, R) -> T, entry: T, row: R
  )
    requires CacheHolds(cache, slotOf, rows, shown)
    requires slotOf(entry) !in rows && entry == shown(slotOf(entry), row)
    ensures CacheHolds(AddTo(cache, slotOf(entry).trader, entry), slotOf, rows[slotOf(entry) := row], shown)
  {
    forall slot: Slot {
      AddToFinds(cache, slotOf, entry, slot);
    }
  }

  lemma HoldsRemoved<T(!new), R>(
    cache: map<string, seq<T>>, slotOf: T -> Slot, rows: map<Slot, R>, shown: (Slot, R) -> T, gone: Slot
  )
    requires CacheHolds(cache, slotOf, rows, shown)
    ensures CacheHolds(RemoveFrom(cache, slotOf, gone), slotOf, rows - {gone}, shown)
  {
    forall slot: Slot {
      RemoveFromFinds(cache, slotOf, gone, slot);
    }
  }

  lemma HoldsUpdated<X(!new), T, L, O>(
    cache: map<string, seq<X>>, slotOf: X -> Slot, rows: map<Slot, Row<T, L, O>>, shown: (Slot, Row<T, L, O>) -> X,
    changed: Slot, change: X -> X, levels: L
  )
    requires CacheHolds(cache, slotOf, rows, shown)
    requires forall x: X :: slotOf(change(x)) == slotOf(x)
    requires changed in rows ==> change(shown(changed, rows[changed])) == shown(changed, rows[changed].(levels := levels))
    ensures CacheHolds(ReplaceIn(cache, slotOf, changed, change), slotOf, Apply(Skip, rows, At(changed, Update(levels))), shown)
  {
    var rows' := Apply(Skip, rows, At(changed, Update(levels)));
    UpdatedRows(rows, changed, levels);
    forall slot: Slot
      ensures Find(ReplaceIn(cache, slotOf, changed, change), slotOf, slot) ==
              if slot in rows' then Some(shown(slot, rows'[slot])) else None
      ensures Tidy(ReplaceIn(cache, slotOf, changed, change), slotOf)
    {
      ReplaceInFinds(cache, slotOf, changed, change, slot);
      assert Find(cache, slotOf, slot) == if slot in rows then Some(shown(slot, rows[slot])) else None;
    }
  }

  lemma UpdatedRows<T, L, O>(rows: map<Slot, Row<T, L, O>>, changed: Slot, levels: L)
    ensures Apply(Skip, rows, At(changed, Update(levels))) ==
            if changed in rows then rows[changed := rows[changed].(levels := levels)] else rows
  {
  }

  lemma OpenedRows<T, L, O>(rows: map<Slot, Row<T, L, O>>, slot: Slot, row: Row<T, L, O>)
    ensures Apply(Skip, rows, At(slot, Open(row))) == if slot in rows then rows else rows[slot := row]
  {
    if slot in rows {
      assert rows[slot := rows[slot]] == rows;
    }
  }

  ghost predicate CacheTrades(trades: Cache.Trades, rows: map<Slot, TradeRow>) {
    CacheHolds(trades, Cache.TradeSlotOf, rows, InCache)
  }

  ghost predicate CacheLimits(limits: Cache.Limits, rows: map<Slot, LimitRow>) {
    CacheHolds(limits, Cache.LimitSlotOf, rows, LimitInCache)
  }

  // ----- The views over a delivered stream -----

  datatype Views = Views(
    keeperTrades: map<Slot, Keeper.TradeView>, keeperLimits: map<Slot, Keeper.LimitView>,
    cacheTrades: Cache.Trades, cacheLimits: Cache.Limits)

  function ViewsStep(v: Views, e: Event): Views {
    Views(Keeper.TradesAfter(v.keeperTrades, e), Keeper.LimitsAfter(v.keeperLimits, e),
          Cache.TradesAfter(v.cacheTrades, e), Cache.LimitsAfter(v.cacheLimits, e))
  }

  function ViewsAfter(v: Views, log: seq<Event>): Views
    decreases |log|
  {
    if log == [] then v else ViewsAfter(ViewsStep(v, log[0]), log[1..])
  }

  const NOTHING := Views(map[], map[], map[], map[])

  // ----- One event -----

  lemma KeeperTradeStep(rows: map<Slot, TradeRow>, e: Event)
    requires Enriched(e)
    ensures Keeper.TradesAfter(KeeperTrades(rows), e) == KeeperTrades(Apply(Overwrite, rows, ToTradeCmd(e)))
  {
    var rows' := Apply(Overwrite, rows, ToTradeCmd(e));
    if e.source == PM && e.topic.Opened? {
      assert Keeper.OpenedView(e) == InKeeper(OpenedSlot(e), OpenedRow(e));
    }
  }

  lemma KeeperLimitStep(rows: map<Slot, LimitRow>, e: Event)
    requires Enriched(e)
    ensures Keeper.LimitsAfter(KeeperLimits(rows), e) == KeeperLimits(Apply(Overwrite, rows, ToLimitCmd(e)))
  {
  }

  lemma OpenedInCache(e: Event)
    requires Enriched(e) && e.source == PM && e.topic.Opened?
    ensures Cache.BuildTrade(e) == InCache(OpenedSlot(e), OpenedRow(e))
  {
    assert Print(0) == "0";
  }

  lemma CacheTradeOpened(trades: Cache.Trades, rows: map<Slot, TradeRow>, e: Event)
    requires Enriched(e) && e.source == PM && e.topic.Opened? && CacheTrades(trades, rows)
    ensures CacheTrades(Cache.TradesAfter(trades, e), Apply(Skip, rows, ToTradeCmd(e)))
  {
    var slot := OpenedSlot(e);
    OpenedInCache(e);
    assert Find(trades, Cache.TradeSlotOf, slot).Some? <==> slot in rows;
    OpenedRows(rows, slot, OpenedRow(e));
    if slot !in rows {
      HoldsAdded(trades, Cache.TradeSlotOf, rows, InCache, Cache.BuildTrade(e), OpenedRow(e));
    }
  }

  lemma UpdatedTrades(trades: Cache.Trades, e: Event, change: Cache.CachedTrade -> Cache.CachedTrade)
    requires Enriched(e) && e.source == PM && e.topic.UpdatedTpSl?
    requires change == Cache.WithStops(Cache.BigStr(e.tpPrice), Cache.BigStr(e.slPrice))
    ensures Cache.TradesAfter(trades, e) == ReplaceIn(trades, Cache.TradeSlotOf, TradeSlot(e), change)
    ensures ToTradeCmd(e) == At(TradeSlot(e), Update(Stops(e.tpPrice.value, e.slPrice.value)))
  {
  }

  lemma StopsShow(slot: Slot, row: TradeRow, e: Event, change: Cache.CachedTrade -> Cache.CachedTrade)
    requires e.tpPrice.Some? && e.slPrice.Some?
    requires change == Cache.WithStops(Cache.BigStr(e.tpPrice), Cache.BigStr(e.slPrice))
    ensures change(InCache(slot, row)) == InCache(slot, row.(levels := Stops(e.tpPrice.value, e.slPrice.value)))
  {
  }

  lemma CacheTradeUpdated(trades: Cache.Trades, rows: map<Slot, TradeRow>, e: Event)
    requires Enriched(e) && e.source == PM && e.topic.UpdatedTpSl? && CacheTrades(trades, rows)
    ensures CacheTrades(Cache.TradesAfter(trades, e), Apply(Skip, rows, ToTradeCmd(e)))
  {
    var change := Cache.WithStops(Cache.BigStr(e.tpPrice), Cache.BigStr(e.slPrice));
    UpdatedTrades(trades, e, change);
    ChangedTrade(trades, rows, e, change);
  }

  lemma ChangedTrade(trades: Cache.Trades, rows: map<Slot, TradeRow>, e: Event, change: Cache.CachedTrade -> Cache.CachedTrade)
    requires e.tpPrice.Some? && e.slPrice.Some? && e.tradeIndex.Some? && CacheTrades(trades, rows)
    requires change == Cache.WithStops(Cache.BigStr(e.tpPrice), Cache.BigStr(e.slPrice))
    ensures CacheTrades(ReplaceIn(trades, Cache.TradeSlotOf, TradeSlot(e), change),
                        Apply(Skip, rows, At(TradeSlot(e), Update(Stops(e.tpPrice.value, e.slPrice.value)))))
  {
    if TradeSlot(e) in rows {
      StopsShow(TradeSlot(e), rows[TradeSlot(e)], e, change);
    }
    HoldsUpdated(trades, Cache.TradeSlotOf, rows, InCache, TradeSlot(e), change, Stops(e.tpPrice.value, e.slPrice.value));
  }

  lemma CacheTradeStep(trades: Cache.Trades, rows: map<Slot, TradeRow>, e: Event)
    requires Enriched(e) && CacheTrades(trades, rows)
    ensures CacheTrades(Cache.TradesAfter(trades, e), Apply(Skip, rows, ToTradeCmd(e)))
  {
    if e.source != PM {
    } else if e.topic.Opened? {
      CacheTradeOpened(trades, rows, e);
    } else if EndsTrade(e) {
      HoldsRemoved(trades, Cache.TradeSlotOf, rows, InCache, TradeSlot(e));
      assert Apply(Skip, rows, ToTradeCmd(e)) == rows - {TradeSlot(e)};
    } else if e.topic.UpdatedTpSl? {
      CacheTradeUpdated(trades, rows, e);
    }
  }

  lemma CacheLimitOpened(limits: Cache.Limits, rows: map<Slot, LimitRow>, e: Event)
    requires Enriched(e) && e.source == PM && e.topic.Placed? && CacheLimits(limits, rows)
    ensures CacheLimits(Cache.LimitsAfter(limits, e), Apply(Skip, rows, ToLimitCmd(e)))
  {
    var slot := PlacedSlot(e);
    assert Cache.BuildLimit(e) == LimitInCache(PlacedSlot(e), PlacedRow(e));
    assert Find(limits, Cache.LimitSlotOf, slot).Some? <==> slot in rows;
    OpenedRows(rows, slot, PlacedRow(e));
    if slot !in rows {
      HoldsAdded(limits, Cache.LimitSlotOf, rows, LimitInCache, Cache.BuildLimit(e), PlacedRow(e));
    }
  }

  lemma UpdatedLimits(limits: Cache.Limits, e: Event, change: Cache.CachedLimit -> Cache.CachedLimit)
    requires Enriched(e) && e.source == PM && e.topic.UpdatedLimit?
    requires change == Cache.WithLevels(Cache.BigStr(e.limitPrice), Cache.BigStr(e.tpPrice), Cache.BigStr(e.slPrice))
    ensures Cache.LimitsAfter(limits, e) == ReplaceIn(limits, Cache.LimitSlotOf, LimitSlot(e), change)
    ensures ToLimitCmd(e) == At(LimitSlot(e), Update(LimitLevels(e.limitPrice.value, e.tpPrice.value, e.slPrice.value)))
  {
  }

  lemma LevelsShow(slot: Slot, row: LimitRow, e: Event, change: Cache.CachedLimit -> Cache.CachedLimit)
    requires e.limitPrice.Some? && e.tpPrice.Some? && e.slPrice.Some?
    requires change == Cache.WithLevels(Cache.BigStr(e.limitPrice), Cache.BigStr(e.tpPrice), Cache.BigStr(e.slPrice))
    ensures change(LimitInCache(slot, row))
         == LimitInCache(slot, row.(levels := LimitLevels(e.limitPrice.value, e.tpPrice.value, e.slPrice.value)))
  {
  }

  lemma CacheLimitUpdated(limits: Cache.Limits, rows: map<Slot, LimitRow>, e: Event)
    requires Enriched(e) && e.source == PM && e.topic.UpdatedLimit? && CacheLimits(limits, rows)
    ensures CacheLimits(Cache.LimitsAfter(limits, e), Apply(Skip, rows, ToLimitCmd(e)))
  {
    var change := Cache.WithLevels(Cache.BigStr(e.limitPrice), Cache.BigStr(e.tpPrice), Cache.BigStr(e.slPrice));
    UpdatedLimits(limits, e, change);
    ChangedLimit(limits, rows, e, change);
  }

  lemma ChangedLimit(limits: Cache.Limits, rows: map<Slot, LimitRow>, e: Event, change: Cache.CachedLimit -> Cache.CachedLimit)
    requires e.limitPrice.Some? && e.tpPrice.Some? && e.slPrice.Some? && e.limitIndex.Some? && CacheLimits(limits, rows)
    requires change == Cache.WithLevels(Cache.BigStr(e.limitPrice), Cache.BigStr(e.tpPrice), Cache.BigStr(e.slPrice))
    ensures CacheLimits(ReplaceIn(limits, Cache.LimitSlotOf, LimitSlot(e), change),
                        Apply(Skip, rows, At(LimitSlot(e), Update(LimitLevels(e.limitPrice.value, e.tpPrice.value, e.slPrice.value)))))
  {
    if LimitSlot(e) in rows {
      LevelsShow(LimitSlot(e), rows[LimitSlot(e)], e, change);
    }
    HoldsUpdated(limits, Cache.LimitSlotOf, rows, LimitInCache, LimitSlot(e), change,
                 LimitLevels(e.limitPrice.value, e.tpPrice.value, e.slPrice.value));
  }

  lemma CacheLimitStep(limits: Cache.Limits, rows: map<Slot, LimitRow>, e: Event)
    requires Enriched(e) && CacheLimits(limits, rows)
    ensures CacheLimits(Cache.LimitsAfter(limits, e), Apply(Skip, rows, ToLimitCmd(e)))
  {
    if e.source != PM {
    } else if e.topic.Placed? {
      CacheLimitOpened(limits, rows, e);
    } else if EndsLimit(e) {
      HoldsRemoved(limits, Cache.LimitSlotOf, rows, LimitInCache, LimitSlot(e));
      assert Apply(Skip, rows, ToLimitCmd(e)) == rows - {LimitSlot(e)};
    } else if e.topic.UpdatedLimit? {
      CacheLimitUpdated(limits, rows, e);
    }
  }

  // ----- Whole streams -----

  /** On any stream of enriched events, in order or not, each view is a run of the slot table under its own policy. */
  lemma {:induction false} ViewsAreRuns(
    v: Views, overwritten: map<Slot, TradeRow>, skipped: map<Slot, TradeRow>,
    overwrittenLimits: map<Slot, LimitRow>, skippedLimits: map<Slot, LimitRow>, log: seq<Event>
  )
    requires forall e <- log :: Enriched(e)
    requires v.keeperTrades == KeeperTrades(overwritten) && CacheTrades(v.cacheTrades, skipped)
    requires v.keeperLimits == KeeperLimits(overwrittenLimits) && CacheLimits(v.cacheLimits, skippedLimits)
    ensures var after := ViewsAfter(v, log);
            && after.keeperTrades == KeeperTrades(Run(Overwrite, overwritten, TradeCmds(log)))
            && CacheTrades(after.cacheTrades, Run(Skip, skipped, TradeCmds(log)))
            && after.keeperLimits == KeeperLimits(Run(Overwrite, overwrittenLimits, LimitCmds(log)))
            && CacheLimits(after.cacheLimits, Run(Skip, skippedLimits, LimitCmds(log)))
    decreases |log|
  {
    if log != [] {
      var e := log[0];
      KeeperTradeStep(overwritten, e);
      KeeperLimitStep(overwrittenLimits, e);
      CacheTradeStep(v.cacheTrades, skipped, e);
      CacheLimitStep(v.cacheLimits, skippedLimits, e);
      assert TradeCmds(log)[1..] == TradeCmds(log[1..]) && LimitCmds(log)[1..] == LimitCmds(log[1..]);
      ViewsAreRuns(ViewsStep(v, e), Apply(Overwrite, overwritten, ToTradeCmd(e)), Apply(Skip, skipped, ToTradeCmd(e)),
                   Apply(Overwrite, overwrittenLimits, ToLimitCmd(e)), Apply(Skip, skippedLimits, ToLimitCmd(e)), log[1..]);
    }
  }

  lemma {:induction false} DeliveredFromLog(log: seq<Event>, moves: seq<Move>)
    requires Legal(moves, |log|)
    ensures forall e <- Delivered(log, moves) :: e in log
  {
    if moves != [] {
      DeliveredFromLog(log, moves[..|moves| - 1]);
    }
  }

  /** A delivery run under any policy ends where a single pass of the database does. */
  lemma AnyPolicyConverges(policy: OnDuplicate, log: seq<Event>, moves: seq<Move>)
    requires WellFormedLog(log) && Legal(moves, |log|) && Position(moves) == Furthest(moves)
    ensures Furthest(moves) <= |log|
    ensures Run(policy, map[], TradeCmds(Delivered(log, moves))) == Once(log, Furthest(moves)).trades
    ensures Run(policy, map[], LimitCmds(Delivered(log, moves))) == Once(log, Furthest(moves)).limits
  {
    PositionsStayInLog(moves, |log|);
    var at := Furthest(moves);
    DeliveredCmds(log, moves);
    DeliveryConverges(policy, TradeCmds(log), moves);
    DeliveryConverges(policy, LimitCmds(log), moves);
    PoliciesLeaveTheSameTable(policy, Upsert, TradeCmds(log), at);
    PoliciesLeaveTheSameTable(policy, Upsert, LimitCmds(log), at);
    LiveTablesAreRuns(EMPTY, log[..at]);
    assert TradeCmds(log[..at]) == TradeCmds(log)[..at] && LimitCmds(log[..at]) == LimitCmds(log)[..at];
  }

  /** The in-memory views, fed any caught-up delivery, hold the rows of a single pass in their own form. */
  lemma ViewsConverge(log: seq<Event>, moves: seq<Move>)
    requires WellFormedLog(log) && forall e <- log :: Enriched(e)
    requires Legal(moves, |log|) && Position(moves) == Furthest(moves)
    ensures Furthest(moves) <= |log|
    ensures var once, views := Once(log, Furthest(moves)), ViewsAfter(NOTHING, Delivered(log, moves));
            && views.keeperTrades == KeeperTrades(once.trades) && views.keeperLimits == KeeperLimits(once.limits)
            && CacheTrades(views.cacheTrades, once.trades) && CacheLimits(views.cacheLimits, once.limits)
  {
    DeliveredFromLog(log, moves);
    ViewsAreRuns(NOTHING, map[], map[], map[], map[], Delivered(log, moves));
    AnyPolicyConverges(Overwrite, log, moves);
    AnyPolicyConverges(Skip, log, moves);
  }

  /**
   Three views, one truth. Run the indexer on a well-formed enriched log, kill it anywhere and as
   often as one likes (safely, before anything usable is persisted). Where the database stands at the furthest point and its last event has been
   published, the database holds the rows of a single pass, and the keeper and the gateway hold
   exactly those rows in their own form.
   */
  lemma ViewsAgree(log: seq<Event>, configured: uint32, latest: uint32, actions: seq<Action>)
    requires BeginsAtStart(log, configured, latest)
    requires WellFormedLog(log) && forall e <- log :: Enriched(e)
    requires IsRun(log, configured, Start(configured, latest), actions)
    requires AllSafe(log, configured, Start(configured, latest), actions, Published)
    requires var w := After(log, configured, Start(configured, latest), actions);
             w.published.reached == w.applied.reached == w.applied.furthest
    ensures var w := After(log, configured, Start(configured, latest), actions);
            && w.applied.furthest <= |log|
            && w.Database().trades == Once(log, w.applied.furthest).trades
            && w.Database().limits == Once(log, w.applied.furthest).limits
            && var views := ViewsAfter(NOTHING, w.published.stream);
               && views.keeperTrades == KeeperTrades(w.Database().trades)
               && views.keeperLimits == KeeperLimits(w.Database().limits)
               && CacheTrades(views.cacheTrades, w.Database().trades)
               && CacheLimits(views.cacheLimits, w.Database().limits)
  {
    SafeForBoth(log, configured, Start(configured, latest), actions);
    IndexerConverges(log, configured, latest, actions);
    SubscribersCatchUp(log, configured, latest, actions);
    var w := After(log, configured, Start(configured, latest), actions);
    var moves :| IsDeliveryBy(log, w.published, moves);
    ViewsConverge(log, moves);
  }

  // ----- The liquidation price stored at the open -----

  ghost predicate Priced(rows: map<Slot, TradeRow>) {
    forall s <- rows :: rows[s].terms.liqPrice == OrZero(RepricedOpen(rows[s].terms))
  }

  lemma PricedStep(rows: map<Slot, TradeRow>, e: Event)
    requires Priced(rows) && Enriched(e)
    ensures Priced(Apply(Upsert, rows, ToTradeCmd(e)))
  {
    if e.source == PM && e.topic.Opened? {
      assert OpeningLiqPrice(e.trade.value) == RepricedOpen(OpenedRow(e).terms);
    }
  }

  lemma {:induction false} RowsStayPriced(rows: map<Slot, TradeRow>, log: seq<Event>)
    requires Priced(rows) && forall e <- log :: Enriched(e)
    ensures Priced(Run(Upsert, rows, TradeCmds(log)))
    decreases |log|
  {
    if log != [] {
      assert TradeCmds(log)[1..] == TradeCmds(log[1..]);
      PricedStep(rows, log[0]);
      RowsStayPriced(Apply(Upsert, rows, ToTradeCmd(log[0])), log[1..]);
    }
  }

  /** The price in the database column is the one the keeper holds, a missing one counting as zero. */
  lemma OpeningPricesAgree(log: seq<Event>, upTo: nat, slot: Slot)
    requires upTo <= |log| && forall e <- log :: Enriched(e)
    requires slot in Once(log, upTo).trades
    ensures var row := Once(log, upTo).trades[slot];
            row.terms.liqPrice == OrZero(InKeeper(slot, row).liqPrice)
  {
    LiveTablesAreRuns(EMPTY, log[..upTo]);
    RowsStayPriced(map[], log[..upTo]);
  }
}
