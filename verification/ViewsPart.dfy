/**
 Where the three views part. They agree on well-formed logs of complete events; here is what an
 open on an occupied slot and an update with a price missing does to each of them.
 */
module ViewsPart {
  import opened Wrappers
  import opened Events
  import opened SlotTables
  import opened Projection
  import opened Conservation
  import opened OrderConservation
  import opened TraderLists
  import opened ThreeViews
  import Keeper = KeeperState
  import Cache = Gateway
  import Decimals

  // ----- A repeated open -----

  /** The row is the new opening in all but its origin, which it keeps from before. */
  predicate Refreshed(row: TradeRow, open: Event, before: TradeRow)
    requires OpensTrade(open)
  {
    var t := open.trade.value;
    && row.origin == before.origin
    && TellsOpening(row.(origin := TradeOrigin(90, open.at, open.txHash)), open, Stops(OrZero(t.tpPrice), OrZero(t.slPrice)))
  }

  lemma DatabaseRefreshes(rows: map<Slot, TradeRow>, e: Event)
    requires OpensTrade(e) && BornAt(e) in rows
    ensures var rows' := Apply(Upsert, rows, ToTradeCmd(e));
            && rows'.Keys == rows.Keys
            && (forall slot <- rows | slot != BornAt(e) :: rows'[slot] == rows[slot])
            && Refreshed(rows'[BornAt(e)], e, rows[BornAt(e)])
  {
  }

  /** The keeper does not hold the origin, so it cannot tell refreshing from overwriting. */
  lemma OriginIsNotKept(rows: map<Slot, TradeRow>, slot: Slot, row: TradeRow)
    requires slot in rows
    ensures KeeperTrades(Apply(Upsert, rows, At(slot, Open(row)))) == KeeperTrades(Apply(Overwrite, rows, At(slot, Open(row))))
  {
    assert InKeeper(slot, row.(origin := rows[slot].origin)) == InKeeper(slot, row);
  }

  lemma GatewayKeeps(rows: map<Slot, TradeRow>, cache: Cache.Trades, e: Event)
    requires OpensTrade(e) && BornAt(e) in rows && CacheTrades(cache, rows)
    ensures Cache.TradesAfter(cache, e) == cache
  {
    assert Find(cache, Cache.TradeSlotOf, BornAt(e)).Some?;
  }

  /** The database takes the new opening but keeps when it was first opened, the keeper follows it, and the gateway keeps the old. */
  lemma RepeatedOpen(rows: map<Slot, TradeRow>, cache: Cache.Trades, e: Event)
    requires OpensTrade(e) && FullTrade(e.trade.value) && BornAt(e) in rows && CacheTrades(cache, rows)
    ensures var rows' := Apply(Upsert, rows, ToTradeCmd(e));
            && rows'.Keys == rows.Keys
            && (forall slot <- rows | slot != BornAt(e) :: rows'[slot] == rows[slot])
            && Refreshed(rows'[BornAt(e)], e, rows[BornAt(e)])
            && Keeper.TradesAfter(KeeperTrades(rows), e) == KeeperTrades(rows')
            && Cache.TradesAfter(cache, e) == cache
  {
    DatabaseRefreshes(rows, e);
    KeeperTradeStep(rows, e);
    OriginIsNotKept(rows, BornAt(e), OpenedRow(e));
    GatewayKeeps(rows, cache, e);
  }

  /** So the gateway still agrees with the database if and only if it shows the new opening as it showed the old. */
  lemma GatewayAgreesIff(rows: map<Slot, TradeRow>, cache: Cache.Trades, e: Event)
    requires OpensTrade(e) && FullTrade(e.trade.value) && BornAt(e) in rows && CacheTrades(cache, rows)
    ensures var rows' := Apply(Upsert, rows, ToTradeCmd(e));
            && BornAt(e) in rows'
            && (CacheTrades(Cache.TradesAfter(cache, e), rows') <==>
                InCache(BornAt(e), rows'[BornAt(e)]) == InCache(BornAt(e), rows[BornAt(e)]))
  {
    RepeatedOpen(rows, cache, e);
    var rows' := Apply(Upsert, rows, ToTradeCmd(e));
    if InCache(BornAt(e), rows'[BornAt(e)]) == InCache(BornAt(e), rows[BornAt(e)]) {
      forall slot: Slot
        ensures Find(cache, Cache.TradeSlotOf, slot) == if slot in rows' then Some(InCache(slot, rows'[slot])) else None
      {
      }
    } else {
      assert Find(cache, Cache.TradeSlotOf, BornAt(e)) == Some(InCache(BornAt(e), rows[BornAt(e)]));
    }
  }

  lemma PlacementRefreshes(rows: map<Slot, LimitRow>, e: Event)
    requires PlacesOrder(e) && FullLimit(e.limit.value) && PlacedIn(e) in rows
    ensures var l := e.limit.value;
            Apply(Upsert, rows, ToLimitCmd(e)) == rows[PlacedIn(e) :=
              OrderRow(e, LimitLevels(l.limitPrice.value, l.tpPrice.value, l.slPrice.value)).(origin := rows[PlacedIn(e)].origin)]
  {
  }

  /** The same of a limit order. */
  lemma RepeatedPlacement(rows: map<Slot, LimitRow>, cache: Cache.Limits, e: Event)
    requires PlacesOrder(e) && FullLimit(e.limit.value) && PlacedIn(e) in rows && CacheLimits(cache, rows)
    ensures var rows', l := Apply(Upsert, rows, ToLimitCmd(e)), e.limit.value;
            && rows' == rows[PlacedIn(e) :=
                 OrderRow(e, LimitLevels(l.limitPrice.value, l.tpPrice.value, l.slPrice.value)).(origin := rows[PlacedIn(e)].origin)]
            && Keeper.LimitsAfter(KeeperLimits(rows), e) == KeeperLimits(rows')
            && Cache.LimitsAfter(cache, e) == cache
  {
    PlacementRefreshes(rows, e);
    assert Find(cache, Cache.LimitSlotOf, PlacedIn(e)).Some?;
  }

  // ----- An update with a price missing -----

  /** An update of a held trade that carries one of the two prices. */
  predicate OneStop(rows: map<Slot, TradeRow>, e: Event, slot: Slot) {
    && e.source == PM && e.topic == UpdatedTpSl && NamesTrade(e, slot) && slot in rows
    && (e.tpPrice.Some? <==> e.slPrice.None?)
  }

  /** The database and the gateway drop it; the keeper takes the price, and agrees only if it had that price already. */
  lemma OneStopDivergesIff(rows: map<Slot, TradeRow>, cache: Cache.Trades, e: Event, slot: Slot)
    requires OneStop(rows, e, slot)
    ensures Apply(Upsert, rows, ToTradeCmd(e)) == rows && Cache.TradesAfter(cache, e) == cache
    ensures Keeper.TradesAfter(KeeperTrades(rows), e)
         == KeeperTrades(rows[slot := rows[slot].(levels := Stops(e.tpPrice.UnwrapOr(rows[slot].levels.tp), e.slPrice.UnwrapOr(rows[slot].levels.sl)))])
    ensures Keeper.TradesAfter(KeeperTrades(rows), e) == KeeperTrades(rows)
       <==> rows[slot].levels == Stops(e.tpPrice.UnwrapOr(rows[slot].levels.tp), e.slPrice.UnwrapOr(rows[slot].levels.sl))
  {
    var after := Keeper.TradesAfter(KeeperTrades(rows), e);
    assert TradeSlot(e) == slot;
    assert after[slot].tpPrice == Some(e.tpPrice.UnwrapOr(rows[slot].levels.tp));
    assert after[slot].slPrice == Some(e.slPrice.UnwrapOr(rows[slot].levels.sl));
    assert KeeperTrades(rows)[slot] == InKeeper(slot, rows[slot]);
  }

  lemma UpdatedOrderIsFound(rows: map<Slot, LimitRow>, cache: Cache.Limits, e: Event, slot: Slot)
    requires e.source == PM && e.topic == UpdatedLimit && NamesOrder(e, slot) && slot in rows && CacheLimits(cache, rows)
    ensures Find(Cache.LimitsAfter(cache, e), Cache.LimitSlotOf, slot)
         == Some(LimitInCache(slot, rows[slot]).(limitPrice := Cache.BigStr(e.limitPrice),
                                                 tpPrice := Cache.BigStr(e.tpPrice), slPrice := Cache.BigStr(e.slPrice)))
  {
    assert LimitSlot(e) == slot;
    var change := Cache.WithLevels(Cache.BigStr(e.limitPrice), Cache.BigStr(e.tpPrice), Cache.BigStr(e.slPrice));
    ReplaceInFinds(cache, Cache.LimitSlotOf, slot, change, slot);
    assert Find(cache, Cache.LimitSlotOf, slot) == Some(LimitInCache(slot, rows[slot]));
  }

  lemma DroppedUpdate(rows: map<Slot, LimitRow>, e: Event, slot: Slot)
    requires e.source == PM && e.topic == UpdatedLimit && NamesOrder(e, slot) && e.limitPrice.None?
    ensures Apply(Upsert, rows, ToLimitCmd(e)) == rows && Keeper.LimitsAfter(KeeperLimits(rows), e) == KeeperLimits(rows)
  {
    var held := KeeperLimits(rows);
    if slot in rows {
      assert held[slot := held[slot]] == held;
    }
  }

  /** An update of a held order without a limit price: the database and the keeper drop it, and the gateway shows a limit of zero. */
  lemma MissingLimitPriceShowsZero(rows: map<Slot, LimitRow>, cache: Cache.Limits, e: Event, slot: Slot)
    requires e.source == PM && e.topic == UpdatedLimit && NamesOrder(e, slot) && e.limitPrice.None?
    requires slot in rows && CacheLimits(cache, rows)
    ensures Apply(Upsert, rows, ToLimitCmd(e)) == rows && Keeper.LimitsAfter(KeeperLimits(rows), e) == KeeperLimits(rows)
    ensures var shown := Find(Cache.LimitsAfter(cache, e), Cache.LimitSlotOf, slot);
            shown.Some? && shown.value.limitPrice == "0"
  {
    DroppedUpdate(rows, e, slot);
    UpdatedOrderIsFound(rows, cache, e, slot);
  }

  function Moved(row: LimitRow, e: Event): LimitRow
    requires e.limitPrice.Some?
  {
    row.(levels := LimitLevels(e.limitPrice.value, OrZero(e.tpPrice), OrZero(e.slPrice)))
  }

  lemma MovedInDatabase(rows: map<Slot, LimitRow>, e: Event, slot: Slot)
    requires MovesOrder(e, slot) && slot in rows
    ensures Apply(Upsert, rows, ToLimitCmd(e)) == rows[slot := Moved(rows[slot], e)]
  {
  }

  lemma MovedInKeeper(rows: map<Slot, LimitRow>, e: Event, slot: Slot)
    requires MovesOrder(e, slot) && slot in rows
    ensures Keeper.LimitsAfter(KeeperLimits(rows), e) == KeeperLimits(rows[slot := Moved(rows[slot], e)])
  {
    assert LimitSlot(e) == slot;
  }

  lemma MovedInCache(row: LimitRow, e: Event, slot: Slot)
    requires e.limitPrice.Some?
    ensures LimitInCache(slot, row).(limitPrice := Cache.BigStr(e.limitPrice),
                                     tpPrice := Cache.BigStr(e.tpPrice), slPrice := Cache.BigStr(e.slPrice))
         == LimitInCache(slot, Moved(row, e))
  {
    assert Decimals.Print(0) == "0";
  }

  /** With a limit price but a missing tp or sl, the database and the gateway reset that price to zero; the keeper holds neither. */
  lemma MissingStopResets(rows: map<Slot, LimitRow>, cache: Cache.Limits, e: Event, slot: Slot)
    requires MovesOrder(e, slot) && slot in rows && CacheLimits(cache, rows)
    ensures Apply(Upsert, rows, ToLimitCmd(e)) == rows[slot := Moved(rows[slot], e)]
    ensures Keeper.LimitsAfter(KeeperLimits(rows), e) == KeeperLimits(rows[slot := Moved(rows[slot], e)])
    ensures Find(Cache.LimitsAfter(cache, e), Cache.LimitSlotOf, slot) == Some(LimitInCache(slot, Moved(rows[slot], e)))
  {
    MovedInDatabase(rows, e, slot);
    MovedInKeeper(rows, e, slot);
    MovedInCache(rows[slot], e, slot);
    UpdatedOrderIsFound(rows, cache, e, slot);
  }
}
