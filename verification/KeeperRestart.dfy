/** A keeper that restarts loads its trades and limit orders from the database instead of the feed. */
module KeeperRestart {
  import opened Wrappers
  import opened Events
  import opened SlotTables
  import opened Decimals
  import opened Projection
  import opened CrashConvergence
  import opened ThreeViews
  import opened KeeperState

  /** The pairs' configured threshold takes precedence over the row's. */
  function ThresholdOf(slot: Slot, row: TradeRow, pairs: map<int, uint32>): uint32 {
    if slot.pair in pairs then pairs[slot.pair] else row.origin.liqThresholdP
  }

  /** Columns arrive as decimal strings. */
  function Loaded(column: int): Option<int> {
    Parse(Print(column))
  }

  function LoadedTrade(slot: Slot, row: TradeRow, pairs: map<int, uint32>): TradeView {
    var t := row.terms;
    TradeView(slot, t.isLong, t.leverage, Loaded(t.collateral), Loaded(t.openPrice), Loaded(t.accRolloverOpen),
              Loaded(t.accFundingOpen), ThresholdOf(slot, row, pairs), Loaded(t.liqPrice),
              Loaded(row.levels.tp), Loaded(row.levels.sl))
  }

  function LoadedLimit(slot: Slot, row: LimitRow): LimitView {
    LimitView(slot, row.terms.isLong, Loaded(row.levels.limitPrice))
  }

  function LoadedTrades(rows: map<Slot, TradeRow>, pairs: map<int, uint32>): map<Slot, TradeView> {
    map s | s in rows :: LoadedTrade(s, rows[s], pairs)
  }

  function LoadedLimits(rows: map<Slot, LimitRow>): map<Slot, LimitView> {
    map s | s in rows :: LoadedLimit(s, rows[s])
  }

  method LoadTrade(state: TradeState, view: TradeView)
    requires state.Valid()
    modifies state`trades
    ensures state.Valid() && state.Limits() == old(state.Limits())
    ensures state.Trades() == old(state.Trades())[view.key := view]
  {
    var entry := new TradeEntry(view);
    state.trades := state.trades[view.key := entry];
  }

  method LoadLimit(state: TradeState, view: LimitView)
    requires state.Valid()
    modifies state`limits
    ensures state.Valid() && state.Trades() == old(state.Trades())
    ensures state.Limits() == old(state.Limits())[view.key := view]
  {
    var entry := new LimitEntry(view);
    state.limits := state.limits[view.key := entry];
  }

  lemma OneMoreTrade(before: map<Slot, TradeView>, done: map<Slot, TradeRow>, slot: Slot, row: TradeRow, pairs: map<int, uint32>)
    ensures before + LoadedTrades(done[slot := row], pairs)
         == (before + LoadedTrades(done, pairs))[slot := LoadedTrade(slot, row, pairs)]
  {
  }

  lemma OneMoreLimit(before: map<Slot, LimitView>, done: map<Slot, LimitRow>, slot: Slot, row: LimitRow)
    ensures before + LoadedLimits(done[slot := row]) == (before + LoadedLimits(done))[slot := LoadedLimit(slot, row)]
  {
  }

  method LoadFromDB(state: TradeState, rows: map<Slot, TradeRow>, limits: map<Slot, LimitRow>, pairs: map<int, uint32>)
    requires state.Valid()
    modifies state`trades, state`limits
    ensures state.Valid()
    ensures state.Trades() == old(state.Trades()) + LoadedTrades(rows, pairs)
    ensures state.Limits() == old(state.Limits()) + LoadedLimits(limits)
  {
    LoadTradesFromDB(state, rows, pairs);
    LoadLimitsFromDB(state, limits);
  }

  method LoadTradesFromDB(state: TradeState, rows: map<Slot, TradeRow>, pairs: map<int, uint32>)
    requires state.Valid()
    modifies state`trades
    ensures state.Valid() && state.Limits() == old(state.Limits())
    ensures state.Trades() == old(state.Trades()) + LoadedTrades(rows, pairs)
  {
    var todo := rows.Keys;
    ghost var done: map<Slot, TradeRow> := map[];
    while todo != {}
      invariant todo <= rows.Keys && done.Keys == rows.Keys - todo
      invariant forall s <- done :: done[s] == rows[s]
      invariant state.Valid() && state.Limits() == old(state.Limits())
      invariant state.Trades() == old(state.Trades()) + LoadedTrades(done, pairs)
      decreases todo
    {
      var slot :| slot in todo;
      OneMoreTrade(old(state.Trades()), done, slot, rows[slot], pairs);
      LoadTrade(state, LoadedTrade(slot, rows[slot], pairs));
      todo, done := todo - {slot}, done[slot := rows[slot]];
    }
    assert done == rows;
  }

  method LoadLimitsFromDB(state: TradeState, rows: map<Slot, LimitRow>)
    requires state.Valid()
    modifies state`limits
    ensures state.Valid() && state.Trades() == old(state.Trades())
    ensures state.Limits() == old(state.Limits()) + LoadedLimits(rows)
  {
    var todo := rows.Keys;
    ghost var done: map<Slot, LimitRow> := map[];
    while todo != {}
      invariant todo <= rows.Keys && done.Keys == rows.Keys - todo
      invariant forall s <- done :: done[s] == rows[s]
      invariant state.Valid() && state.Trades() == old(state.Trades())
      invariant state.Limits() == old(state.Limits()) + LoadedLimits(done)
      decreases todo
    {
      var slot :| slot in todo;
      OneMoreLimit(old(state.Limits()), done, slot, rows[slot]);
      LoadLimit(state, LoadedLimit(slot, rows[slot]));
      todo, done := todo - {slot}, done[slot := rows[slot]];
    }
    assert done == rows;
  }

  // ----- Compared with the keeper that was fed -----

  ghost predicate DefaultThresholds(rows: map<Slot, TradeRow>) {
    forall s <- rows :: rows[s].origin.liqThresholdP == 90
  }

  lemma {:induction false} ThresholdsStayDefault(rows: map<Slot, TradeRow>, cmds: seq<TradeCmd>)
    requires DefaultThresholds(rows)
    requires forall cmd <- cmds :: cmd.At? && cmd.op.Open? ==> cmd.op.row.origin.liqThresholdP == 90
    ensures DefaultThresholds(Run(Upsert, rows, cmds))
    decreases |cmds|
  {
    if cmds != [] {
      assert cmds[0] in cmds;
      ThresholdsStayDefault(Apply(Upsert, rows, cmds[0]), cmds[1..]);
    }
  }

  /** A loaded entry is the fed one exactly if its pair's threshold is 90 percent and it could be priced at the open. */
  lemma LoadedTradeIsFedIff(slot: Slot, row: TradeRow, pairs: map<int, uint32>)
    requires row.terms.liqPrice == OrZero(RepricedOpen(row.terms))
    ensures LoadedTrade(slot, row, pairs) == InKeeper(slot, row)
       <==> ThresholdOf(slot, row, pairs) == 90 && row.terms.collateral != 0 && row.terms.leverage != 0
  {
    var t := row.terms;
    PrintRoundTrip(t.collateral);
    PrintRoundTrip(t.openPrice);
    PrintRoundTrip(t.accRolloverOpen);
    PrintRoundTrip(t.accFundingOpen);
    PrintRoundTrip(t.liqPrice);
    PrintRoundTrip(row.levels.tp);
    PrintRoundTrip(row.levels.sl);
  }

  lemma SameTradesIff(rows: map<Slot, TradeRow>, pairs: map<int, uint32>)
    requires Priced(rows)
    ensures LoadedTrades(rows, pairs) == KeeperTrades(rows)
       <==> forall s <- rows :: ThresholdOf(s, rows[s], pairs) == 90 && rows[s].terms.collateral != 0 && rows[s].terms.leverage != 0
  {
    forall s | s in rows
      ensures LoadedTrades(rows, pairs)[s] == KeeperTrades(rows)[s]
         <==> ThresholdOf(s, rows[s], pairs) == 90 && rows[s].terms.collateral != 0 && rows[s].terms.leverage != 0
    {
      LoadedTradeIsFedIff(s, rows[s], pairs);
    }
  }

  lemma SameLimits(rows: map<Slot, LimitRow>)
    ensures LoadedLimits(rows) == KeeperLimits(rows)
  {
    forall s | s in rows
      ensures LoadedLimit(s, rows[s]) == LimitInKeeper(s, rows[s])
    {
      PrintRoundTrip(rows[s].levels.limitPrice);
    }
  }

  /**
   A restarted keeper holds what the fed one holds if and only if every live trade's pair is
   configured at 90 percent or not at all, and every live trade could be priced at the open.
   */
  lemma RestartedIsFedIff(log: seq<Event>, upTo: nat, pairs: map<int, uint32>)
    requires upTo <= |log| && forall e <- log :: Enriched(e)
    ensures var once := Once(log, upTo);
            && LoadedLimits(once.limits) == KeeperLimits(once.limits)
            && (LoadedTrades(once.trades, pairs) == KeeperTrades(once.trades) <==>
                forall s <- once.trades ::
                  && (s.pair in pairs ==> pairs[s.pair] == 90)
                  && once.trades[s].terms.collateral != 0 && once.trades[s].terms.leverage != 0)
  {
    var prefix := log[..upTo];
    LiveTablesAreRuns(EMPTY, prefix);
    RowsStayPriced(map[], prefix);
    ThresholdsStayDefault(map[], TradeCmds(prefix));
    SameTradesIff(Once(log, upTo).trades, pairs);
    SameLimits(Once(log, upTo).limits);
  }
}
