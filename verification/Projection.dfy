/** What one event does to the projection tables, as a function on their contents. */
module Projection {
  import opened Wrappers
  import opened Events
  import opened SlotTables
  import opened CloseReasons
  import FeeMath

  const DEFAULT_LIQ_THRESHOLD: uint32 := 90

  // ----- trades and limit_orders -----

  datatype TradeTerms = TradeTerms(
    isLong: bool, leverage: uint32, collateral: int, openPrice: int,
    accRolloverOpen: int, accFundingOpen: int, liqPrice: int, openFee: int)

  datatype Stops = Stops(tp: int, sl: int)

  datatype TradeOrigin = TradeOrigin(liqThresholdP: uint32, openedAt: int, openedTx: string)

  datatype LimitTerms = LimitTerms(isLong: bool, leverage: uint32, collateral: int)

  datatype LimitLevels = LimitLevels(limitPrice: int, tp: int, sl: int)

  datatype LimitOrigin = LimitOrigin(placedAt: int, placedTx: string)

  type TradeRow = Row<TradeTerms, Stops, TradeOrigin>
  type LimitRow = Row<LimitTerms, LimitLevels, LimitOrigin>
  type TradeCmd = Cmd<Slot, TradeTerms, Stops, TradeOrigin>
  type LimitCmd = Cmd<Slot, LimitTerms, LimitLevels, LimitOrigin>

  /** The liquidation price stored when a trade opens: no fees yet, default threshold. */
  function OpeningLiqPrice(t: Trade): Option<int> {
    match FeeMath.LiquidationPrice(t.openPrice, t.isLong, t.collateral, t.leverage, None, None, DEFAULT_LIQ_THRESHOLD)
    case Ok(liq) => Some(liq)
    case Err(_) => None
  }

  function OpenedRow(e: Event): TradeRow
    requires e.trade.Some?
  {
    var t := e.trade.value;
    Row(TradeTerms(t.isLong, t.leverage, OrZero(t.collateral), OrZero(t.openPrice),
                   OrZero(t.accRolloverOpen), OrZero(t.accFundingOpen), OrZero(OpeningLiqPrice(t)), OrZero(e.openFee)),
        Stops(OrZero(t.tpPrice), OrZero(t.slPrice)),
        TradeOrigin(DEFAULT_LIQ_THRESHOLD, e.at, e.txHash))
  }

  function PlacedRow(e: Event): LimitRow
    requires e.limit.Some?
  {
    var l := e.limit.value;
    Row(LimitTerms(l.isLong, l.leverage, OrZero(l.collateral)),
        LimitLevels(OrZero(l.limitPrice), OrZero(l.tpPrice), OrZero(l.slPrice)),
        LimitOrigin(e.at, e.txHash))
  }

  /** The event as the trades table sees it. */
  function ToTradeCmd(e: Event): TradeCmd {
    if e.source != PM then Nop
    else if e.topic.Opened? then
      if e.trade.None? || e.tradeIndex.None? then Nop else At(OpenedSlot(e), Open(OpenedRow(e)))
    else if e.topic.UpdatedTpSl? then
      if e.tradeIndex.None? || e.tpPrice.None? || e.slPrice.None? then Nop
      else At(TradeSlot(e), Update(Stops(e.tpPrice.value, e.slPrice.value)))
    else if EndsTrade(e) then
      if e.tradeIndex.None? then Nop else At(TradeSlot(e), Close)
    else Nop
  }

  /** The event as the limit_orders table sees it. */
  function ToLimitCmd(e: Event): LimitCmd {
    if e.source != PM then Nop
    else if e.topic.Placed? then
      if e.limit.None? || e.limitIndex.None? then Nop else At(PlacedSlot(e), Open(PlacedRow(e)))
    else if e.topic.UpdatedLimit? then
      if e.limitIndex.None? || e.limitPrice.None? then Nop
      else At(LimitSlot(e), Update(LimitLevels(e.limitPrice.value, OrZero(e.tpPrice), OrZero(e.slPrice))))
    else if EndsLimit(e) then
      if e.limitIndex.None? then Nop else At(LimitSlot(e), Close)
    else Nop
  }

  // ----- trade_history and limit_order_history -----

  /** trade_history admits one row per slot and closing transaction. */
  datatype HistoryKey = HistoryKey(slot: Slot, closedTx: string)

  datatype HistoryRow = HistoryRow(
    isLong: bool, leverage: uint32, collateral: int, openPrice: int, accRolloverOpen: int, accFundingOpen: int,
    openFee: int, stops: Stops, openedAt: int, openedTx: string,
    closePrice: Option<int>, realizedPnl: Option<int>, closeFee: Option<int>, reason: Reason, closedAt: int)

  function ReasonFor(row: TradeRow, e: Event): Reason {
    if e.topic.Liq? then Liquidation
    else if e.topic.TpSlExecuted? then ExecutedReason(row.terms.isLong, row.levels.tp, row.levels.sl, e.closePrice)
    else Manual
  }

  function ClosedRow(row: TradeRow, e: Event): HistoryRow {
    var t := row.terms;
    HistoryRow(t.isLong, t.leverage, t.collateral, t.openPrice, t.accRolloverOpen, t.accFundingOpen,
               t.openFee, row.levels, row.origin.openedAt, row.origin.openedTx,
               e.closePrice, e.netPnl, e.closeFee, ReasonFor(row, e), e.at)
  }

  /** Closing a live trade files it, unless the same closing transaction has already filed that slot. */
  function FileTrade(trades: map<Slot, TradeRow>, history: map<HistoryKey, HistoryRow>, e: Event): map<HistoryKey, HistoryRow> {
    if e.source != PM || !EndsTrade(e) || e.tradeIndex.None? || TradeSlot(e) !in trades then history
    else
      var key := HistoryKey(TradeSlot(e), e.txHash);
      if key in history then history else history[key := ClosedRow(trades[key.slot], e)]
  }

  datatype LimitHistoryRow = LimitHistoryRow(slot: Slot, order: LimitRow, resolution: Topic, resolvedAt: int, resolvedTx: string)

  /** Resolving a live limit order files it every time: this history has no uniqueness guard. */
  function FileLimit(limits: map<Slot, LimitRow>, history: seq<LimitHistoryRow>, e: Event): seq<LimitHistoryRow> {
    if e.source != PM || !EndsLimit(e) || e.limitIndex.None? || LimitSlot(e) !in limits then history
    else history + [LimitHistoryRow(LimitSlot(e), limits[LimitSlot(e)], e.topic, e.at, e.txHash)]
  }

  // ----- vault_positions and pair_oi -----

  datatype VaultRow = VaultRow(shares: int, totalDeposited: int, totalWithdrawn: int, lastActionAt: int)

  function ApplyVault(vault: map<string, VaultRow>, e: Event): map<string, VaultRow> {
    if e.source != Vault || !(e.topic.Deposit? || e.topic.Withdraw?) then vault
    else
      var shares, assets := OrZero(e.shares), OrZero(e.assets);
      var cur := Lookup(vault, e.trader);
      var row :=
        match (cur, e.topic)
        case (None, Deposit) => VaultRow(shares, assets, 0, e.at)
        case (None, _) => VaultRow(-shares, 0, assets, e.at)
        case (Some(r), Deposit) => VaultRow(r.shares + shares, r.totalDeposited + assets, r.totalWithdrawn, e.at)
        case (Some(r), _) => VaultRow(r.shares - shares, r.totalDeposited, r.totalWithdrawn + assets, e.at);
      vault[e.trader := row]
  }

  datatype OiRow = OiRow(long: int, short: int, updatedAt: int)

  function Greatest0(x: int): nat {
    if x > 0 then x else 0
  }

  predicate MovesOi(e: Event) {
    && e.source == Registry && (e.topic.OiAdd? || e.topic.OiSub?)
    && e.pairIndex.Some? && e.oiIsLong.Some? && e.amount.Some?
  }

  /** The signed change of one side of a pair's open interest. */
  function OiDelta(e: Event, isLong: bool): int
    requires MovesOi(e)
  {
    if e.oiIsLong.value != isLong then 0
    else if e.topic.OiAdd? then e.amount.value
    else -e.amount.value
  }

  function ApplyOi(oi: map<int, OiRow>, e: Event): map<int, OiRow> {
    if !MovesOi(e) then oi
    else
      var cur := Lookup(oi, e.pairIndex.value);
      var row :=
        if cur.Some? then
          OiRow(Greatest0(cur.value.long + OiDelta(e, true)), Greatest0(cur.value.short + OiDelta(e, false)), e.at)
        else if e.topic.OiAdd? then
          OiRow(Greatest0(OiDelta(e, true)), Greatest0(OiDelta(e, false)), e.at)
        else
          OiRow(0, 0, e.at);
      oi[e.pairIndex.value := row]
  }

  // ----- all tables -----

  datatype Tables = Tables(
    trades: map<Slot, TradeRow>,
    history: map<HistoryKey, HistoryRow>,
    limits: map<Slot, LimitRow>,
    limitHistory: seq<LimitHistoryRow>,
    vault: map<string, VaultRow>,
    oi: map<int, OiRow>
  )

  const EMPTY := Tables(map[], map[], map[], [], map[], map[])

  function ApplyEvent(t: Tables, e: Event): Tables {
    Tables(
      Apply(Upsert, t.trades, ToTradeCmd(e)),
      FileTrade(t.trades, t.history, e),
      Apply(Upsert, t.limits, ToLimitCmd(e)),
      FileLimit(t.limits, t.limitHistory, e),
      ApplyVault(t.vault, e),
      ApplyOi(t.oi, e)
    )
  }

  function ApplyAll(t: Tables, log: seq<Event>): Tables
    decreases |log|
  {
    if log == [] then t else ApplyAll(ApplyEvent(t, log[0]), log[1..])
  }

  function TradeCmds(log: seq<Event>): seq<TradeCmd> {
    seq(|log|, i requires 0 <= i < |log| => ToTradeCmd(log[i]))
  }

  function LimitCmds(log: seq<Event>): seq<LimitCmd> {
    seq(|log|, i requires 0 <= i < |log| => ToLimitCmd(log[i]))
  }

  /** Trades are opened on free slots and updated or closed on occupied ones; likewise limit orders. */
  ghost predicate WellFormedLog(log: seq<Event>) {
    WellFormed(TradeCmds(log)) && WellFormed(LimitCmds(log))
  }

  lemma {:induction false} ApplyAllConcat(t: Tables, a: seq<Event>, b: seq<Event>)
    ensures ApplyAll(t, a + b) == ApplyAll(ApplyAll(t, a), b)
    decreases |a|
  {
    if a == [] {
      assert a + b == b;
    } else {
      assert (a + b)[1..] == a[1..] + b;
      ApplyAllConcat(ApplyEvent(t, a[0]), a[1..], b);
    }
  }

  /** The live tables of the projection are runs of the generic slot table. */
  lemma {:induction false} LiveTablesAreRuns(t: Tables, log: seq<Event>)
    ensures ApplyAll(t, log).trades == Run(Upsert, t.trades, TradeCmds(log))
    ensures ApplyAll(t, log).limits == Run(Upsert, t.limits, LimitCmds(log))
    decreases |log|
  {
    if log != [] {
      assert TradeCmds(log)[1..] == TradeCmds(log[1..]);
      assert LimitCmds(log)[1..] == LimitCmds(log[1..]);
      LiveTablesAreRuns(ApplyEvent(t, log[0]), log[1..]);
    }
  }
}
