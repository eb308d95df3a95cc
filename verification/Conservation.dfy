/** No trade is lost, duplicated or altered: where every opened trade ends up. */
module Conservation {
  import opened Wrappers
  import opened Events
  import opened SlotTables
  import opened Projection
  import opened Deliveries
  import opened CrashConvergence
  import opened CloseReasons

  predicate OpensTrade(e: Event) {
    e.source == PM && e.topic.Opened? && e.trade.Some? && e.tradeIndex.Some?
  }

  /** The routing keys of the event name the slot; without a pair index they name pair zero. */
  predicate NamesTrade(e: Event, slot: Slot) {
    && e.trader == slot.trader && e.tradeIndex == Some(slot.index)
    && (e.pairIndex == Some(slot.pair) || (e.pairIndex.None? && slot.pair == 0))
  }

  predicate Closes(e: Event, slot: Slot) {
    ClosesTrade(e) && NamesTrade(e, slot)
  }

  predicate UpdatesStops(e: Event, slot: Slot) {
    e.source == PM && e.topic.UpdatedTpSl? && NamesTrade(e, slot) && e.tpPrice.Some? && e.slPrice.Some?
  }

  /** The slot an opening event creates: the trader and index it is routed by, and the pair of the trade itself. */
  function BornAt(e: Event): Slot
    requires OpensTrade(e)
  {
    Slot(e.trader, e.trade.value.pairIndex, e.tradeIndex.value)
  }

  /** No two closes of a slot share a transaction. */
  predicate DistinctCloses(log: seq<Event>) {
    forall i, j | 0 <= i < j < |log| && ClosesTrade(log[i]) && Closes(log[j], TradeSlot(log[i])) ::
      log[i].txHash != log[j].txHash
  }

  /** No earlier close of the slot shares this close's transaction. */
  predicate FirstInTransaction(log: seq<Event>, at: nat)
    requires at < |log| && ClosesTrade(log[at])
  {
    forall i | 0 <= i < at && Closes(log[i], TradeSlot(log[at])) :: log[i].txHash != log[at].txHash
  }

  /** The first close of the trade opened at `birth`, among the first n events. */
  function ClosedAt(log: seq<Event>, birth: nat, n: nat): (at: Option<nat>)
    requires birth < n <= |log| && OpensTrade(log[birth])
    ensures at.Some? ==> birth < at.value < n && Closes(log[at.value], BornAt(log[birth]))
  {
    if n == birth + 1 then None
    else
      var earlier := ClosedAt(log, birth, n - 1);
      if earlier.Some? then earlier
      else if Closes(log[n - 1], BornAt(log[birth])) then Some(n - 1)
      else None
  }

  /** The tp and sl set last between the open and the first n events. */
  function LatestStops(log: seq<Event>, birth: nat, n: nat): Stops
    requires birth < n <= |log| && OpensTrade(log[birth])
  {
    if n == birth + 1 then
      var t := log[birth].trade.value;
      Stops(OrZero(t.tpPrice), OrZero(t.slPrice))
    else if UpdatesStops(log[n - 1], BornAt(log[birth])) then Stops(log[n - 1].tpPrice.value, log[n - 1].slPrice.value)
    else LatestStops(log, birth, n - 1)
  }

  /** The opened trade's row as it should stand after n events, had it not been closed. */
  function RowAfter(log: seq<Event>, birth: nat, n: nat): TradeRow
    requires birth < n <= |log| && OpensTrade(log[birth])
  {
    OpenedRow(log[birth]).(levels := LatestStops(log, birth, n))
  }

  lemma OpenedSlotIsFree(log: seq<Event>, at: nat)
    requires WellFormedLog(log) && at < |log| && OpensTrade(log[at])
    ensures BornAt(log[at]) !in Once(log, at).trades
  {
    var cmds, slot := TradeCmds(log), BornAt(log[at]);
    LiveTablesAreRuns(EMPTY, log[..at]);
    assert TradeCmds(log[..at]) == cmds[..at];
    RunIsPerSlot(Upsert, map[], cmds[..at], slot);
    WellFormedSplits(Upsert, cmds, at, slot);
    assert cmds[at..][0] == ToTradeCmd(log[at]);
    assert OpsOn(cmds[at..], slot)[0].Open?;
  }

  /** A history row stands for a close that has happened. */
  lemma {:induction false} FiledTradeWasClosed(log: seq<Event>, n: nat, key: HistoryKey)
    requires n <= |log| && key in Once(log, n).history
    ensures exists at | 0 <= at < n :: Closes(log[at], key.slot) && log[at].txHash == key.closedTx
  {
    if n > 0 {
      OnceStep(log, n - 1);
      if key in Once(log, n - 1).history {
        FiledTradeWasClosed(log, n - 1, key);
      } else {
        assert Closes(log[n - 1], key.slot);
      }
    }
  }

  /** The key of a close is taken exactly if the slot was closed before in the same transaction. */
  lemma CloseIsNotYetFiledIff(log: seq<Event>, at: nat)
    requires WellFormedLog(log) && at < |log| && ClosesTrade(log[at])
    ensures HistoryKey(TradeSlot(log[at]), log[at].txHash) !in Once(log, at).history <==> FirstInTransaction(log, at)
  {
    var key := HistoryKey(TradeSlot(log[at]), log[at].txHash);
    if key in Once(log, at).history {
      FiledTradeWasClosed(log, at, key);
    }
    if !FirstInTransaction(log, at) {
      var i :| 0 <= i < at && Closes(log[i], key.slot) && log[i].txHash == key.closedTx;
      ClosedTradeIsFiled(log, i, at);
    }
  }

  /** One event on a live trade: it is filed, gets new stops, or stays as it is. */
  lemma LiveTradeStep(t: Tables, e: Event, slot: Slot, row: TradeRow)
    requires Lookup(t.trades, slot) == Some(row)
    requires OpensTrade(e) ==> BornAt(e) != slot
    ensures Closes(e, slot) && HistoryKey(slot, e.txHash) !in t.history ==> Lookup(ApplyEvent(t, e).history, HistoryKey(slot, e.txHash)) == Some(ClosedRow(row, e))
    ensures !Closes(e, slot) ==>
              Lookup(ApplyEvent(t, e).trades, slot) ==
              Some(if UpdatesStops(e, slot) then row.(levels := Stops(e.tpPrice.value, e.slPrice.value)) else row)
  {
  }

  lemma FiledTradeStep(t: Tables, e: Event, key: HistoryKey)
    requires key in t.history
    ensures Lookup(ApplyEvent(t, e).history, key) == Lookup(t.history, key)
  {
  }

  /**
   The trade opened at `birth` is live, with the stops set last, until its first close, and from
   then on in the history under that close, with its opening data intact - unless the same
   transaction had closed the slot before.
   */
  predicate Kept(log: seq<Event>, birth: nat, n: nat)
    requires birth < n <= |log| && OpensTrade(log[birth])
  {
    match ClosedAt(log, birth, n)
    case None => Lookup(Once(log, n).trades, BornAt(log[birth])) == Some(RowAfter(log, birth, n))
    case Some(c) =>
      FirstInTransaction(log, c) ==>
      Lookup(Once(log, n).history, HistoryKey(BornAt(log[birth]), log[c].txHash)) == Some(ClosedRow(RowAfter(log, birth, c), log[c]))
  }

  lemma OpeningIsKept(log: seq<Event>, birth: nat)
    requires WellFormedLog(log) && birth < |log| && OpensTrade(log[birth])
    ensures Kept(log, birth, birth + 1)
  {
    OnceStep(log, birth);
    OpenedSlotIsFree(log, birth);
  }

  lemma LiveTradeIsKept(log: seq<Event>, birth: nat, n: nat)
    requires WellFormedLog(log) && birth < n < |log| && OpensTrade(log[birth])
    requires ClosedAt(log, birth, n).None? && Kept(log, birth, n)
    ensures Kept(log, birth, n + 1)
  {
    OnceStep(log, n);
    if Closes(log[n], BornAt(log[birth])) {
      CloseIsNotYetFiledIff(log, n);
    }
    if OpensTrade(log[n]) {
      OpenedSlotIsFree(log, n);
    }
    LiveTradeStep(Once(log, n), log[n], BornAt(log[birth]), RowAfter(log, birth, n));
  }

  lemma FiledTradeIsKept(log: seq<Event>, birth: nat, n: nat)
    requires birth < n < |log| && OpensTrade(log[birth])
    requires ClosedAt(log, birth, n).Some? && Kept(log, birth, n)
    ensures Kept(log, birth, n + 1)
  {
    OnceStep(log, n);
    var c := ClosedAt(log, birth, n).value;
    if FirstInTransaction(log, c) {
      FiledTradeStep(Once(log, n), log[n], HistoryKey(BornAt(log[birth]), log[c].txHash));
    }
  }

  /** Every opened trade is found again. */
  lemma {:induction false} OpenedTradeIsKept(log: seq<Event>, birth: nat, n: nat)
    requires WellFormedLog(log)
    requires birth < n <= |log| && OpensTrade(log[birth])
    ensures Kept(log, birth, n)
    decreases n
  {
    if n == birth + 1 {
      OpeningIsKept(log, birth);
    } else {
      OpenedTradeIsKept(log, birth, n - 1);
      if ClosedAt(log, birth, n - 1).None? {
        LiveTradeIsKept(log, birth, n - 1);
      } else {
        FiledTradeIsKept(log, birth, n - 1);
      }
    }
  }

  /** In that case the trade is lost: its live row goes, and the history keeps the earlier one. */
  lemma CollidingCloseLosesItsTrade(log: seq<Event>, at: nat)
    requires WellFormedLog(log) && at < |log| && ClosesTrade(log[at]) && !FirstInTransaction(log, at)
    ensures TradeSlot(log[at]) in Once(log, at).trades && TradeSlot(log[at]) !in Once(log, at + 1).trades
    ensures Once(log, at + 1).history == Once(log, at).history
  {
    ClosedTradeIsLive(log, at);
    CloseIsNotYetFiledIff(log, at);
    OnceStep(log, at);
  }

  /** What a live row shows, in terms of the opening event and the latest stops. */
  predicate TellsOpening(row: TradeRow, open: Event, stops: Stops)
    requires OpensTrade(open)
  {
    var t := open.trade.value;
    && row.terms.isLong == t.isLong && row.terms.leverage == t.leverage
    && row.terms.collateral == OrZero(t.collateral) && row.terms.openPrice == OrZero(t.openPrice)
    && row.terms.accRolloverOpen == OrZero(t.accRolloverOpen) && row.terms.accFundingOpen == OrZero(t.accFundingOpen)
    && row.terms.openFee == OrZero(open.openFee)
    && row.origin.openedTx == open.txHash && row.origin.openedAt == open.at && row.origin.liqThresholdP == 90
    && row.levels == stops
  }

  /**
   The reason an executed stop is filed under: with a close price, whether that price hit the stop,
   provided the stop is unset or read sharply; without one, whether a take-profit was set.
   */
  predicate TellsExecution(reason: Reason, isLong: bool, stops: Stops, close: Event) {
    close.topic == TpSlExecuted ==>
      match close.closePrice
      case None => reason == if stops.tp == 0 then StopLoss else TakeProfit
      case Some(price) =>
        && (reason == StopLoss || reason == TakeProfit)
        && (stops.sl <= 0 || ReadsSharply(isLong, stops.sl) ==> (reason == StopLoss <==> StoppedOut(isLong, stops.sl, price)))
  }

  lemma ReasonTellsExecution(isLong: bool, stops: Stops, close: Event)
    requires close.topic == TpSlExecuted
    ensures TellsExecution(ExecutedReason(isLong, stops.tp, stops.sl, close.closePrice), isLong, stops, close)
  {
    match close.closePrice
    case None => ReasonWithoutPrice(isLong, stops.tp, stops.sl);
    case Some(price) =>
      if stops.sl <= 0 || ReadsSharply(isLong, stops.sl) {
        SharpStopIsRight(isLong, stops.tp, stops.sl, price);
      }
  }

  /** What a history row shows, in terms of the opening and the closing event. */
  predicate TellsWholeStory(row: HistoryRow, open: Event, stops: Stops, close: Event)
    requires OpensTrade(open)
  {
    var t := open.trade.value;
    && row.isLong == t.isLong && row.leverage == t.leverage
    && row.collateral == OrZero(t.collateral) && row.openPrice == OrZero(t.openPrice)
    && row.accRolloverOpen == OrZero(t.accRolloverOpen) && row.accFundingOpen == OrZero(t.accFundingOpen)
    && row.openFee == OrZero(open.openFee)
    && row.openedTx == open.txHash && row.openedAt == open.at
    && row.stops == stops
    && TellsExecution(row.reason, t.isLong, stops, close)
    && row.closePrice == close.closePrice && row.realizedPnl == close.netPnl && row.closeFee == close.closeFee
    && row.closedAt == close.at
    && (close.topic.Closed? ==> row.reason == Manual) && (close.topic.Liq? ==> row.reason == Liquidation)
  }

  /**
   Conservation of the data, told from the events alone: column by column, a live row is its
   opening event with the latest stops, and a history row its opening and closing events.
   */
  lemma RowsTellTheirEvents(log: seq<Event>, birth: nat, n: nat)
    requires WellFormedLog(log)
    requires birth < n <= |log| && OpensTrade(log[birth])
    ensures var slot := BornAt(log[birth]);
            match ClosedAt(log, birth, n)
            case None =>
              && slot in Once(log, n).trades
              && TellsOpening(Once(log, n).trades[slot], log[birth], LatestStops(log, birth, n))
            case Some(c) => FirstInTransaction(log, c) ==>
              && HistoryKey(slot, log[c].txHash) in Once(log, n).history
              && TellsWholeStory(Once(log, n).history[HistoryKey(slot, log[c].txHash)], log[birth], LatestStops(log, birth, c), log[c])
  {
    OpenedTradeIsKept(log, birth, n);
    match ClosedAt(log, birth, n)
    case None =>
    case Some(c) =>
      if log[c].topic == TpSlExecuted {
        ReasonTellsExecution(log[birth].trade.value.isLong, LatestStops(log, birth, c), log[c]);
      }
  }

  // ----- The reasons in trade_history -----

  /** Executed at this price, the trade is filed under the reason that is true of it. */
  predicate FiledRightly(t: Tables, slot: Slot, execution: Event, isLong: bool, sl: int, price: int) {
    var key, filed := HistoryKey(slot, execution.txHash), ApplyEvent(t, execution.(closePrice := Some(price))).history;
    key in filed && filed[key].reason == if StoppedOut(isLong, sl, price) then StopLoss else TakeProfit
  }

  ghost predicate AlwaysFiledRightly(t: Tables, slot: Slot, execution: Event, isLong: bool, sl: int) {
    forall price: int :: FiledRightly(t, slot, execution, isLong, sl, price)
  }

  /** An executed stop of the slot, in a transaction that has not closed it before. */
  predicate Executes(t: Tables, slot: Slot, e: Event) {
    e.topic == TpSlExecuted && Closes(e, slot) && HistoryKey(slot, e.txHash) !in t.history
  }

  lemma FiledRightlyIff(t: Tables, slot: Slot, row: TradeRow, execution: Event, price: int)
    requires Lookup(t.trades, slot) == Some(row) && Executes(t, slot, execution)
    ensures FiledRightly(t, slot, execution, row.terms.isLong, row.levels.sl, price)
       <==> ReasonIsRight(row.terms.isLong, row.levels.tp, row.levels.sl, price)
  {
    LiveTradeStep(t, execution.(closePrice := Some(price)), slot, row);
  }

  /**
   While a trade is open, its execution is filed rightly at every price if and only if the stop set
   last, as it is read, separates itself from the next price beyond it, or no stop is set.
   */
  lemma ExecutionsAreFiledRightlyIff(log: seq<Event>, birth: nat, n: nat, execution: Event)
    requires WellFormedLog(log) && birth < n <= |log| && OpensTrade(log[birth]) && ClosedAt(log, birth, n).None?
    requires Executes(Once(log, n), BornAt(log[birth]), execution)
    ensures var isLong, sl := log[birth].trade.value.isLong, LatestStops(log, birth, n).sl;
            AlwaysFiledRightly(Once(log, n), BornAt(log[birth]), execution, isLong, sl) <==> sl <= 0 || ReadsSharply(isLong, sl)
  {
    OpenedTradeIsKept(log, birth, n);
    var t, slot, row := Once(log, n), BornAt(log[birth]), RowAfter(log, birth, n);
    forall price: int
      ensures FiledRightly(t, slot, execution, row.terms.isLong, row.levels.sl, price)
         <==> ReasonIsRight(row.terms.isLong, row.levels.tp, row.levels.sl, price)
    {
      FiledRightlyIff(t, slot, row, execution, price);
    }
    EveryReasonIsRightIff(row.terms.isLong, row.levels.tp, row.levels.sl);
  }

  /** For a stop below 2^64 - 1 that is so if and only if the stop is unset or a float64. */
  lemma FloatStopsAreFiledRightlyIff(log: seq<Event>, birth: nat, n: nat, execution: Event)
    requires WellFormedLog(log) && birth < n <= |log| && OpensTrade(log[birth]) && ClosedAt(log, birth, n).None?
    requires Executes(Once(log, n), BornAt(log[birth]), execution)
    requires LatestStops(log, birth, n).sl < 0xFFFF_FFFF_FFFF_FFFF
    ensures var isLong, sl := log[birth].trade.value.isLong, LatestStops(log, birth, n).sl;
            AlwaysFiledRightly(Once(log, n), BornAt(log[birth]), execution, isLong, sl) <==> sl <= 0 || Fits(sl, 53)
  {
    ExecutionsAreFiledRightlyIff(log, birth, n, execution);
    FloatStopsAreRightIff(log[birth].trade.value.isLong, LatestStops(log, birth, n).tp, LatestStops(log, birth, n).sl);
    EveryReasonIsRightIff(log[birth].trade.value.isLong, LatestStops(log, birth, n).tp, LatestStops(log, birth, n).sl);
  }

  function Opens(log: seq<Event>): nat {
    if log == [] then 0 else Opens(log[..|log| - 1]) + if OpensTrade(log[|log| - 1]) then 1 else 0
  }

  lemma OpensStep(log: seq<Event>, at: nat)
    requires at < |log|
    ensures Opens(log[..at + 1]) == Opens(log[..at]) + if OpensTrade(log[at]) then 1 else 0
  {
    assert log[..at + 1][..at] == log[..at];
  }

  function RowCount(t: Tables): nat {
    |t.trades| + |t.history|
  }

  predicate Collides(t: Tables, e: Event) {
    ClosesTrade(e) && HistoryKey(TradeSlot(e), e.txHash) in t.history
  }

  lemma RowCountStep(t: Tables, e: Event)
    requires ClosesTrade(e) ==> TradeSlot(e) in t.trades
    requires OpensTrade(e) ==> BornAt(e) !in t.trades
    ensures var t' := ApplyEvent(t, e);
            RowCount(t') == RowCount(t) + (if OpensTrade(e) then 1 else 0) - if Collides(t, e) then 1 else 0
  {
    var cmd := ToTradeCmd(e);
    if ClosesTrade(e) {
      var rest := t.trades - {TradeSlot(e)};
      assert rest.Keys == t.trades.Keys - {TradeSlot(e)};
    } else if OpensTrade(e) {
    } else if cmd.At? {
      KeysStay(t.trades, cmd.key, cmd.op);
    }
  }

  lemma KeysStay(trades: map<Slot, TradeRow>, slot: Slot, op: Op<TradeTerms, Stops, TradeOrigin>)
    requires op.Update?
    ensures |Apply(Upsert, trades, At(slot, op))| == |trades|
  {
    assert Apply(Upsert, trades, At(slot, op)).Keys == trades.Keys;
    MapSize(Apply(Upsert, trades, At(slot, op)), trades);
  }

  lemma MapSize<K, V>(a: map<K, V>, b: map<K, V>)
    requires a.Keys == b.Keys
    ensures |a| == |b|
  {
    assert |a| == |a.Keys| && |b| == |b.Keys|;
  }

  /** How many closes came after another of their slot in their transaction. */
  function Collisions(log: seq<Event>, n: nat): nat
    requires n <= |log|
  {
    if n == 0 then 0
    else Collisions(log, n - 1) + if ClosesTrade(log[n - 1]) && !FirstInTransaction(log, n - 1) then 1 else 0
  }

  lemma {:induction false} NoCollisionsIff(log: seq<Event>, n: nat)
    requires n <= |log|
    ensures Collisions(log, n) == 0 <==> DistinctCloses(log[..n])
  {
    if n > 0 {
      NoCollisionsIff(log, n - 1);
      var front := log[..n - 1];
      assert forall i | 0 <= i < n - 1 :: front[i] == log[..n][i] == log[i];
      if DistinctCloses(front) && ClosesTrade(log[n - 1]) && FirstInTransaction(log, n - 1) {
        forall i, j | 0 <= i < j < n && ClosesTrade(log[i]) && Closes(log[j], TradeSlot(log[i]))
          ensures log[i].txHash != log[j].txHash
        {
          if j < n - 1 {
            assert front[i] == log[i] && front[j] == log[j];
          }
        }
      }
    }
  }

  /** What is live, what is filed and what collided adds up to what was opened. */
  lemma {:induction false} TradesAddUp(log: seq<Event>, n: nat)
    requires WellFormedLog(log) && n <= |log|
    ensures Opens(log[..n]) == RowCount(Once(log, n)) + Collisions(log, n)
  {
    if n == 0 {
      assert log[..0] == [];
    } else {
      TradesAddUp(log, n - 1);
      var e, before := log[n - 1], Once(log, n - 1);
      if ClosesTrade(e) {
        ClosedTradeIsLive(log, n - 1);
        CloseIsNotYetFiledIff(log, n - 1);
      }
      if OpensTrade(e) {
        OpenedSlotIsFree(log, n - 1);
      }
      RowCountStep(before, e);
      OpensStep(log, n - 1);
      assert Once(log, n) == ApplyEvent(before, e) by {
        OnceStep(log, n - 1);
      }
    }
  }

  /** Live and filed trades together are as many as were opened if and only if no transaction closed a slot twice. */
  lemma TradesAreConservedIff(log: seq<Event>, n: nat)
    requires WellFormedLog(log) && n <= |log|
    ensures Opens(log[..n]) == RowCount(Once(log, n)) <==> DistinctCloses(log[..n])
  {
    TradesAddUp(log, n);
    NoCollisionsIff(log, n);
  }

  /** The same holds of the tables any caught-up delivery leaves. */
  lemma TradesAreConservedAcrossCrashesIff(log: seq<Event>, moves: seq<Move>)
    requires WellFormedLog(log) && Legal(moves, |log|)
    requires Position(moves) == Furthest(moves)
    ensures Furthest(moves) <= |log|
    ensures Opens(log[..Furthest(moves)]) == RowCount(ApplyAll(EMPTY, Delivered(log, moves)))
       <==> DistinctCloses(log[..Furthest(moves)])
  {
    ProjectionsConverge(log, moves);
    TradesAreConservedIff(log, Furthest(moves));
  }
}
