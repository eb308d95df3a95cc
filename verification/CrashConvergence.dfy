/**
 The indexer may be killed at any point and then delivers part of the log again, on top
 of tables that already reflect it. Once it has caught up, the trades, their history and
 the limit orders are what an undisturbed pass over the log leaves.
 */
module CrashConvergence {
  import opened Wrappers
  import opened Events
  import opened SlotTables
  import opened Projection
  import opened Deliveries

  /** The tables after a single pass over a prefix of the log. */
  function Once(log: seq<Event>, upTo: nat): Tables
    requires upTo <= |log|
  {
    ApplyAll(EMPTY, log[..upTo])
  }

  lemma {:induction false} DeliveredCmds(log: seq<Event>, moves: seq<Move>)
    requires Legal(moves, |log|)
    ensures TradeCmds(Delivered(log, moves)) == Delivered(TradeCmds(log), moves)
    ensures LimitCmds(Delivered(log, moves)) == Delivered(LimitCmds(log), moves)
  {
    if moves != [] {
      var front := moves[..|moves| - 1];
      DeliveredCmds(log, front);
      PositionsStayInLog(front, |log|);
    }
  }

  /** Where the delivery stands level with the furthest point, the live tables are exact. */
  lemma LiveTablesConverge(log: seq<Event>, moves: seq<Move>)
    requires WellFormedLog(log) && Legal(moves, |log|)
    requires Position(moves) == Furthest(moves)
    ensures Furthest(moves) <= |log|
    ensures var tables, once := ApplyAll(EMPTY, Delivered(log, moves)), Once(log, Furthest(moves));
            tables.trades == once.trades && tables.limits == once.limits
  {
    PositionsStayInLog(moves, |log|);
    var prefix := log[..Furthest(moves)];
    DeliveredCmds(log, moves);
    LiveTablesAreRuns(EMPTY, Delivered(log, moves));
    LiveTablesAreRuns(EMPTY, prefix);
    assert TradeCmds(prefix) == TradeCmds(log)[..Furthest(moves)];
    assert LimitCmds(prefix) == LimitCmds(log)[..Furthest(moves)];
    DeliveryConverges(Upsert, TradeCmds(log), moves);
    DeliveryConverges(Upsert, LimitCmds(log), moves);
  }

  lemma OnceStep(log: seq<Event>, at: nat)
    requires at < |log|
    ensures Once(log, at + 1) == ApplyEvent(Once(log, at), log[at])
  {
    assert log[..at + 1] == log[..at] + [log[at]];
    ApplyAllConcat(EMPTY, log[..at], [log[at]]);
  }

  /** Manual closes, executed stops and liquidations, if they name a trade. */
  predicate ClosesTrade(e: Event) {
    e.source == PM && (e.topic == Closed || e.topic == TpSlExecuted || e.topic == Liq) && e.tradeIndex.Some?
  }

  /** In a well-formed log, a close finds its trade live. */
  lemma ClosedTradeIsLive(log: seq<Event>, at: nat)
    requires WellFormedLog(log) && at < |log| && ClosesTrade(log[at])
    ensures TradeSlot(log[at]) in Once(log, at).trades
  {
    var cmds, slot := TradeCmds(log), TradeSlot(log[at]);
    LiveTablesAreRuns(EMPTY, log[..at]);
    assert TradeCmds(log[..at]) == cmds[..at];
    RunIsPerSlot(Upsert, map[], cmds[..at], slot);
    WellFormedSplits(Upsert, cmds, at, slot);
    assert cmds[at..][0] == ToTradeCmd(log[at]);
    assert OpsOn(cmds[at..], slot)[0] == Close;
  }

  /** Every close below a point has its history row there. */
  lemma {:induction false} ClosedTradeIsFiled(log: seq<Event>, at: nat, upTo: nat)
    requires WellFormedLog(log) && at < upTo <= |log| && ClosesTrade(log[at])
    ensures HistoryKey(TradeSlot(log[at]), log[at].txHash) in Once(log, upTo).history
    decreases upTo
  {
    OnceStep(log, upTo - 1);
    if at == upTo - 1 {
      ClosedTradeIsLive(log, at);
    } else {
      ClosedTradeIsFiled(log, at, upTo - 1);
    }
  }

  /** Redelivery never adds, changes or removes a history row, at any point of any delivery. */
  lemma {:induction false} HistoryIsUndisturbed(log: seq<Event>, moves: seq<Move>)
    requires WellFormedLog(log) && Legal(moves, |log|)
    ensures Furthest(moves) <= |log|
    ensures ApplyAll(EMPTY, Delivered(log, moves)).history == Once(log, Furthest(moves)).history
  {
    PositionsStayInLog(moves, |log|);
    if moves != [] {
      var front := moves[..|moves| - 1];
      HistoryIsUndisturbed(log, front);
      if moves[|moves| - 1].Advance? {
        PositionsStayInLog(front, |log|);
        var at, goal := Position(front), Furthest(front);
        ApplyAllConcat(EMPTY, Delivered(log, front), [log[at]]);
        if at == goal {
          LiveTablesConverge(log, front);
          OnceStep(log, at);
        } else if ClosesTrade(log[at]) {
          ClosedTradeIsFiled(log, at, goal);
        }
      } else {
        assert Delivered(log, moves) == Delivered(log, front);
      }
    }
  }

  /**
   Crash convergence: for every well-formed log, and every pattern of crashes and resumptions,
   once the furthest point reached has been delivered again the three tables are exact.
   */
  lemma ProjectionsConverge(log: seq<Event>, moves: seq<Move>)
    requires WellFormedLog(log) && Legal(moves, |log|)
    requires Position(moves) == Furthest(moves)
    ensures Furthest(moves) <= |log|
    ensures var tables, once := ApplyAll(EMPTY, Delivered(log, moves)), Once(log, Furthest(moves));
            tables.trades == once.trades && tables.history == once.history && tables.limits == once.limits
  {
    LiveTablesConverge(log, moves);
    HistoryIsUndisturbed(log, moves);
  }

  // ----- limit_order_history, which has no uniqueness guard -----

  /** Executions and cancellations, if they name an order. */
  predicate ResolvesLimit(e: Event) {
    e.source == PM && (e.topic == Executed || e.topic == Canceled) && e.limitIndex.Some?
  }

  /** How many redelivered resolutions found an order live and filed it once more. */
  ghost function Refiled(log: seq<Event>, moves: seq<Move>): nat
    requires Legal(moves, |log|)
  {
    if moves == [] then 0
    else
      var front := moves[..|moves| - 1];
      var at := Position(front);
      Refiled(log, front) +
      if && moves[|moves| - 1].Advance? && at < Furthest(front) && ResolvesLimit(log[at])
         && LimitSlot(log[at]) in ApplyAll(EMPTY, Delivered(log, front)).limits
      then 1 else 0
  }

  lemma {:induction false} LimitHistoryCounts(log: seq<Event>, moves: seq<Move>)
    requires WellFormedLog(log) && Legal(moves, |log|)
    ensures Furthest(moves) <= |log|
    ensures var filed, once := ApplyAll(EMPTY, Delivered(log, moves)).limitHistory, Once(log, Furthest(moves)).limitHistory;
            && |filed| == |once| + Refiled(log, moves)
            && (Refiled(log, moves) == 0 ==> filed == once)
  {
    PositionsStayInLog(moves, |log|);
    if moves != [] {
      var front := moves[..|moves| - 1];
      LimitHistoryCounts(log, front);
      if moves[|moves| - 1].Advance? {
        PositionsStayInLog(front, |log|);
        var at := Position(front);
        ApplyAllConcat(EMPTY, Delivered(log, front), [log[at]]);
        if at == Furthest(front) {
          LiveTablesConverge(log, front);
          OnceStep(log, at);
        }
      } else {
        assert Delivered(log, moves) == Delivered(log, front);
      }
    }
  }

  /** LimitRedelivery says when this is so in terms of the log and the points of resumption. */
  lemma LimitHistoryIsExactIffNoneRefiled(log: seq<Event>, moves: seq<Move>)
    requires WellFormedLog(log) && Legal(moves, |log|)
    ensures Furthest(moves) <= |log|
    ensures ApplyAll(EMPTY, Delivered(log, moves)).limitHistory == Once(log, Furthest(moves)).limitHistory
       <==> Refiled(log, moves) == 0
  {
    LimitHistoryCounts(log, moves);
  }

  const TWICE := [Advance, Advance, Rewind(0), Advance, Advance]

  lemma TwiceDeliversTwice<X>(a: X, b: X)
    ensures Legal(TWICE, 2) && Position(TWICE) == Furthest(TWICE) == 2
    ensures Delivered([a, b], TWICE) == [a, b] + [a, b]
  {
    var log := [a, b];
    AppendMove(log, [], Advance);
    AppendMove(log, [] + [Advance], Advance);
    AppendMove(log, [] + [Advance] + [Advance], Rewind(0));
    AppendMove(log, [] + [Advance] + [Advance] + [Rewind(0)], Advance);
    AppendMove(log, [] + [Advance] + [Advance] + [Rewind(0)] + [Advance], Advance);
    assert TWICE == [] + [Advance] + [Advance] + [Rewind(0)] + [Advance] + [Advance];
  }

  /** It can fail: an order placed and executed before a crash is filed twice. */
  lemma LimitHistoryMayRepeat(placed: Event, executed: Event)
    requires placed.source == PM && placed.topic == Placed && placed.limit.Some? && placed.limitIndex.Some?
    requires executed.source == PM && executed.topic == Executed && executed.limitIndex.Some?
    requires PlacedSlot(placed) == LimitSlot(executed)
    ensures Legal(TWICE, 2) && Position(TWICE) == Furthest(TWICE) == 2
    ensures |ApplyAll(EMPTY, Delivered([placed, executed], TWICE)).limitHistory| == 2
    ensures |Once([placed, executed], 2).limitHistory| == 1
  {
    var log := [placed, executed];
    TwiceDeliversTwice(placed, executed);
    assert log[..2] == log;
    ApplyAllConcat(EMPTY, log, log);
    PlacedAndExecuted(EMPTY, placed, executed);
    PlacedAndExecuted(ApplyAll(EMPTY, log), placed, executed);
  }

  lemma PlacedAndExecuted(t: Tables, placed: Event, executed: Event)
    requires placed.source == PM && placed.topic == Placed && placed.limit.Some? && placed.limitIndex.Some?
    requires executed.source == PM && executed.topic == Executed && executed.limitIndex.Some?
    requires PlacedSlot(placed) == LimitSlot(executed)
    ensures |ApplyAll(t, [placed, executed]).limitHistory| == |t.limitHistory| + 1
  {
    var t1 := ApplyEvent(t, placed);
    assert [placed, executed][1..] == [executed];
    assert ApplyAll(t1, [executed]) == ApplyAll(ApplyEvent(t1, executed), []);
  }
}
