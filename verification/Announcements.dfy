/**
 What subscribers hear of a redelivery. The gateway promises that a re-delivered event does not
 notify; here is exactly when that holds of the stretches delivered again after crashes.
 */
module Announcements {
  import opened Wrappers
  import opened Events
  import opened SlotTables
  import opened Projection
  import opened Deliveries
  import opened CrashConvergence
  import opened TraderLists
  import opened ThreeViews
  import Cache = Gateway

  // ----- On one table -----

  /** Opens are announced on a free slot, updates and closes on an occupied one. */
  predicate SpeaksOn<T, L, O>(cur: Option<Row<T, L, O>>, op: Op<T, L, O>) {
    op.Open? <==> cur.None?
  }

  predicate Speaks<K(==), T, L, O>(table: map<K, Row<T, L, O>>, cmd: Cmd<K, T, L, O>) {
    cmd.At? && SpeaksOn(Lookup(table, cmd.key), cmd.op)
  }

  /** Nothing, a lone open, or updates followed by one final close. */
  predicate Quiet<T, L, O>(ops: seq<Op<T, L, O>>) {
    || ops == []
    || (|ops| == 1 && ops[0].Open?)
    || (ops[|ops| - 1].Close? && forall i | 0 <= i < |ops| - 1 :: ops[i].Update?)
  }

  /** What a silent command finds is left as it is. */
  lemma {:induction false} SilenceChangesNothing<K, T, L, O>(table: map<K, Row<T, L, O>>, cmd: Cmd<K, T, L, O>)
    requires !Speaks(table, cmd)
    ensures Apply(Skip, table, cmd) == table
  {
  }

  lemma {:induction false} LastDecides<T, L, O>(truth: Option<Row<T, L, O>>, ops: seq<Op<T, L, O>>)
    requires ops != [] && Alternates(truth.Some?, ops)
    ensures Fold(Skip, truth, ops).None? <==> ops[|ops| - 1].Close?
    decreases |ops|
  {
    if |ops| > 1 {
      LastDecides(Step(Skip, truth, ops[0]), ops[1..]);
      assert ops[1..][|ops| - 2] == ops[|ops| - 1];
    }
  }

  lemma {:induction false} WithoutOpens<T, L, O>(occupied: bool, ops: seq<Op<T, L, O>>)
    requires Alternates(occupied, ops) && forall i | 0 <= i < |ops| :: !ops[i].Open?
    ensures forall i | 0 <= i < |ops| - 1 :: ops[i].Update?
    decreases |ops|
  {
    if |ops| > 1 {
      assert !ops[0].Open? && !ops[1].Open? && ops[1..][0] == ops[1];
      var rest := ops[1..];
      assert forall i | 0 <= i < |rest| :: rest[i] == ops[i + 1];
      WithoutOpens(!ops[0].Close?, rest);
      forall i | 0 <= i < |ops| - 1
        ensures ops[i].Update?
      {
        if i > 0 {
          assert rest[i - 1] == ops[i];
        }
      }
    }
  }

  lemma {:induction false} OpensAlone<T, L, O>(occupied: bool, ops: seq<Op<T, L, O>>)
    requires Alternates(occupied, ops) && forall i | 0 <= i < |ops| :: ops[i].Open?
    ensures |ops| <= 1
  {
  }

  /** A row brought about by some operations hears none of them again exactly if they are quiet. */
  lemma {:induction false} QuietIff<T, L, O>(truth: Option<Row<T, L, O>>, ops: seq<Op<T, L, O>>)
    requires Alternates(truth.Some?, ops)
    ensures Quiet(ops) <==> forall i | 0 <= i < |ops| :: !SpeaksOn(Fold(Skip, truth, ops), ops[i])
  {
    if ops != [] {
      LastDecides(truth, ops);
      if forall i | 0 <= i < |ops| :: !SpeaksOn(Fold(Skip, truth, ops), ops[i]) {
        if Fold(Skip, truth, ops).None? {
          WithoutOpens(truth.Some?, ops);
        } else {
          OpensAlone(truth.Some?, ops);
        }
      }
    }
  }

  // ----- Where a slot's operations stand in the log -----

  lemma {:induction false} OpsComeFromLog<K, T, L, O>(cmds: seq<Cmd<K, T, L, O>>, key: K, j: nat) returns (i: nat)
    requires j < |OpsOn(cmds, key)|
    ensures i < |cmds| && cmds[i] == At(key, OpsOn(cmds, key)[j])
    decreases |cmds|
  {
    if cmds[0].At? && cmds[0].key == key {
      if j == 0 {
        i := 0;
      } else {
        i := OpsComeFromLog(cmds[1..], key, j - 1);
        i := i + 1;
      }
    } else {
      i := OpsComeFromLog(cmds[1..], key, j);
      i := i + 1;
    }
  }

  lemma {:induction false} LogEndsUpInOps<K, T, L, O>(cmds: seq<Cmd<K, T, L, O>>, i: nat) returns (j: nat)
    requires i < |cmds| && cmds[i].At?
    ensures j < |OpsOn(cmds, cmds[i].key)| && OpsOn(cmds, cmds[i].key)[j] == cmds[i].op
    decreases |cmds|
  {
    if i == 0 {
      j := 0;
    } else {
      j := LogEndsUpInOps(cmds[1..], i - 1);
      if cmds[0].At? && cmds[0].key == cmds[i].key {
        j := j + 1;
      }
    }
  }

  ghost predicate StretchIsQuiet<K(!new), T, L, O>(stretch: seq<Cmd<K, T, L, O>>) {
    forall key: K :: Quiet(OpsOn(stretch, key))
  }

  /** Some command of the stretch would be announced on the table as it stands. */
  ghost predicate Pending<K, T, L, O>(table: map<K, Row<T, L, O>>, log: seq<Cmd<K, T, L, O>>, at: nat, goal: nat)
    requires at <= goal <= |log|
  {
    exists i | at <= i < goal :: Speaks(table, log[i])
  }

  lemma {:induction false} RowAt<K(!new), T, L, O>(log: seq<Cmd<K, T, L, O>>, to: nat, goal: nat, key: K)
    requires WellFormed(log) && to <= goal <= |log|
    ensures var truth, ops := Fold(Skip, None, OpsOn(log[..to], key)), OpsOn(log[to..goal], key);
            && Alternates(truth.Some?, ops)
            && Lookup(Run(Skip, map[], log[..goal]), key) == Fold(Skip, truth, ops)
  {
    assert log[..goal] == log[..to] + log[to..goal];
    OpsOnConcat(log[..to], log[to..goal], key);
    WellFormedSplits(Skip, log, goal, key);
    AlternatesSplits(Skip, None, OpsOn(log[..to], key), OpsOn(log[to..goal], key));
    FoldConcat(Skip, None, OpsOn(log[..to], key), OpsOn(log[to..goal], key));
    RunIsPerSlot(Skip, map[], log[..goal], key);
  }

  /** Delivered again to a caught-up table, a stretch is heard exactly if it is not quiet. */
  lemma {:induction false} StretchIsQuietIff<K(!new), T, L, O>(log: seq<Cmd<K, T, L, O>>, to: nat, goal: nat)
    requires WellFormed(log) && to <= goal <= |log|
    ensures StretchIsQuiet(log[to..goal]) <==> !Pending(Run(Skip, map[], log[..goal]), log, to, goal)
  {
    var table, stretch := Run(Skip, map[], log[..goal]), log[to..goal];
    if !StretchIsQuiet(stretch) {
      var key :| !Quiet(OpsOn(stretch, key));
      RowAt(log, to, goal, key);
      QuietIff(Fold(Skip, None, OpsOn(log[..to], key)), OpsOn(stretch, key));
      var j :| 0 <= j < |OpsOn(stretch, key)| && SpeaksOn(Lookup(table, key), OpsOn(stretch, key)[j]);
      var i := OpsComeFromLog(stretch, key, j);
      assert Speaks(table, log[to + i]);
    } else {
      forall i | to <= i < goal && log[i].At?
        ensures !Speaks(table, log[i])
      {
        var key := log[i].key;
        assert stretch[i - to] == log[i];
        var j := LogEndsUpInOps(stretch, i - to);
        RowAt(log, to, goal, key);
        assert Quiet(OpsOn(stretch, key));
        QuietIff(Fold(Skip, None, OpsOn(log[..to], key)), OpsOn(stretch, key));
      }
    }
  }

  // ----- On whole deliveries -----

  /** No redelivered command was announced. */
  ghost predicate Silent<K, T, L, O>(log: seq<Cmd<K, T, L, O>>, moves: seq<Move>)
    requires Legal(moves, |log|)
  {
    moves == [] ||
    var front := moves[..|moves| - 1];
    && Silent(log, front)
    && (moves[|moves| - 1].Advance? && Position(front) < Furthest(front) ==>
          !Speaks(Run(Skip, map[], Delivered(log, front)), log[Position(front)]))
  }

  /** Every rewind goes back over a quiet stretch. */
  ghost predicate QuietRewinds<K(!new), T, L, O>(log: seq<Cmd<K, T, L, O>>, moves: seq<Move>)
    requires Legal(moves, |log|)
  {
    moves == [] ||
    var front := moves[..|moves| - 1];
    && QuietRewinds(log, front)
    && (moves[|moves| - 1].Rewind? ==> StretchIsQuiet(Stretch(log, front, moves[|moves| - 1].to)))
  }

  /** As long as nothing is announced again, the table is the one of a single pass. */
  lemma {:induction false} SilenceKeepsTheTable<K(!new), T, L, O>(log: seq<Cmd<K, T, L, O>>, moves: seq<Move>)
    requires Legal(moves, |log|) && Silent(log, moves)
    ensures Position(moves) <= Furthest(moves) <= |log|
    ensures Run(Skip, map[], Delivered(log, moves)) == Run(Skip, map[], log[..Furthest(moves)])
  {
    PositionsStayInLog(moves, |log|);
    if moves != [] {
      var front := moves[..|moves| - 1];
      SilenceKeepsTheTable(log, front);
      var at, goal := Position(front), Furthest(front);
      if moves[|moves| - 1].Advance? {
        RunConcat(Skip, map[], Delivered(log, front), [log[at]]);
        if at == goal {
          assert log[..goal + 1] == log[..goal] + [log[at]];
          RunConcat(Skip, map[], log[..goal], [log[at]]);
        } else {
          SilenceChangesNothing(Run(Skip, map[], Delivered(log, front)), log[at]);
        }
      } else {
        assert Delivered(log, moves) == Delivered(log, front);
      }
    }
  }

  ghost predicate PendingAfter<K, T, L, O>(log: seq<Cmd<K, T, L, O>>, moves: seq<Move>)
    requires Legal(moves, |log|) && Position(moves) <= Furthest(moves) <= |log|
  {
    Pending(Run(Skip, map[], log[..Furthest(moves)]), log, Position(moves), Furthest(moves))
  }

  lemma {:induction false} QuietIsSilent<K(!new), T, L, O>(log: seq<Cmd<K, T, L, O>>, moves: seq<Move>)
    requires WellFormed(log) && Legal(moves, |log|) && QuietRewinds(log, moves)
    ensures Position(moves) <= Furthest(moves) <= |log|
    ensures Silent(log, moves) && !PendingAfter(log, moves)
  {
    PositionsStayInLog(moves, |log|);
    if moves != [] {
      var front := moves[..|moves| - 1];
      QuietIsSilent(log, front);
      SilenceKeepsTheTable(log, front);
      if moves[|moves| - 1].Rewind? {
        StretchIsQuietIff(log, moves[|moves| - 1].to, Furthest(front));
      }
    }
  }

  lemma {:induction false} NoiseIsStillToCome<K(!new), T, L, O>(log: seq<Cmd<K, T, L, O>>, moves: seq<Move>)
    requires WellFormed(log) && Legal(moves, |log|) && Silent(log, moves) && !QuietRewinds(log, moves)
    ensures Position(moves) <= Furthest(moves) <= |log|
    ensures PendingAfter(log, moves)
  {
    PositionsStayInLog(moves, |log|);
    var front := moves[..|moves| - 1];
    SilenceKeepsTheTable(log, front);
    if !QuietRewinds(log, front) {
      NoiseIsStillToCome(log, front);
      var i :| Position(front) <= i < Furthest(front) && Speaks(Run(Skip, map[], log[..Furthest(front)]), log[i]);
      assert Position(moves) <= i < Furthest(moves) == Furthest(front);
    } else {
      StretchIsQuietIff(log, moves[|moves| - 1].to, Furthest(front));
    }
  }

  /** A caught-up delivery repeated nothing aloud if and only if every rewind went back over a quiet stretch. */
  lemma {:induction false} SilentIff<K(!new), T, L, O>(log: seq<Cmd<K, T, L, O>>, moves: seq<Move>)
    requires WellFormed(log) && Legal(moves, |log|) && Position(moves) == Furthest(moves)
    ensures Silent(log, moves) <==> QuietRewinds(log, moves)
  {
    if QuietRewinds(log, moves) {
      QuietIsSilent(log, moves);
    } else if Silent(log, moves) {
      NoiseIsStillToCome(log, moves);
    }
  }

  // ----- The gateway -----

  /** The gateway notified nobody of an event it had already been given. */
  ghost predicate Unannounced(log: seq<Event>, moves: seq<Move>)
    requires Legal(moves, |log|)
  {
    moves == [] ||
    var front := moves[..|moves| - 1];
    var v := ViewsAfter(NOTHING, Delivered(log, front));
    && Unannounced(log, front)
    && (moves[|moves| - 1].Advance? && Position(front) < Furthest(front) ==>
          !Cache.Notifies(v.cacheTrades, v.cacheLimits, log[Position(front)]))
  }

  /** An entry can be found exactly where there is a row. */
  ghost predicate Finds<X, R>(cache: map<string, seq<X>>, slotOf: X -> Slot, rows: map<Slot, R>) {
    forall slot: Slot :: Find(cache, slotOf, slot).Some? <==> slot in rows
  }

  lemma {:induction false} TradeNotices(trades: Cache.Trades, limits: Cache.Limits, rows: map<Slot, TradeRow>, e: Event)
    requires Enriched(e) && e.source == PM && !Cache.IsLimitTopic(e.topic)
    requires Finds(trades, Cache.TradeSlotOf, rows)
    ensures Cache.Notifies(trades, limits, e) <==> Speaks(rows, ToTradeCmd(e))
    ensures ToLimitCmd(e).Nop?
  {
  }

  lemma {:induction false} LimitNotices(trades: Cache.Trades, limits: Cache.Limits, rows: map<Slot, LimitRow>, e: Event)
    requires Enriched(e) && e.source == PM && Cache.IsLimitTopic(e.topic)
    requires Finds(limits, Cache.LimitSlotOf, rows)
    ensures Cache.Notifies(trades, limits, e) <==> Speaks(rows, ToLimitCmd(e))
    ensures ToTradeCmd(e).Nop?
  {
  }

  lemma {:induction false} NotifiesIff(
    trades: Cache.Trades, limits: Cache.Limits, rows: map<Slot, TradeRow>, limitRows: map<Slot, LimitRow>, e: Event
  )
    requires Enriched(e) && CacheTrades(trades, rows) && CacheLimits(limits, limitRows)
    ensures Cache.Notifies(trades, limits, e) <==> Speaks(rows, ToTradeCmd(e)) || Speaks(limitRows, ToLimitCmd(e))
  {
    HoldingFinds(trades, Cache.TradeSlotOf, rows, InCache);
    HoldingFinds(limits, Cache.LimitSlotOf, limitRows, LimitInCache);
    if e.source != PM {
    } else if Cache.IsLimitTopic(e.topic) {
      LimitNotices(trades, limits, limitRows, e);
    } else {
      TradeNotices(trades, limits, rows, e);
    }
  }

  lemma {:induction false} HoldingFinds<X(!new), R>(cache: map<string, seq<X>>, slotOf: X -> Slot, rows: map<Slot, R>, shown: (Slot, R) -> X)
    requires CacheHolds(cache, slotOf, rows, shown)
    ensures Finds(cache, slotOf, rows)
  {
  }

  lemma {:induction false} UnannouncedIff(log: seq<Event>, moves: seq<Move>)
    requires Legal(moves, |log|) && forall e <- log :: Enriched(e)
    ensures Unannounced(log, moves) <==> Silent(TradeCmds(log), moves) && Silent(LimitCmds(log), moves)
  {
    if moves != [] {
      var front := moves[..|moves| - 1];
      UnannouncedIff(log, front);
      DeliveredFromLog(log, front);
      DeliveredCmds(log, front);
      ViewsAreRuns(NOTHING, map[], map[], map[], map[], Delivered(log, front));
      if moves[|moves| - 1].Advance? {
        var v, e := ViewsAfter(NOTHING, Delivered(log, front)), log[Position(front)];
        NotifiesIff(v.cacheTrades, v.cacheLimits, Run(Skip, map[], TradeCmds(Delivered(log, front))),
                    Run(Skip, map[], LimitCmds(Delivered(log, front))), e);
      }
    }
  }

  /**
   The gateway keeps its promise on a caught-up delivery if and only if every rewind went back over a
   stretch that holds, for each trade slot and each limit slot, nothing, a lone opening, or updates
   followed by one final closing.
   */
  lemma {:induction false} RedeliveryIsSilentIff(log: seq<Event>, moves: seq<Move>)
    requires WellFormedLog(log) && forall e <- log :: Enriched(e)
    requires Legal(moves, |log|) && Position(moves) == Furthest(moves)
    ensures Unannounced(log, moves) <==> QuietRewinds(TradeCmds(log), moves) && QuietRewinds(LimitCmds(log), moves)
  {
    UnannouncedIff(log, moves);
    SilentIff(TradeCmds(log), moves);
    SilentIff(LimitCmds(log), moves);
  }

  /** Re-scanned, a page that opens and closes a trade brings it back to life and is announced from start to end. */
  lemma {:induction false} RescannedPageIsAnnounced(open: Event, close: Event)
    requires Enriched(open) && open.source == PM && open.topic == Opened
    requires Enriched(close) && close.source == PM && close.topic == Closed && TradeSlot(close) == OpenedSlot(open)
    ensures var v := ViewsAfter(NOTHING, [open, close]);
            var again := Cache.TradesAfter(v.cacheTrades, open);
            && Find(v.cacheTrades, Cache.TradeSlotOf, OpenedSlot(open)).None?
            && Cache.Notifies(v.cacheTrades, v.cacheLimits, open)
            && Find(again, Cache.TradeSlotOf, OpenedSlot(open)).Some?
            && Cache.Notifies(again, v.cacheLimits, close)
  {
    var slot := OpenedSlot(open);
    var t1 := Cache.TradesAfter(map[], open);
    CacheTradeStep(map[], map[], open);
    var rows := Apply(Skip, map[], ToTradeCmd(open));
    CacheTradeStep(t1, rows, close);
    var t2 := Cache.TradesAfter(t1, close);
    var rows2 := Apply(Skip, rows, ToTradeCmd(close));
    assert slot !in rows2;
    CacheTradeStep(t2, rows2, open);
    assert slot in Apply(Skip, rows2, ToTradeCmd(open));
    TwoViews(open, close);
  }

  lemma {:induction false} TwoViews(a: Event, b: Event)
    ensures ViewsAfter(NOTHING, [a, b]).cacheTrades == Cache.TradesAfter(Cache.TradesAfter(map[], a), b)
  {
    assert [a, b][1..] == [b];
    assert ViewsAfter(ViewsStep(NOTHING, a), [b]) == ViewsAfter(ViewsStep(ViewsStep(NOTHING, a), b), []);
  }
}
