/**
 Running a stretch of ledgers again. The repository documents that as safe; here is exactly when it
 leaves every table as it was.
 */
module Rerun {
  import opened Wrappers
  import opened Events
  import opened SlotTables
  import opened Projection
  import opened Deliveries
  import opened CrashConvergence
  import opened LimitRedelivery
  import opened AdditiveRedelivery
  import opened OpenInterest

  /** Where some moves through the log lead, and whether every rewind among them spares the limit-order history. */
  ghost predicate LeadTo(
    log: seq<Event>, moves: seq<Move>, at: nat, furthest: nat, stream: seq<Event>, repeated: seq<Event>, unmixed: bool
  ) {
    && Legal(moves, |log|) && Position(moves) == at && Furthest(moves) == furthest
    && Delivered(log, moves) == stream && Repeated(log, moves) == repeated
    && (UnmixedRewinds(LimitCmds(log), moves) <==> unmixed)
  }

  lemma {:induction false} UnmixedNext<K(!new), T, L, O>(log: seq<Cmd<K, T, L, O>>, front: seq<Move>, move: Move)
    requires Legal(front, |log|)
    requires if move.Advance? then Position(front) < |log| else move.to <= Position(front)
    ensures Legal(front + [move], |log|)
    ensures UnmixedRewinds(log, front + [move]) <==>
            UnmixedRewinds(log, front) && (move.Rewind? ==> StretchIsUnmixed(Stretch(log, front, move.to)))
  {
    AppendMove(log, front, move);
    assert (front + [move])[..|front|] == front;
  }

  lemma {:induction false} OneMore(
    log: seq<Event>, front: seq<Move>, at: nat, furthest: nat, stream: seq<Event>, repeated: seq<Event>, unmixed: bool
  )
    requires LeadTo(log, front, at, furthest, stream, repeated, unmixed) && at < |log|
    ensures LeadTo(log, front + [Advance], at + 1, if at == furthest then furthest + 1 else furthest, stream + [log[at]],
                   repeated + if at < furthest then [log[at]] else [], unmixed)
  {
    AppendMove(log, front, Advance);
    AppendRepeat(log, front, Advance);
    UnmixedNext(LimitCmds(log), front, Advance);
  }

  lemma {:induction false} BackTo(
    log: seq<Event>, front: seq<Move>, at: nat, stream: seq<Event>, repeated: seq<Event>, to: nat
  )
    requires LeadTo(log, front, at, at, stream, repeated, true) && to <= at <= |log|
    ensures LeadTo(log, front + [Rewind(to)], to, at, stream, repeated, StretchIsUnmixed(LimitCmds(log)[to..at]))
  {
    AppendMove(log, front, Rewind(to));
    AppendRepeat(log, front, Rewind(to));
    UnmixedNext(LimitCmds(log), front, Rewind(to));
  }

  lemma {:induction false} StraightOn(log: seq<Event>, n: nat) returns (moves: seq<Move>)
    requires n <= |log|
    ensures LeadTo(log, moves, n, n, log[..n], [], true)
  {
    if n == 0 {
      moves := [];
    } else {
      var front := StraightOn(log, n - 1);
      OneMore(log, front, n - 1, n - 1, log[..n - 1], [], true);
      moves := front + [Advance];
      assert log[..n] == log[..n - 1] + [log[n - 1]];
    }
  }

  /** The whole log, and then a part of its end once more. */
  lemma {:induction false} OnceMore(log: seq<Event>, to: nat, again: nat) returns (moves: seq<Move>)
    requires to + again <= |log|
    ensures LeadTo(log, moves, to + again, |log|, log + log[to..to + again], log[to..to + again],
                   StretchIsUnmixed(LimitCmds(log)[to..]))
    decreases again
  {
    if again == 0 {
      var front := StraightOn(log, |log|);
      NothingAgain(log, to);
      BackTo(log, front, |log|, log, [], to);
      moves := front + [Rewind(to)];
    } else {
      var front := OnceMore(log, to, again - 1);
      var part := log[to..to + again - 1];
      OneMore(log, front, to + again - 1, |log|, log + part, part, StretchIsUnmixed(LimitCmds(log)[to..]));
      moves := front + [Advance];
      LongerStretch(log, to, again);
    }
  }

  lemma {:induction false} NothingAgain(log: seq<Event>, to: nat)
    requires to <= |log|
    ensures log[..|log|] == log == log + log[to..to + 0] && log[to..to + 0] == []
    ensures LimitCmds(log)[to..|log|] == LimitCmds(log)[to..]
  {
  }

  lemma {:induction false} LongerStretch<X>(log: seq<X>, to: nat, again: nat)
    requires 0 < again && to + again <= |log|
    ensures log[to..to + again] == log[to..to + again - 1] + [log[to + again - 1]]
    ensures log + log[to..to + again] == log + log[to..to + again - 1] + [log[to + again - 1]]
  {
  }

  predicate BothSidesSpared(stretch: seq<Event>, oi: map<int, OiRow>, pair: int) {
    OiSpared(stretch, pair, true, Side(oi, pair, true)) && OiSpared(stretch, pair, false, Side(oi, pair, false))
  }

  ghost predicate AllOiSpared(stretch: seq<Event>, oi: map<int, OiRow>) {
    forall pair: int :: BothSidesSpared(stretch, oi, pair)
  }

  lemma {:induction false} OiRowSurvivesIff(log: seq<Event>, to: nat, pair: int)
    requires to <= |log|
    ensures var t := ApplyAll(EMPTY, log);
            Lookup(ApplyAll(t, log[to..]).oi, pair) == Lookup(t.oi, pair) <==> BothSidesSpared(log[to..], t.oi, pair)
  {
    var t, stretch := ApplyAll(EMPTY, log), log[to..];
    OiStaysNonNegative(EMPTY, log);
    OiTimes(EMPTY, log, pair);
    OiTimes(t, stretch, pair);
    assert log == log[..to] + stretch;
    LastAtConcat(log[..to], stretch, TouchesOi(pair));
    if pair in t.oi {
      OiSurvivesIff(t, stretch, pair, true);
      OiSurvivesIff(t, stretch, pair, false);
    } else {
      NothingMoved(stretch, pair, true);
      NothingMoved(stretch, pair, false);
    }
  }

  lemma {:induction false} SameOiIff(a: map<int, OiRow>, b: map<int, OiRow>, stretch: seq<Event>)
    requires forall pair: int :: Lookup(a, pair) == Lookup(b, pair) <==> BothSidesSpared(stretch, b, pair)
    ensures a == b <==> AllOiSpared(stretch, b)
  {
    if AllOiSpared(stretch, b) {
      forall pair: int
        ensures Lookup(a, pair) == Lookup(b, pair)
      {
        assert BothSidesSpared(stretch, b, pair);
      }
      SameRowsSameTable(a, b);
    }
  }

  lemma {:induction false} OiTableSurvivesIff(log: seq<Event>, to: nat)
    requires to <= |log|
    ensures ApplyAll(ApplyAll(EMPTY, log), log[to..]).oi == ApplyAll(EMPTY, log).oi
       <==> AllOiSpared(log[to..], ApplyAll(EMPTY, log).oi)
  {
    var t := ApplyAll(EMPTY, log);
    forall pair: int
      ensures Lookup(ApplyAll(t, log[to..]).oi, pair) == Lookup(t.oi, pair) <==> BothSidesSpared(log[to..], t.oi, pair)
    {
      OiRowSurvivesIff(log, to, pair);
    }
    SameOiIff(ApplyAll(t, log[to..]).oi, t.oi, log[to..]);
  }

  /** What the moves leave is what running the stretch again leaves. */
  lemma {:induction false} RerunIsADelivery(log: seq<Event>, to: nat, moves: seq<Move>, unmixed: bool)
    requires to <= |log| && LeadTo(log, moves, |log|, |log|, log + log[to..], log[to..], unmixed)
    ensures ApplyAll(EMPTY, Delivered(log, moves)) == ApplyAll(ApplyAll(EMPTY, log), log[to..])
    ensures Once(log, |log|) == ApplyAll(EMPTY, log)
  {
    assert log[..|log|] == log;
    ApplyAllConcat(EMPTY, log, log[to..]);
  }

  lemma {:induction false} PMTablesSurvive(log: seq<Event>, to: nat, moves: seq<Move>, unmixed: bool)
    requires WellFormedLog(log)
    requires to <= |log| && LeadTo(log, moves, |log|, |log|, log + log[to..], log[to..], unmixed)
    ensures var t := ApplyAll(EMPTY, log);
            var t' := ApplyAll(t, log[to..]);
            && t'.trades == t.trades && t'.history == t.history && t'.limits == t.limits
            && (t'.limitHistory == t.limitHistory <==> unmixed)
  {
    RerunIsADelivery(log, to, moves, unmixed);
    ProjectionsConverge(log, moves);
    LimitHistoryIsExactIff(log, moves);
  }

  lemma {:induction false} VaultTableSurvivesIff(log: seq<Event>, to: nat, moves: seq<Move>, unmixed: bool)
    requires to <= |log| && LeadTo(log, moves, |log|, |log|, log + log[to..], log[to..], unmixed)
    ensures ApplyAll(ApplyAll(EMPTY, log), log[to..]).vault == ApplyAll(EMPTY, log).vault <==> AllCancel(log[to..])
  {
    RerunIsADelivery(log, to, moves, unmixed);
    VaultSurvivesIff(log, moves);
  }

  /**
   Running the last stretch of a log again never harms the trades, their history or the limit orders.
   It leaves all tables as they were if and only if it does not both place and resolve an order on one
   slot, every depositor's shares cancel and no assets move, and open interest is spared.
   */
  lemma {:induction false} RerunIsSafeIff(log: seq<Event>, to: nat)
    requires WellFormedLog(log) && to <= |log|
    ensures var t := ApplyAll(EMPTY, log);
            var t' := ApplyAll(t, log[to..]);
            && t'.trades == t.trades && t'.history == t.history && t'.limits == t.limits
            && (t' == t <==> StretchIsUnmixed(LimitCmds(log)[to..]) && AllCancel(log[to..]) && AllOiSpared(log[to..], t.oi))
  {
    var unmixed := StretchIsUnmixed(LimitCmds(log)[to..]);
    var moves := EndOnceMore(log, to);
    PMTablesSurvive(log, to, moves, unmixed);
    VaultTableSurvivesIff(log, to, moves, unmixed);
    OiTableSurvivesIff(log, to);
    SameTablesAre(ApplyAll(EMPTY, log), ApplyAll(ApplyAll(EMPTY, log), log[to..]));
  }

  lemma {:induction false} SameTablesAre(a: Tables, b: Tables)
    ensures a == b <==> && a.trades == b.trades && a.history == b.history && a.limits == b.limits
                        && a.limitHistory == b.limitHistory && a.vault == b.vault && a.oi == b.oi
  {
  }

  lemma {:induction false} EndOnceMore(log: seq<Event>, to: nat) returns (moves: seq<Move>)
    requires to <= |log|
    ensures LeadTo(log, moves, |log|, |log|, log + log[to..], log[to..], StretchIsUnmixed(LimitCmds(log)[to..]))
  {
    moves := OnceMore(log, to, |log| - to);
    assert log[to..to + (|log| - to)] == log[to..];
  }
}
