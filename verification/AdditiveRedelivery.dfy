/**
 The two additive tables under redelivery. Whatever is delivered again is added again; here is
 exactly when that cancels out.
 */
module AdditiveRedelivery {
  import opened Wrappers
  import opened Events
  import opened Projection
  import opened Deliveries
  import opened CrashConvergence
  import opened VaultLedger
  import opened OpenInterest

  /** The events delivered again, in order. */
  ghost function Repeated<X>(log: seq<X>, moves: seq<Move>): seq<X>
    requires Legal(moves, |log|)
  {
    if moves == [] then []
    else
      var front := moves[..|moves| - 1];
      Repeated(log, front) +
      if moves[|moves| - 1].Advance? && Position(front) < Furthest(front) then [log[Position(front)]] else []
  }

  lemma {:induction false} AppendRepeat<X>(log: seq<X>, front: seq<Move>, move: Move)
    requires Legal(front, |log|)
    requires if move.Advance? then Position(front) < |log| else move.to <= Position(front)
    ensures Legal(front + [move], |log|)
    ensures Repeated(log, front + [move]) ==
            Repeated(log, front) + if move.Advance? && Position(front) < Furthest(front) then [log[Position(front)]] else []
  {
    AppendMove(log, front, move);
    assert (front + [move])[..|front|] == front;
  }

  /** What is left up to the furthest point reached, and all that lies before it. */
  ghost function Rest(log: seq<Event>, moves: seq<Move>): seq<Event>
    requires Legal(moves, |log|)
  {
    PositionsStayInLog(moves, |log|);
    log[Position(moves)..Furthest(moves)]
  }

  ghost function Past(log: seq<Event>, moves: seq<Move>): seq<Event>
    requires Legal(moves, |log|)
  {
    PositionsStayInLog(moves, |log|);
    log[..Furthest(moves)]
  }

  // ----- vault_positions -----

  lemma {:induction false} TotalAppend(log: seq<Event>, e: Event, depositor: string, topic: Topic, amount: Event -> int)
    ensures Total(log + [e], depositor, topic, amount) ==
            Total(log, depositor, topic, amount) + if MovesVault(e, depositor) && e.topic == topic then amount(e) else 0
  {
    assert (log + [e])[..|log|] == log;
  }

  lemma {:induction false} LastMove(log: seq<Event>, moves: seq<Move>)
    requires moves != [] && Legal(moves, |log|)
    ensures Position(moves[..|moves| - 1]) <= |log|
    ensures var front, again := moves[..|moves| - 1], moves[|moves| - 1].Advance? && Position(moves[..|moves| - 1]) < Furthest(moves[..|moves| - 1]);
            var e := if moves[|moves| - 1].Advance? then [log[Position(front)]] else [];
            && Delivered(log, moves) == Delivered(log, front) + e
            && Past(log, moves) == Past(log, front) + (if again then [] else e)
            && Repeated(log, moves) == Repeated(log, front) + if again then e else []
  {
    PositionsStayInLog(moves, |log|);
    PositionsStayInLog(moves[..|moves| - 1], |log|);
  }

  /** What was delivered is the log so far and what was repeated. */
  lemma {:induction false} TotalsSplit(log: seq<Event>, moves: seq<Move>, depositor: string, topic: Topic, amount: Event -> int)
    requires Legal(moves, |log|)
    ensures Total(Delivered(log, moves), depositor, topic, amount) ==
            Total(Past(log, moves), depositor, topic, amount) + Total(Repeated(log, moves), depositor, topic, amount)
  {
    if moves != [] {
      var front := moves[..|moves| - 1];
      TotalsSplit(log, front, depositor, topic, amount);
      LastMove(log, moves);
      if moves[|moves| - 1].Advance? {
        var e := log[Position(front)];
        TotalAppend(Delivered(log, front), e, depositor, topic, amount);
        TotalAppend(Past(log, front), e, depositor, topic, amount);
        TotalAppend(Repeated(log, front), e, depositor, topic, amount);
      }
      NothingAdded(Delivered(log, front), Past(log, front), Repeated(log, front));
    }
  }

  lemma {:induction false} NothingAdded(a: seq<Event>, b: seq<Event>, c: seq<Event>)
    ensures a + [] == a && b + [] == b && c + [] == c
  {
  }

  /** As many shares were deposited again as withdrawn again, and no assets either way. */
  predicate Cancels(repeated: seq<Event>, depositor: string) {
    && Total(repeated, depositor, Deposit, SharesOf) == Total(repeated, depositor, Withdraw, SharesOf)
    && Total(repeated, depositor, Deposit, AssetsOf) == 0
    && Total(repeated, depositor, Withdraw, AssetsOf) == 0
  }

  predicate SameNumbers(a: VaultRow, b: VaultRow) {
    a.shares == b.shares && a.totalDeposited == b.totalDeposited && a.totalWithdrawn == b.totalWithdrawn
  }

  /** At every moment of every delivery, a position's numbers are those of a single pass if and only if the repeats cancel. */
  lemma {:induction false} PositionSurvivesIff(log: seq<Event>, moves: seq<Move>, depositor: string)
    requires Legal(moves, |log|)
    ensures Furthest(moves) <= |log|
    ensures SameNumbers(Row(ApplyAll(EMPTY, Delivered(log, moves)).vault, depositor), Row(Once(log, Furthest(moves)).vault, depositor))
       <==> Cancels(Repeated(log, moves), depositor)
  {
    PositionsStayInLog(moves, |log|);
    PositionsAddUp(Delivered(log, moves), depositor);
    PositionsAddUp(log[..Furthest(moves)], depositor);
    TotalsSplit(log, moves, depositor, Deposit, SharesOf);
    TotalsSplit(log, moves, depositor, Withdraw, SharesOf);
    TotalsSplit(log, moves, depositor, Deposit, AssetsOf);
    TotalsSplit(log, moves, depositor, Withdraw, AssetsOf);
  }

  /** A deposit and a withdrawal of as many shares, without assets, may be repeated together though neither may be alone. */
  lemma {:induction false} HarmlessTogether(deposit: Event, withdrawal: Event)
    requires MovesVault(deposit, deposit.trader) && deposit.topic == Deposit
    requires MovesVault(withdrawal, deposit.trader) && withdrawal.topic == Withdraw
    requires SharesOf(deposit) == SharesOf(withdrawal) != 0 && AssetsOf(deposit) == AssetsOf(withdrawal) == 0
    ensures Cancels([deposit, withdrawal], deposit.trader)
    ensures !Cancels([deposit], deposit.trader) && !Cancels([withdrawal], deposit.trader)
  {
    var d := deposit.trader;
    TotalAppend([], deposit, d, Deposit, SharesOf);
    TotalAppend([], deposit, d, Withdraw, SharesOf);
    TotalAppend([], withdrawal, d, Deposit, SharesOf);
    TotalAppend([], withdrawal, d, Withdraw, SharesOf);
    TotalAppend([deposit], withdrawal, d, Deposit, SharesOf);
    TotalAppend([deposit], withdrawal, d, Withdraw, SharesOf);
    TotalAppend([], deposit, d, Deposit, AssetsOf);
    TotalAppend([], deposit, d, Withdraw, AssetsOf);
    TotalAppend([deposit], withdrawal, d, Deposit, AssetsOf);
    TotalAppend([deposit], withdrawal, d, Withdraw, AssetsOf);
    assert [] + [deposit] == [deposit] && [] + [withdrawal] == [withdrawal] && [deposit] + [withdrawal] == [deposit, withdrawal];
  }

  // ----- When a row was last touched -----

  /** The time of the last event of a kind. */
  function LastAt(log: seq<Event>, touches: Event -> bool): Option<int> {
    if log == [] then None
    else if touches(log[|log| - 1]) then Some(log[|log| - 1].at)
    else LastAt(log[..|log| - 1], touches)
  }

  lemma {:induction false} LastAtConcat(a: seq<Event>, b: seq<Event>, touches: Event -> bool)
    ensures LastAt(a + b, touches) == if LastAt(b, touches).Some? then LastAt(b, touches) else LastAt(a, touches)
  {
    if b == [] {
      assert a + b == a;
    } else {
      var front := b[..|b| - 1];
      LastAtConcat(a, front, touches);
      assert (a + b)[..|a + b| - 1] == a + front;
    }
  }

  function Touches(depositor: string): Event -> bool {
    e => MovesVault(e, depositor)
  }

  function TouchesOi(pair: int): Event -> bool {
    e => Moves(e, pair)
  }

  lemma {:induction false} ApplyLast(t: Tables, log: seq<Event>)
    requires log != []
    ensures ApplyAll(t, log) == ApplyEvent(ApplyAll(t, log[..|log| - 1]), log[|log| - 1])
  {
    assert log == log[..|log| - 1] + [log[|log| - 1]];
    ApplyAllConcat(t, log[..|log| - 1], [log[|log| - 1]]);
  }

  lemma {:induction false} TouchVault(vault: map<string, VaultRow>, e: Event, depositor: string)
    ensures var vault' := ApplyVault(vault, e);
            if MovesVault(e, depositor) then depositor in vault' && vault'[depositor].lastActionAt == e.at
            else (depositor in vault' <==> depositor in vault) && Row(vault', depositor) == Row(vault, depositor)
  {
  }

  lemma {:induction false} TouchOi(oi: map<int, OiRow>, e: Event, pair: int)
    ensures var oi' := ApplyOi(oi, e);
            if Moves(e, pair) then pair in oi' && oi'[pair].updatedAt == e.at
            else (pair in oi' <==> pair in oi) && (pair in oi ==> oi'[pair] == oi[pair])
  {
  }

  /** A position after more events: when it was last touched, or as it was. */
  lemma {:induction false} VaultTimes(t: Tables, log: seq<Event>, depositor: string)
    ensures var t', at := ApplyAll(t, log), LastAt(log, Touches(depositor));
            if at.Some? then depositor in t'.vault && t'.vault[depositor].lastActionAt == at.value
            else (depositor in t'.vault <==> depositor in t.vault) && Row(t'.vault, depositor) == Row(t.vault, depositor)
  {
    if log != [] {
      var front := log[..|log| - 1];
      VaultTimes(t, front, depositor);
      ApplyLast(t, log);
      TouchVault(ApplyAll(t, front).vault, log[|log| - 1], depositor);
    }
  }

  lemma {:induction false} OiTimes(t: Tables, log: seq<Event>, pair: int)
    ensures var t', at := ApplyAll(t, log), LastAt(log, TouchesOi(pair));
            if at.Some? then pair in t'.oi && t'.oi[pair].updatedAt == at.value
            else (pair in t'.oi <==> pair in t.oi) && (pair in t.oi ==> t'.oi[pair] == t.oi[pair])
  {
    if log != [] {
      var front := log[..|log| - 1];
      OiTimes(t, front, pair);
      ApplyLast(t, log);
      TouchOi(ApplyAll(t, front).oi, log[|log| - 1], pair);
    }
  }

  lemma {:induction false} LastAfterAdvance(stream: seq<Event>, past: seq<Event>, e: Event, touches: Event -> bool)
    requires LastAt(stream, touches) == LastAt(past, touches)
    ensures LastAt(stream + [e], touches) == LastAt(past + [e], touches)
  {
    LastAtConcat(stream, [e], touches);
    LastAtConcat(past, [e], touches);
  }

  lemma {:induction false} LastAfterRewind(stream: seq<Event>, past: seq<Event>, a: seq<Event>, b: seq<Event>, touches: Event -> bool)
    requires LastAt(stream + b, touches) == LastAt(past + (a + b), touches)
    ensures LastAt(stream + (a + b), touches) == LastAt(past + (a + b), touches)
  {
    LastAtConcat(stream, b, touches);
    LastAtConcat(a, b, touches);
    LastAtConcat(stream, a + b, touches);
    LastAtConcat(past, a + b, touches);
  }

  lemma {:induction false} NewEvent(log: seq<Event>, moves: seq<Move>)
    requires moves != [] && Legal(moves, |log|) && moves[|moves| - 1].Advance?
    requires Position(moves[..|moves| - 1]) == Furthest(moves[..|moves| - 1])
    ensures var front, e := moves[..|moves| - 1], log[Position(moves[..|moves| - 1])];
            && Delivered(log, moves) + Rest(log, moves) == Delivered(log, front) + Rest(log, front) + [e]
            && Past(log, moves) == Past(log, front) + [e]
  {
    PositionsStayInLog(moves, |log|);
    PositionsStayInLog(moves[..|moves| - 1], |log|);
  }

  lemma {:induction false} OldEvent(log: seq<Event>, moves: seq<Move>)
    requires moves != [] && Legal(moves, |log|) && moves[|moves| - 1].Advance?
    requires Position(moves[..|moves| - 1]) < Furthest(moves[..|moves| - 1])
    ensures var front := moves[..|moves| - 1];
            && Delivered(log, moves) + Rest(log, moves) == Delivered(log, front) + Rest(log, front)
            && Past(log, moves) == Past(log, front)
  {
    PositionsStayInLog(moves, |log|);
    PositionsStayInLog(moves[..|moves| - 1], |log|);
  }

  lemma {:induction false} Resumption(log: seq<Event>, moves: seq<Move>)
    requires moves != [] && Legal(moves, |log|) && moves[|moves| - 1].Rewind?
    ensures Position(moves[..|moves| - 1]) <= |log|
    ensures var front, to := moves[..|moves| - 1], moves[|moves| - 1].to;
            && Delivered(log, moves) == Delivered(log, front)
            && Rest(log, moves) == log[to..Position(front)] + Rest(log, front)
            && Past(log, moves) == Past(log, front) == log[..to] + Rest(log, moves)
  {
    PositionsStayInLog(moves, |log|);
    PositionsStayInLog(moves[..|moves| - 1], |log|);
  }

  /** Whatever is left of the log, what touches a row last touches it last in a single pass. */
  lemma {:induction false} LastIsLast(log: seq<Event>, moves: seq<Move>, touches: Event -> bool)
    requires Legal(moves, |log|)
    ensures LastAt(Delivered(log, moves) + Rest(log, moves), touches) == LastAt(Past(log, moves), touches)
  {
    if moves != [] {
      var front := moves[..|moves| - 1];
      LastIsLast(log, front, touches);
      PositionsStayInLog(front, |log|);
      match moves[|moves| - 1]
      case Advance =>
        if Position(front) < Furthest(front) {
          OldEvent(log, moves);
        } else {
          NewEvent(log, moves);
          LastAfterAdvance(Delivered(log, front) + Rest(log, front), Past(log, front), log[Position(front)], touches);
        }
      case Rewind(to) =>
        Resumption(log, moves);
        LastAfterRewind(Delivered(log, front), log[..to], log[to..Position(front)], Rest(log, front), touches);
    }
  }

  lemma {:induction false} RowSurvivesIff(log: seq<Event>, moves: seq<Move>, depositor: string)
    requires Legal(moves, |log|) && Position(moves) == Furthest(moves)
    ensures Furthest(moves) <= |log|
    ensures depositor in ApplyAll(EMPTY, Delivered(log, moves)).vault <==> depositor in Once(log, Furthest(moves)).vault
    ensures Row(ApplyAll(EMPTY, Delivered(log, moves)).vault, depositor) == Row(Once(log, Furthest(moves)).vault, depositor)
       <==> Cancels(Repeated(log, moves), depositor)
  {
    PositionSurvivesIff(log, moves, depositor);
    LastIsLast(log, moves, Touches(depositor));
    assert Delivered(log, moves) + Rest(log, moves) == Delivered(log, moves);
    VaultTimes(EMPTY, Delivered(log, moves), depositor);
    VaultTimes(EMPTY, log[..Furthest(moves)], depositor);
  }

  ghost predicate AllCancel(repeated: seq<Event>) {
    forall depositor: string :: Cancels(repeated, depositor)
  }

  lemma {:induction false} SameVaultIff(a: map<string, VaultRow>, b: map<string, VaultRow>, repeated: seq<Event>)
    requires forall depositor: string :: depositor in a <==> depositor in b
    requires forall depositor: string :: Row(a, depositor) == Row(b, depositor) <==> Cancels(repeated, depositor)
    ensures a == b <==> AllCancel(repeated)
  {
    if AllCancel(repeated) {
      forall depositor | depositor in a
        ensures a[depositor] == b[depositor]
      {
        assert Cancels(repeated, depositor);
        assert Row(a, depositor) == Row(b, depositor);
      }
      assert a.Keys == b.Keys;
    }
  }

  /** A caught-up delivery leaves the vault's table of a single pass if and only if every depositor's repeats cancel. */
  lemma {:induction false} VaultSurvivesIff(log: seq<Event>, moves: seq<Move>)
    requires Legal(moves, |log|) && Position(moves) == Furthest(moves)
    ensures Furthest(moves) <= |log|
    ensures ApplyAll(EMPTY, Delivered(log, moves)).vault == Once(log, Furthest(moves)).vault <==> AllCancel(Repeated(log, moves))
  {
    PositionsStayInLog(moves, |log|);
    forall depositor: string
      ensures depositor in ApplyAll(EMPTY, Delivered(log, moves)).vault <==> depositor in Once(log, Furthest(moves)).vault
      ensures Row(ApplyAll(EMPTY, Delivered(log, moves)).vault, depositor) == Row(Once(log, Furthest(moves)).vault, depositor)
         <==> Cancels(Repeated(log, moves), depositor)
    {
      RowSurvivesIff(log, moves, depositor);
    }
    SameVaultIff(ApplyAll(EMPTY, Delivered(log, moves)).vault, Once(log, Furthest(moves)).vault, Repeated(log, moves));
  }

  // ----- pair_oi -----

  function Larger(a: int, b: int): int {
    if a > b then a else b
  }

  /** The open-interest table on its own. */
  function OiRun(oi: map<int, OiRow>, log: seq<Event>): map<int, OiRow> {
    if log == [] then oi else ApplyOi(OiRun(oi, log[..|log| - 1]), log[|log| - 1])
  }

  lemma {:induction false} OiOnItsOwn(t: Tables, log: seq<Event>)
    ensures ApplyAll(t, log).oi == OiRun(t.oi, log)
  {
    if log != [] {
      OiOnItsOwn(t, log[..|log| - 1]);
      ApplyLast(t, log);
    }
  }

  /** A side that stood at `start` has come through the changes. */
  predicate Through(side: int, d: seq<int>, start: int) {
    MaxSuffix(d) >= 0 && side == Larger(MaxSuffix(d), start + Sum(d))
  }

  /** From a row, some changes lead to the larger of their largest suffix sum and the plain sum. */
  lemma {:induction false} OiAfter(oi: map<int, OiRow>, log: seq<Event>, pair: int, isLong: bool)
    requires pair in oi && Side(oi, pair, isLong) >= 0
    ensures pair in OiRun(oi, log) && Through(Side(OiRun(oi, log), pair, isLong), Deltas(log, pair, isLong), Side(oi, pair, isLong))
  {
    if log != [] {
      var front, e := log[..|log| - 1], log[|log| - 1];
      OiAfter(oi, front, pair, isLong);
      assert log == front + [e];
      OiAfterStep(OiRun(oi, front), front, e, pair, isLong, Side(oi, pair, isLong));
    }
  }

  lemma {:induction false} OiAfterStep(oi: map<int, OiRow>, front: seq<Event>, e: Event, pair: int, isLong: bool, start: int)
    requires pair in oi && start >= 0 && Through(Side(oi, pair, isLong), Deltas(front, pair, isLong), start)
    ensures pair in ApplyOi(oi, e) && Through(Side(ApplyOi(oi, e), pair, isLong), Deltas(front + [e], pair, isLong), start)
  {
    var side, d := Side(oi, pair, isLong), Deltas(front, pair, isLong);
    SideStep(oi, e, pair, isLong);
    DeltasStep(front, e, pair, isLong);
    if Adds(e, pair, isLong) {
      FlooredStep(side, d, start, e.amount.value, Side(ApplyOi(oi, e), pair, isLong), Deltas(front + [e], pair, isLong));
    } else if Subtracts(e, pair, isLong) {
      FlooredStep(side, d, start, -e.amount.value, Side(ApplyOi(oi, e), pair, isLong), Deltas(front + [e], pair, isLong));
    }
  }

  lemma {:induction false} FlooredStep(side: int, d: seq<int>, start: int, x: int, side': int, d': seq<int>)
    requires Through(side, d, start) && side' == Greatest0(side + x)
    requires MaxSuffix(d') == Greatest0(MaxSuffix(d) + x) && Sum(d') == Sum(d) + x
    ensures Through(side', d', start)
  {
  }

  /**
   The stretch's changes cancel out, or they are a decrease that leaves the row where the stretch's
   largest suffix puts it, whatever came before.
   */
  predicate OiSpared(stretch: seq<Event>, pair: int, isLong: bool, current: int) {
    var d := Deltas(stretch, pair, isLong);
    if Sum(d) == 0 then MaxSuffix(d) <= current else Sum(d) < 0 && MaxSuffix(d) == current
  }

  /** A stretch delivered again leaves a side of a pair's row where it was if and only if it is spared. */
  lemma {:induction false} OiSurvivesIff(t: Tables, stretch: seq<Event>, pair: int, isLong: bool)
    requires pair in t.oi && Side(t.oi, pair, isLong) >= 0
    ensures Side(ApplyAll(t, stretch).oi, pair, isLong) == Side(t.oi, pair, isLong)
       <==> OiSpared(stretch, pair, isLong, Side(t.oi, pair, isLong))
  {
    OiOnItsOwn(t, stretch);
    OiAfter(t.oi, stretch, pair, isLong);
  }

  lemma {:induction false} NothingMoved(log: seq<Event>, pair: int, isLong: bool)
    requires LastAt(log, TouchesOi(pair)).None?
    ensures Deltas(log, pair, isLong) == []
  {
    if log != [] {
      NothingMoved(log[..|log| - 1], pair, isLong);
    }
  }

  ghost predicate NoNegativeOi(oi: map<int, OiRow>) {
    forall pair <- oi :: oi[pair].long >= 0 && oi[pair].short >= 0
  }

  lemma {:induction false} OiStaysNonNegative(t: Tables, log: seq<Event>)
    requires NoNegativeOi(t.oi)
    ensures NoNegativeOi(ApplyAll(t, log).oi)
    decreases |log|
  {
    if log != [] {
      OiStaysNonNegative(ApplyEvent(t, log[0]), log[1..]);
    }
  }
}
