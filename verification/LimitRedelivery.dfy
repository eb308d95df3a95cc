/**
 When the limit-order history survives redelivery. It has no uniqueness guard, so a resolution
 delivered again is filed again if it finds its order live.
 */
module LimitRedelivery {
  import opened Wrappers
  import opened Events
  import opened SlotTables
  import opened Projection
  import opened Deliveries
  import opened CrashConvergence

  /** Both a placement and a resolution. */
  predicate Mixed<T, L, O>(ops: seq<Op<T, L, O>>) {
    (exists i | 0 <= i < |ops| :: ops[i].Open?) && exists i | 0 <= i < |ops| :: ops[i].Close?
  }

  /** Run over such a row, the operations resolve a live order. */
  predicate Resolves<T, L, O>(live: bool, ops: seq<Op<T, L, O>>)
    decreases |ops|
  {
    ops != [] &&
    match ops[0]
    case Open(_) => Resolves(true, ops[1..])
    case Update(_) => Resolves(live, ops[1..])
    case Close => live || Resolves(false, ops[1..])
  }

  /** Whether a slot is occupied after the operations. */
  predicate LiveAfter<T, L, O>(live: bool, ops: seq<Op<T, L, O>>)
    decreases |ops|
  {
    if ops == [] then live
    else LiveAfter(if ops[0].Open? then true else if ops[0].Close? then false else live, ops[1..])
  }

  lemma {:induction false} LiveAfterIs<T, L, O>(policy: OnDuplicate, cur: Option<Row<T, L, O>>, ops: seq<Op<T, L, O>>)
    ensures LiveAfter(cur.Some?, ops) <==> Fold(policy, cur, ops).Some?
    decreases |ops|
  {
    if ops != [] {
      LiveAfterIs(policy, Step(policy, cur, ops[0]), ops[1..]);
    }
  }

  lemma {:induction false} ResolvesConcat<T, L, O>(live: bool, a: seq<Op<T, L, O>>, b: seq<Op<T, L, O>>)
    ensures Resolves(live, a + b) <==> Resolves(live, a) || Resolves(LiveAfter(live, a), b)
    ensures LiveAfter(live, a + b) == LiveAfter(LiveAfter(live, a), b)
    decreases |a|
  {
    if a == [] {
      assert a + b == b;
    } else {
      assert (a + b)[1..] == a[1..] + b;
      ResolvesConcat(if a[0].Open? then true else if a[0].Close? then false else live, a[1..], b);
    }
  }

  lemma {:induction false} Unmixed<T, L, O>(live: bool, ops: seq<Op<T, L, O>>)
    ensures (forall i | 0 <= i < |ops| :: !ops[i].Close?) ==> !Resolves(live, ops) && (live ==> LiveAfter(live, ops))
    ensures (forall i | 0 <= i < |ops| :: !ops[i].Open?) ==> !Resolves(false, ops) && !LiveAfter(false, ops)
    decreases |ops|
  {
    if ops != [] {
      var rest := ops[1..];
      assert forall i | 0 <= i < |rest| :: rest[i] == ops[i + 1];
      Unmixed(live, rest);
      Unmixed(true, rest);
    }
  }

  lemma {:induction false} SomeClose<T, L, O>(ops: seq<Op<T, L, O>>, i: nat)
    requires i < |ops| && ops[i].Close?
    ensures Resolves(true, ops)
    decreases |ops|
  {
    if i > 0 {
      if ops[0].Update? || ops[0].Open? {
        SomeClose(ops[1..], i - 1);
      }
    }
  }

  lemma {:induction false} SomeOpen<T, L, O>(live: bool, ops: seq<Op<T, L, O>>, i: nat)
    requires i < |ops| && ops[i].Open?
    ensures LiveAfter(live, ops) || Resolves(live, ops)
    decreases |ops|
  {
    var rest := ops[1..];
    if i > 0 {
      assert rest[i - 1] == ops[i];
      SomeOpen(if ops[0].Open? then true else if ops[0].Close? then false else live, rest, i - 1);
    } else {
      OpenThen(rest);
    }
  }

  lemma {:induction false} OpenThen<T, L, O>(ops: seq<Op<T, L, O>>)
    ensures LiveAfter(true, ops) || Resolves(true, ops)
    decreases |ops|
  {
    if ops != [] {
      OpenThen(ops[1..]);
    }
  }

  /** Run again over what they left, some operations resolve a live order exactly if they are mixed. */
  lemma {:induction false} ResolvesAgainIff<T, L, O>(truth: bool, ops: seq<Op<T, L, O>>)
    requires Alternates(truth, ops)
    ensures Resolves(LiveAfter(truth, ops), ops) <==> Mixed(ops)
  {
    if forall i | 0 <= i < |ops| :: !ops[i].Close? {
      Unmixed(LiveAfter(truth, ops), ops);
    } else if forall i | 0 <= i < |ops| :: !ops[i].Open? {
      WithoutPlacements(truth, ops);
      Unmixed(false, ops);
    } else {
      var i :| 0 <= i < |ops| && ops[i].Close?;
      SomeClose(ops, i);
      var j :| 0 <= j < |ops| && ops[j].Open?;
      SomeOpen(false, ops, j);
      LiveAfterForgets(truth, false, ops, j);
    }
  }

  /** Whether a slot was occupied does not matter once it was opened. */
  lemma {:induction false} LiveAfterForgets<T, L, O>(a: bool, b: bool, ops: seq<Op<T, L, O>>, i: nat)
    requires i < |ops| && ops[i].Open?
    ensures LiveAfter(a, ops) == LiveAfter(b, ops)
    decreases |ops|
  {
    if ops[0].Update? {
      LiveAfterForgets(a, b, ops[1..], i - 1);
    }
  }

  /** Without a placement, a resolution is the last operation. */
  lemma {:induction false} WithoutPlacements<T, L, O>(occupied: bool, ops: seq<Op<T, L, O>>)
    requires Alternates(occupied, ops) && forall i | 0 <= i < |ops| :: !ops[i].Open?
    requires exists i | 0 <= i < |ops| :: ops[i].Close?
    ensures !LiveAfter(occupied, ops)
    decreases |ops|
  {
    var rest := ops[1..];
    assert !ops[0].Open?;
    assert forall i | 0 <= i < |rest| :: rest[i] == ops[i + 1];
    if !ops[0].Close? {
      var i :| 0 <= i < |ops| && ops[i].Close?;
      assert rest[i - 1].Close?;
      WithoutPlacements(occupied, rest);
    }
  }

  // ----- On whole deliveries -----

  predicate Files<K(==), T, L, O>(table: map<K, Row<T, L, O>>, cmd: Cmd<K, T, L, O>) {
    cmd.At? && cmd.op.Close? && cmd.key in table
  }

  /** No redelivered resolution found its order live, on one slot. */
  ghost predicate NothingRefiledOn<K, T, L, O>(log: seq<Cmd<K, T, L, O>>, moves: seq<Move>, key: K)
    requires Legal(moves, |log|)
  {
    moves == [] ||
    var front := moves[..|moves| - 1];
    && NothingRefiledOn(log, front, key)
    && (moves[|moves| - 1].Advance? && Position(front) < Furthest(front) && log[Position(front)].At? && log[Position(front)].key == key ==>
          !Files(Run(Upsert, map[], Delivered(log, front)), log[Position(front)]))
  }

  ghost predicate UnmixedRewindsOn<K, T, L, O>(log: seq<Cmd<K, T, L, O>>, moves: seq<Move>, key: K)
    requires Legal(moves, |log|)
  {
    moves == [] ||
    var front := moves[..|moves| - 1];
    && UnmixedRewindsOn(log, front, key)
    && (moves[|moves| - 1].Rewind? ==> !Mixed(OpsOn(Stretch(log, front, moves[|moves| - 1].to), key)))
  }

  /** No redelivered resolution found its order live. */
  ghost predicate NothingRefiled<K, T, L, O>(log: seq<Cmd<K, T, L, O>>, moves: seq<Move>)
    requires Legal(moves, |log|)
  {
    moves == [] ||
    var front := moves[..|moves| - 1];
    && NothingRefiled(log, front)
    && (moves[|moves| - 1].Advance? && Position(front) < Furthest(front) ==>
          !Files(Run(Upsert, map[], Delivered(log, front)), log[Position(front)]))
  }

  ghost predicate StretchIsUnmixed<K(!new), T, L, O>(stretch: seq<Cmd<K, T, L, O>>) {
    forall key: K :: !Mixed(OpsOn(stretch, key))
  }

  /** No rewind goes back over a placement and a resolution of one slot. */
  ghost predicate UnmixedRewinds<K(!new), T, L, O>(log: seq<Cmd<K, T, L, O>>, moves: seq<Move>)
    requires Legal(moves, |log|)
  {
    moves == [] ||
    var front := moves[..|moves| - 1];
    && UnmixedRewinds(log, front)
    && (moves[|moves| - 1].Rewind? ==> StretchIsUnmixed(Stretch(log, front, moves[|moves| - 1].to)))
  }

  predicate IsLive<K(==), T, L, O>(table: map<K, Row<T, L, O>>, key: K) {
    key in table
  }

  /** Delivering the rest of the log up to the furthest point would resolve a live order of the slot. */
  ghost predicate Doomed<K, T, L, O>(log: seq<Cmd<K, T, L, O>>, moves: seq<Move>, key: K)
    requires Legal(moves, |log|)
  {
    PositionsStayInLog(moves, |log|);
    Resolves(IsLive(Run(Upsert, map[], Delivered(log, moves)), key), OpsOn(log[Position(moves)..Furthest(moves)], key))
  }

  /** The rest of the log leaves the slot as occupied as a single pass does, and so it is already. */
  ghost predicate Level<K, T, L, O>(log: seq<Cmd<K, T, L, O>>, moves: seq<Move>, key: K)
    requires Legal(moves, |log|)
  {
    PositionsStayInLog(moves, |log|);
    IsLive(Run(Upsert, map[], Delivered(log, moves)), key) <==> IsLive(Run(Upsert, map[], log[..Furthest(moves)]), key)
  }

  lemma {:induction false} LivenessOf<K(!new), T, L, O>(log: seq<Cmd<K, T, L, O>>, to: nat, goal: nat, key: K)
    requires WellFormed(log) && to <= goal <= |log|
    ensures var truth, ops := Fold(Upsert, None, OpsOn(log[..to], key)).Some?, OpsOn(log[to..goal], key);
            Alternates(truth, ops) && (IsLive(Run(Upsert, map[], log[..goal]), key) <==> LiveAfter(truth, ops))
  {
    var past, ops := OpsOn(log[..to], key), OpsOn(log[to..goal], key);
    assert log[..goal] == log[..to] + log[to..goal];
    OpsOnConcat(log[..to], log[to..goal], key);
    WellFormedSplits(Upsert, log, goal, key);
    AlternatesSplits(Upsert, None, past, ops);
    FoldConcat(Upsert, None, past, ops);
    RunIsPerSlot(Upsert, map[], log[..goal], key);
    LiveAfterIs(Upsert, Fold(Upsert, None, past), ops);
  }

  lemma {:induction false} LivenessStep<K, T, L, O>(policy: OnDuplicate, table: map<K, Row<T, L, O>>, cmd: Cmd<K, T, L, O>, key: K)
    ensures IsLive(Apply(policy, table, cmd), key) <==> LiveAfter(IsLive(table, key), OpsOn([cmd], key))
  {
    if cmd.At? && cmd.key == key {
      assert OpsOn([cmd], key) == [cmd.op];
    } else {
      assert OpsOn([cmd], key) == [];
    }
  }

  /** An event delivered again: the rest of the log is one event shorter. */
  lemma {:induction false} RestStep<K, T, L, O>(log: seq<Cmd<K, T, L, O>>, at: nat, goal: nat, live: bool, key: K)
    requires at < goal <= |log|
    ensures var ops, rest := OpsOn([log[at]], key), OpsOn(log[at + 1..goal], key);
            && OpsOn(log[at..goal], key) == ops + rest
            && (Resolves(live, ops + rest) <==> Resolves(live, ops) || Resolves(LiveAfter(live, ops), rest))
            && LiveAfter(live, ops + rest) == LiveAfter(LiveAfter(live, ops), rest)
  {
    assert log[at..goal] == [log[at]] + log[at + 1..goal];
    OpsOnConcat([log[at]], log[at + 1..goal], key);
    ResolvesConcat(live, OpsOn([log[at]], key), OpsOn(log[at + 1..goal], key));
  }

  lemma {:induction false} OneResolves<K, T, L, O>(table: map<K, Row<T, L, O>>, cmd: Cmd<K, T, L, O>, key: K)
    ensures Resolves(IsLive(table, key), OpsOn([cmd], key)) <==> Files(table, cmd) && cmd.key == key
  {
    if cmd.At? && cmd.key == key {
      assert OpsOn([cmd], key) == [cmd.op];
      assert [cmd.op][1..] == [];
    } else {
      assert OpsOn([cmd], key) == [];
    }
  }

  lemma {:induction false} StaysLevel<T, L, O>(live: bool, truth: bool, op: Op<T, L, O>, rest: seq<Op<T, L, O>>)
    requires !Resolves(live, [op] + rest) && LiveAfter(truth, [op] + rest) == live
    ensures LiveAfter(live, [op]) == live
  {
    assert ([op] + rest)[1..] == rest && [op][1..] == [];
    if op.Open? && !live {
      SomeOpen(live, [op] + rest, 0);
    }
  }

  lemma {:induction false} OccupiedResolvesMore<T, L, O>(ops: seq<Op<T, L, O>>)
    ensures Resolves(false, ops) ==> Resolves(true, ops)
    decreases |ops|
  {
    if ops != [] {
      OccupiedResolvesMore(ops[1..]);
    }
  }

  lemma {:induction false} ResolvesLonger<T, L, O>(live: bool, a: seq<Op<T, L, O>>, b: seq<Op<T, L, O>>)
    requires Resolves(live, b)
    ensures Resolves(live, a + b)
    decreases |a|
  {
    if a == [] {
      assert a + b == b;
    } else {
      assert (a + b)[1..] == a[1..] + b;
      OccupiedResolvesMore(b);
      if a[0].Open? {
        ResolvesLonger(true, a[1..], b);
      } else if a[0].Update? || !live {
        ResolvesLonger(live, a[1..], b);
      }
    }
  }

  lemma {:induction false} DeliveredNext<K, T, L, O>(log: seq<Cmd<K, T, L, O>>, moves: seq<Move>, key: K)
    requires moves != [] && Legal(moves, |log|) && moves[|moves| - 1].Advance?
    ensures var front := moves[..|moves| - 1];
            var live := IsLive(Run(Upsert, map[], Delivered(log, front)), key);
            IsLive(Run(Upsert, map[], Delivered(log, moves)), key) <==> LiveAfter(live, OpsOn([log[Position(front)]], key))
  {
    var front := moves[..|moves| - 1];
    RunConcat(Upsert, map[], Delivered(log, front), [log[Position(front)]]);
    LivenessStep(Upsert, Run(Upsert, map[], Delivered(log, front)), log[Position(front)], key);
  }

  lemma {:induction false} OneAtMost<K, T, L, O>(cmd: Cmd<K, T, L, O>, key: K)
    ensures OpsOn([cmd], key) == if cmd.At? && cmd.key == key then [cmd.op] else []
  {
  }

  /** An event delivered for the first time keeps the slot level. */
  lemma {:induction false} NewKeepsLevel<K(!new), T, L, O>(log: seq<Cmd<K, T, L, O>>, moves: seq<Move>, key: K)
    requires moves != [] && Legal(moves, |log|) && moves[|moves| - 1].Advance?
    requires var front := moves[..|moves| - 1]; Position(front) == Furthest(front) && Level(log, front, key)
    ensures Level(log, moves, key) && !Doomed(log, moves, key)
  {
    PositionsStayInLog(moves, |log|);
    var at := Position(moves[..|moves| - 1]);
    DeliveredNext(log, moves, key);
    assert log[..at + 1] == log[..at] + [log[at]];
    RunConcat(Upsert, map[], log[..at], [log[at]]);
    LivenessStep(Upsert, Run(Upsert, map[], log[..at]), log[at], key);
    assert OpsOn(log[Position(moves)..Furthest(moves)], key) == [];
  }

  /** So does one delivered again while the slot is not doomed. */
  lemma {:induction false} OldKeepsLevel<K(!new), T, L, O>(log: seq<Cmd<K, T, L, O>>, moves: seq<Move>, key: K)
    requires WellFormed(log) && moves != [] && Legal(moves, |log|) && moves[|moves| - 1].Advance?
    requires var front := moves[..|moves| - 1];
             Position(front) < Furthest(front) && Level(log, front, key) && !Doomed(log, front, key)
    ensures Level(log, moves, key) && !Doomed(log, moves, key)
    ensures var front := moves[..|moves| - 1];
            !(Files(Run(Upsert, map[], Delivered(log, front)), log[Position(front)]) && log[Position(front)].key == key)
  {
    var front := moves[..|moves| - 1];
    PositionsStayInLog(front, |log|);
    var at, goal := Position(front), Furthest(front);
    var table := Run(Upsert, map[], Delivered(log, front));
    var ops, rest := OpsOn([log[at]], key), OpsOn(log[at + 1..goal], key);
    RestStep(log, at, goal, IsLive(table, key), key);
    OneResolves(table, log[at], key);
    DeliveredNext(log, moves, key);
    LivenessOf(log, at, goal, key);
    OneAtMost(log[at], key);
    if ops != [] {
      StaysLevel(IsLive(table, key), Fold(Upsert, None, OpsOn(log[..at], key)).Some?, ops[0], rest);
    }
  }

  lemma {:induction false} UnmixedRefilesNothing<K(!new), T, L, O>(log: seq<Cmd<K, T, L, O>>, moves: seq<Move>, key: K)
    requires WellFormed(log) && Legal(moves, |log|) && UnmixedRewindsOn(log, moves, key)
    ensures NothingRefiledOn(log, moves, key) && Level(log, moves, key) && !Doomed(log, moves, key)
  {
    PositionsStayInLog(moves, |log|);
    if moves == [] {
      assert log[..0] == [];
    } else {
      var front := moves[..|moves| - 1];
      PositionsStayInLog(front, |log|);
      UnmixedRefilesNothing(log, front, key);
      match moves[|moves| - 1]
      case Advance =>
        if Position(front) == Furthest(front) {
          NewKeepsLevel(log, moves, key);
        } else {
          OldKeepsLevel(log, moves, key);
        }
      case Rewind(to) =>
        RewindKeepsLevel(log, moves, key);
    }
  }

  /** A rewind over a stretch from a level slot dooms it exactly if the stretch is mixed. */
  lemma {:induction false} RewindKeepsLevel<K(!new), T, L, O>(log: seq<Cmd<K, T, L, O>>, moves: seq<Move>, key: K)
    requires WellFormed(log) && moves != [] && Legal(moves, |log|) && moves[|moves| - 1].Rewind?
    requires Level(log, moves[..|moves| - 1], key)
    ensures Level(log, moves, key)
    ensures Doomed(log, moves, key) <==> Mixed(OpsOn(Stretch(log, moves[..|moves| - 1], moves[|moves| - 1].to), key))
  {
    var front, to := moves[..|moves| - 1], moves[|moves| - 1].to;
    PositionsStayInLog(front, |log|);
    assert Delivered(log, moves) == Delivered(log, front);
    LivenessOf(log, to, Furthest(front), key);
    ResolvesAgainIff(Fold(Upsert, None, OpsOn(log[..to], key)).Some?, OpsOn(log[to..Furthest(front)], key));
  }

  lemma {:induction false} MixedStaysDoomed<K(!new), T, L, O>(log: seq<Cmd<K, T, L, O>>, moves: seq<Move>, key: K)
    requires WellFormed(log) && Legal(moves, |log|)
    requires NothingRefiledOn(log, moves, key) && !UnmixedRewindsOn(log, moves, key)
    ensures Doomed(log, moves, key)
  {
    var front := moves[..|moves| - 1];
    PositionsStayInLog(front, |log|);
    var at, goal := Position(front), Furthest(front);
    if UnmixedRewindsOn(log, front, key) {
      UnmixedRefilesNothing(log, front, key);
      RewindKeepsLevel(log, moves, key);
    } else {
      MixedStaysDoomed(log, front, key);
      var table := Run(Upsert, map[], Delivered(log, front));
      match moves[|moves| - 1]
      case Advance =>
        if at < goal {
          RestStep(log, at, goal, IsLive(table, key), key);
          OneResolves(table, log[at], key);
          DeliveredNext(log, moves, key);
        }
      case Rewind(to) =>
        assert Delivered(log, moves) == Delivered(log, front);
        assert log[to..goal] == log[to..at] + log[at..goal];
        OpsOnConcat(log[to..at], log[at..goal], key);
        ResolvesLonger(IsLive(table, key), OpsOn(log[to..at], key), OpsOn(log[at..goal], key));
    }
  }

  lemma {:induction false} RefiledOnIff<K(!new), T, L, O>(log: seq<Cmd<K, T, L, O>>, moves: seq<Move>, key: K)
    requires WellFormed(log) && Legal(moves, |log|) && Position(moves) == Furthest(moves)
    ensures NothingRefiledOn(log, moves, key) <==> UnmixedRewindsOn(log, moves, key)
  {
    if UnmixedRewindsOn(log, moves, key) {
      UnmixedRefilesNothing(log, moves, key);
    } else if NothingRefiledOn(log, moves, key) {
      MixedStaysDoomed(log, moves, key);
      NothingIsLeft(log, moves, key);
    }
  }

  lemma {:induction false} NothingIsLeft<K, T, L, O>(log: seq<Cmd<K, T, L, O>>, moves: seq<Move>, key: K)
    requires Legal(moves, |log|) && Position(moves) == Furthest(moves)
    ensures !Doomed(log, moves, key)
  {
    PositionsStayInLog(moves, |log|);
    assert log[Position(moves)..Furthest(moves)] == [];
  }

  lemma {:induction false} OnEverySlot<K(!new), T, L, O>(log: seq<Cmd<K, T, L, O>>, moves: seq<Move>, key: K)
    requires Legal(moves, |log|)
    ensures NothingRefiled(log, moves) ==> NothingRefiledOn(log, moves, key)
    ensures UnmixedRewinds(log, moves) ==> UnmixedRewindsOn(log, moves, key)
  {
    if moves != [] {
      OnEverySlot(log, moves[..|moves| - 1], key);
    }
  }

  lemma {:induction false} OnSomeSlot<K(!new), T, L, O>(log: seq<Cmd<K, T, L, O>>, moves: seq<Move>)
    requires Legal(moves, |log|)
    ensures (forall key: K :: NothingRefiledOn(log, moves, key)) ==> NothingRefiled(log, moves)
    ensures (forall key: K :: UnmixedRewindsOn(log, moves, key)) ==> UnmixedRewinds(log, moves)
  {
    if moves != [] {
      var front := moves[..|moves| - 1];
      OnSomeSlot(log, front);
      if forall key: K :: NothingRefiledOn(log, moves, key) {
        forall key: K
          ensures NothingRefiledOn(log, front, key)
        {
          assert NothingRefiledOn(log, moves, key);
        }
        if moves[|moves| - 1].Advance? && Position(front) < Furthest(front) && log[Position(front)].At? {
          assert NothingRefiledOn(log, moves, log[Position(front)].key);
        }
      }
      if forall key: K :: UnmixedRewindsOn(log, moves, key) {
        forall key: K
          ensures UnmixedRewindsOn(log, front, key)
        {
          assert UnmixedRewindsOn(log, moves, key);
        }
        if moves[|moves| - 1].Rewind? {
          var stretch := Stretch(log, front, moves[|moves| - 1].to);
          forall key: K
            ensures !Mixed(OpsOn(stretch, key))
          {
            assert UnmixedRewindsOn(log, moves, key);
          }
        }
      }
    }
  }

  lemma {:induction false} NothingRefiledIff<K(!new), T, L, O>(log: seq<Cmd<K, T, L, O>>, moves: seq<Move>)
    requires WellFormed(log) && Legal(moves, |log|) && Position(moves) == Furthest(moves)
    ensures NothingRefiled(log, moves) <==> UnmixedRewinds(log, moves)
  {
    forall key: K
      ensures NothingRefiled(log, moves) ==> UnmixedRewindsOn(log, moves, key)
      ensures UnmixedRewinds(log, moves) ==> NothingRefiledOn(log, moves, key)
    {
      OnEverySlot(log, moves, key);
      RefiledOnIff(log, moves, key);
    }
    OnSomeSlot(log, moves);
  }

  lemma {:induction false} RefiledIsCounted(log: seq<Event>, moves: seq<Move>)
    requires Legal(moves, |log|)
    ensures Refiled(log, moves) == 0 <==> NothingRefiled(LimitCmds(log), moves)
  {
    if moves != [] {
      var front := moves[..|moves| - 1];
      RefiledIsCounted(log, front);
      DeliveredCmds(log, front);
      LiveTablesAreRuns(EMPTY, Delivered(log, front));
    }
  }

  /**
   On a caught-up delivery the limit-order history is that of a single pass if and only if no rewind
   went back over both a placement and a resolution of one slot, up to the furthest point reached by then.
   */
  lemma {:induction false} LimitHistoryIsExactIff(log: seq<Event>, moves: seq<Move>)
    requires WellFormedLog(log) && Legal(moves, |log|) && Position(moves) == Furthest(moves)
    ensures Furthest(moves) <= |log|
    ensures ApplyAll(EMPTY, Delivered(log, moves)).limitHistory == Once(log, Furthest(moves)).limitHistory
       <==> UnmixedRewinds(LimitCmds(log), moves)
  {
    LimitHistoryIsExactIffNoneRefiled(log, moves);
    RefiledIsCounted(log, moves);
    NothingRefiledIff(LimitCmds(log), moves);
  }
}
