/**
 At-least-once delivery of a log. The consumer advances through the log one entry at a
 time, and after a crash resumes from any point it has already passed.
 */
module Deliveries {
  import opened Wrappers
  import opened SlotTables

  datatype Move = Advance | Rewind(to: nat)

  function Position(moves: seq<Move>): nat {
    if moves == [] then 0
    else
      match moves[|moves| - 1]
      case Advance => Position(moves[..|moves| - 1]) + 1
      case Rewind(to) => to
  }

  function Furthest(moves: seq<Move>): nat {
    if moves == [] then 0
    else
      var before, here := Furthest(moves[..|moves| - 1]), Position(moves);
      if here > before then here else before
  }

  /** No move goes past the end of the log or skips an entry not yet delivered. */
  ghost predicate Legal(moves: seq<Move>, length: nat) {
    moves == [] ||
    var front := moves[..|moves| - 1];
    && Legal(front, length)
    && match moves[|moves| - 1]
       case Advance => Position(front) < length
       case Rewind(to) => to <= Position(front)
  }

  ghost function Delivered<X>(log: seq<X>, moves: seq<Move>): seq<X>
    requires Legal(moves, |log|)
  {
    if moves == [] then []
    else
      var front := moves[..|moves| - 1];
      Delivered(log, front) + if moves[|moves| - 1].Advance? then [log[Position(front)]] else []
  }

  lemma {:induction false} PositionsStayInLog(moves: seq<Move>, length: nat)
    requires Legal(moves, length)
    ensures Position(moves) <= Furthest(moves) <= length
  {
    if moves != [] {
      PositionsStayInLog(moves[..|moves| - 1], length);
    }
  }

  /** What a rewind goes back over, up to the furthest point reached by then. */
  ghost function Stretch<X>(log: seq<X>, front: seq<Move>, to: nat): seq<X>
    requires Legal(front, |log|) && to <= Position(front)
  {
    PositionsStayInLog(front, |log|);
    log[to..Furthest(front)]
  }

  lemma AppendMove<X>(log: seq<X>, front: seq<Move>, move: Move)
    requires Legal(front, |log|)
    requires if move.Advance? then Position(front) < |log| else move.to <= Position(front)
    ensures Legal(front + [move], |log|)
    ensures Position(front + [move]) == if move.Advance? then Position(front) + 1 else move.to
    ensures Furthest(front + [move]) ==
            if move.Advance? && Position(front) == Furthest(front) then Furthest(front) + 1 else Furthest(front)
    ensures Delivered(log, front + [move]) == Delivered(log, front) + if move.Advance? then [log[Position(front)]] else []
  {
    assert (front + [move])[..|front|] == front;
    PositionsStayInLog(front, |log|);
  }

  // ----- How the table functions split over concatenation -----

  lemma {:induction false} RunConcat<K, T, L, O>(
    policy: OnDuplicate, table: map<K, Row<T, L, O>>, a: seq<Cmd<K, T, L, O>>, b: seq<Cmd<K, T, L, O>>
  )
    ensures Run(policy, table, a + b) == Run(policy, Run(policy, table, a), b)
    decreases |a|
  {
    if a == [] {
      assert a + b == b;
    } else {
      assert (a + b)[1..] == a[1..] + b;
      RunConcat(policy, Apply(policy, table, a[0]), a[1..], b);
    }
  }

  lemma {:induction false} OpsOnConcat<K, T, L, O>(a: seq<Cmd<K, T, L, O>>, b: seq<Cmd<K, T, L, O>>, key: K)
    ensures OpsOn(a + b, key) == OpsOn(a, key) + OpsOn(b, key)
    decreases |a|
  {
    if a == [] {
      assert a + b == b;
    } else {
      assert (a + b)[1..] == a[1..] + b;
      OpsOnConcat(a[1..], b, key);
    }
  }

  lemma {:induction false} FoldConcat<T, L, O>(policy: OnDuplicate, cur: Option<Row<T, L, O>>, a: seq<Op<T, L, O>>, b: seq<Op<T, L, O>>)
    ensures Fold(policy, cur, a + b) == Fold(policy, Fold(policy, cur, a), b)
    decreases |a|
  {
    if a == [] {
      assert a + b == b;
    } else {
      assert (a + b)[1..] == a[1..] + b;
      FoldConcat(policy, Step(policy, cur, a[0]), a[1..], b);
    }
  }

  lemma {:induction false} AlternatesSplits<T, L, O>(policy: OnDuplicate, cur: Option<Row<T, L, O>>, a: seq<Op<T, L, O>>, b: seq<Op<T, L, O>>)
    requires Alternates(cur.Some?, a + b)
    ensures Alternates(cur.Some?, a)
    ensures Alternates(Fold(policy, cur, a).Some?, b)
    decreases |a|
  {
    if a == [] {
      assert a + b == b;
    } else {
      assert (a + b)[1..] == a[1..] + b;
      AlternatesSplits(policy, Step(policy, cur, a[0]), a[1..], b);
    }
  }

  /** A prefix of a well-formed log is well formed, and so is what follows it, slot by slot. */
  lemma WellFormedSplits<K(!new), T, L, O>(policy: OnDuplicate, log: seq<Cmd<K, T, L, O>>, at: nat, key: K)
    requires WellFormed(log) && at <= |log|
    ensures Alternates(false, OpsOn(log[..at], key))
    ensures Alternates(Fold(policy, None, OpsOn(log[..at], key)).Some?, OpsOn(log[at..], key))
  {
    assert log[..at] + log[at..] == log;
    OpsOnConcat(log[..at], log[at..], key);
    AlternatesSplits(policy, None, OpsOn(log[..at], key), OpsOn(log[at..], key));
  }

  // ----- Convergence -----

  /** Delivering the rest of the log up to `goal` brings the row to where an undisturbed run has it there. */
  ghost predicate Heals<K, T, L, O>(policy: OnDuplicate, log: seq<Cmd<K, T, L, O>>, row: Option<Row<T, L, O>>, at: nat, goal: nat, key: K)
    requires at <= goal <= |log|
  {
    Fold(policy, row, OpsOn(log[at..goal], key)) == Fold(policy, None, OpsOn(log[..goal], key))
  }

  lemma StepBackHeals<K(!new), T, L, O>(
    policy: OnDuplicate, log: seq<Cmd<K, T, L, O>>, row: Option<Row<T, L, O>>, at: nat, goal: nat, key: K
  )
    requires WellFormed(log) && at < goal <= |log|
    requires Heals(policy, log, row, at + 1, goal, key)
    ensures Heals(policy, log, row, at, goal, key)
  {
    var rest := log[at + 1..goal];
    assert log[at..goal] == [log[at]] + rest;
    if log[at].At? && log[at].key == key {
      var op := log[at].op;
      var past, ops := OpsOn(log[..at], key), OpsOn(rest, key);
      var truth := Fold(policy, None, past);
      assert log[..goal] == log[..at] + log[at..goal];
      OpsOnConcat(log[..at], log[at..goal], key);
      assert OpsOn(log[at..goal], key) == [op] + ops;
      WellFormedSplits(policy, log, goal, key);
      AlternatesSplits(policy, None, past, [op] + ops);
      assert ([op] + ops)[1..] == ops;
      FoldConcat(policy, None, past, [op] + ops);
      RepeatingHeals(policy, row, truth, op, ops);
    }
  }

  lemma {:induction false} RewindHeals<K(!new), T, L, O>(
    policy: OnDuplicate, log: seq<Cmd<K, T, L, O>>, row: Option<Row<T, L, O>>, at: nat, to: nat, goal: nat, key: K
  )
    requires WellFormed(log) && to <= at <= goal <= |log|
    requires Heals(policy, log, row, at, goal, key)
    ensures Heals(policy, log, row, to, goal, key)
    decreases at
  {
    if to < at {
      StepBackHeals(policy, log, row, at - 1, goal, key);
      RewindHeals(policy, log, row, at - 1, to, goal, key);
    }
  }

  lemma AdvanceHeals<K(!new), T, L, O>(
    policy: OnDuplicate, log: seq<Cmd<K, T, L, O>>, table: map<K, Row<T, L, O>>, at: nat, goal: nat, key: K
  )
    requires at <= goal <= |log| && at < |log|
    requires Heals(policy, log, Lookup(table, key), at, goal, key)
    ensures var row := Lookup(Apply(policy, table, log[at]), key);
            Heals(policy, log, row, at + 1, if at == goal then goal + 1 else goal, key)
  {
    var cmd := log[at];
    if at == goal {
      assert log[..goal + 1] == log[..goal] + [cmd];
      OpsOnConcat(log[..goal], [cmd], key);
      assert OpsOn([cmd], key) == if cmd.At? && cmd.key == key then [cmd.op] else [];
      FoldConcat(policy, None, OpsOn(log[..goal], key), OpsOn([cmd], key));
    } else {
      assert log[at..goal] == [cmd] + log[at + 1..goal];
      if cmd.At? && cmd.key == key {
        assert OpsOn(log[at..goal], key)[1..] == OpsOn(log[at + 1..goal], key);
      }
    }
  }

  /** At every point of every delivery, the rest of the log heals whatever state the table is in. */
  lemma {:induction false} EveryDeliveryHeals<K(!new), T, L, O>(
    policy: OnDuplicate, log: seq<Cmd<K, T, L, O>>, moves: seq<Move>, key: K
  )
    requires WellFormed(log) && Legal(moves, |log|)
    ensures Position(moves) <= Furthest(moves) <= |log|
    ensures var row := Lookup(Run(policy, map[], Delivered(log, moves)), key);
            Heals(policy, log, row, Position(moves), Furthest(moves), key)
  {
    PositionsStayInLog(moves, |log|);
    if moves != [] {
      var front := moves[..|moves| - 1];
      PositionsStayInLog(front, |log|);
      EveryDeliveryHeals(policy, log, front, key);
      var at, goal := Position(front), Furthest(front);
      var table := Run(policy, map[], Delivered(log, front));
      match moves[|moves| - 1]
      case Advance =>
        RunConcat(policy, map[], Delivered(log, front), [log[at]]);
        AdvanceHeals(policy, log, table, at, goal, key);
      case Rewind(to) =>
        assert Delivered(log, moves) == Delivered(log, front);
        RewindHeals(policy, log, Lookup(table, key), at, to, goal, key);
    }
  }

  /**
   Convergence: whatever the crashes, once the furthest point reached has been delivered
   again, the table is the one a single undisturbed pass leaves.
   */
  lemma DeliveryConverges<K(!new), T, L, O>(policy: OnDuplicate, log: seq<Cmd<K, T, L, O>>, moves: seq<Move>)
    requires WellFormed(log) && Legal(moves, |log|)
    requires Position(moves) == Furthest(moves)
    ensures Furthest(moves) <= |log|
    ensures Run(policy, map[], Delivered(log, moves)) == Run(policy, map[], log[..Furthest(moves)])
  {
    PositionsStayInLog(moves, |log|);
    var goal := Furthest(moves);
    var table, once := Run(policy, map[], Delivered(log, moves)), Run(policy, map[], log[..goal]);
    forall key: K
      ensures Lookup(table, key) == Lookup(once, key)
    {
      EveryDeliveryHeals(policy, log, moves, key);
      RunIsPerSlot(policy, map[], log[..goal], key);
    }
    SameRowsSameTable(table, once);
  }

  /** On a well-formed log the policies leave the same table at every prefix. */
  lemma PoliciesLeaveTheSameTable<K(!new), T, L, O>(p: OnDuplicate, q: OnDuplicate, log: seq<Cmd<K, T, L, O>>, at: nat)
    requires WellFormed(log) && at <= |log|
    ensures Run(p, map[], log[..at]) == Run(q, map[], log[..at])
  {
    forall key: K
      ensures Lookup(Run(p, map[], log[..at]), key) == Lookup(Run(q, map[], log[..at]), key)
    {
      RunIsPerSlot(p, map[], log[..at], key);
      RunIsPerSlot(q, map[], log[..at], key);
      WellFormedSplits(p, log, at, key);
      PoliciesAgree(p, q, None, OpsOn(log[..at], key));
    }
    SameRowsSameTable(Run(p, map[], log[..at]), Run(q, map[], log[..at]));
  }
}
