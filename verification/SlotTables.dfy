/**
 Tables of live rows, one per slot, as all three views of the event stream keep them.
 A row has three groups of columns: the terms fixed when it is opened, the levels its
 owner may move later, and its origin, which an upsert leaves alone. The views differ
 only in what an open on an occupied slot does.
 */
module SlotTables {
  import opened Wrappers

  datatype Row<T, L, O> = Row(terms: T, levels: L, origin: O)

  datatype Op<T, L, O> = Open(row: Row<T, L, O>) | Update(levels: L) | Close

  /** An event as one table sees it: an operation on a slot, or nothing. */
  datatype Cmd<K, T, L, O> = Nop | At(key: K, op: Op<T, L, O>)

  /** What an open does on an occupied slot. */
  datatype OnDuplicate =
    | Upsert     // refresh every column but the origin
    | Overwrite  // replace the row
    | Skip       // keep the row

  function Step<T, L, O>(policy: OnDuplicate, cur: Option<Row<T, L, O>>, op: Op<T, L, O>): Option<Row<T, L, O>> {
    match op
    case Open(row) =>
      if cur.None? then Some(row)
      else (
        match policy
        case Upsert => Some(row.(origin := cur.value.origin))
        case Overwrite => Some(row)
        case Skip => cur
      )
    case Update(levels) => if cur.None? then None else Some(cur.value.(levels := levels))
    case Close => None
  }

  function Fold<T, L, O>(policy: OnDuplicate, cur: Option<Row<T, L, O>>, ops: seq<Op<T, L, O>>): Option<Row<T, L, O>>
    decreases |ops|
  {
    if ops == [] then cur else Fold(policy, Step(policy, cur, ops[0]), ops[1..])
  }

  function Lookup<K, V>(table: map<K, V>, key: K): Option<V> {
    if key in table then Some(table[key]) else None
  }

  function Store<K, V>(table: map<K, V>, key: K, value: Option<V>): map<K, V> {
    if value.Some? then table[key := value.value] else table - {key}
  }

  function Apply<K, T, L, O>(
    policy: OnDuplicate, table: map<K, Row<T, L, O>>, cmd: Cmd<K, T, L, O>
  ): map<K, Row<T, L, O>> {
    match cmd
    case Nop => table
    case At(key, op) => Store(table, key, Step(policy, Lookup(table, key), op))
  }

  function Run<K, T, L, O>(
    policy: OnDuplicate, table: map<K, Row<T, L, O>>, cmds: seq<Cmd<K, T, L, O>>
  ): map<K, Row<T, L, O>>
    decreases |cmds|
  {
    if cmds == [] then table else Run(policy, Apply(policy, table, cmds[0]), cmds[1..])
  }

  /** The operations that concern one slot, in order. */
  function OpsOn<K(==), T, L, O>(cmds: seq<Cmd<K, T, L, O>>, key: K): seq<Op<T, L, O>>
    decreases |cmds|
  {
    if cmds == [] then []
    else if cmds[0].At? && cmds[0].key == key then [cmds[0].op] + OpsOn(cmds[1..], key)
    else OpsOn(cmds[1..], key)
  }

  /** Opens come on a free slot, updates and closes on an occupied one. */
  ghost predicate Alternates<T, L, O>(occupied: bool, ops: seq<Op<T, L, O>>)
    decreases |ops|
  {
    ops == [] || ((ops[0].Open? <==> !occupied) && Alternates(!ops[0].Close?, ops[1..]))
  }

  ghost predicate WellFormed<K(!new), T, L, O>(cmds: seq<Cmd<K, T, L, O>>) {
    forall key: K :: Alternates(false, OpsOn(cmds, key))
  }

  /** A slot's row depends on that slot's operations alone. */
  lemma {:induction false} RunIsPerSlot<K, T, L, O>(
    policy: OnDuplicate, table: map<K, Row<T, L, O>>, cmds: seq<Cmd<K, T, L, O>>, key: K
  )
    ensures Lookup(Run(policy, table, cmds), key) == Fold(policy, Lookup(table, key), OpsOn(cmds, key))
    decreases |cmds|
  {
    if cmds != [] {
      RunIsPerSlot(policy, Apply(policy, table, cmds[0]), cmds[1..], key);
      if cmds[0].At? && cmds[0].key == key {
        var ops := OpsOn(cmds, key);
        assert ops[0] == cmds[0].op && ops[1..] == OpsOn(cmds[1..], key);
      }
    }
  }

  lemma SameRowsSameTable<K(!new), V>(a: map<K, V>, b: map<K, V>)
    requires forall key: K :: Lookup(a, key) == Lookup(b, key)
    ensures a == b
  {
    forall key: K
      ensures key in a <==> key in b
      ensures key in a ==> a[key] == b[key]
    {
      assert Lookup(a, key) == Lookup(b, key);
    }
  }

  /** On a well-formed log the three policies cannot be told apart. */
  lemma {:induction false} PoliciesAgree<T, L, O>(p: OnDuplicate, q: OnDuplicate, cur: Option<Row<T, L, O>>, ops: seq<Op<T, L, O>>)
    requires Alternates(cur.Some?, ops)
    ensures Fold(p, cur, ops) == Fold(q, cur, ops)
    decreases |ops|
  {
    if ops != [] {
      PoliciesAgree(p, q, Step(p, cur, ops[0]), ops[1..]);
    }
  }

  // ----- Redelivery -----

  predicate Closes<T, L, O>(ops: seq<Op<T, L, O>>) {
    exists i :: 0 <= i < |ops| && ops[i].Close?
  }

  /** A close wipes the slate: what the slot held before it is irrelevant. */
  lemma {:induction false} CloseForgets<T, L, O>(policy: OnDuplicate, a: Option<Row<T, L, O>>, b: Option<Row<T, L, O>>, ops: seq<Op<T, L, O>>)
    requires Closes(ops)
    ensures Fold(policy, a, ops) == Fold(policy, b, ops)
    decreases |ops|
  {
    if !ops[0].Close? {
      var i :| 0 <= i < |ops| && ops[i].Close?;
      assert ops[1..][i - 1].Close?;
      CloseForgets(policy, Step(policy, a, ops[0]), Step(policy, b, ops[0]), ops[1..]);
    }
  }

  /** Between an open and the next close there are only updates, and only the last one shows. */
  lemma {:induction false} UpdatesOnly<T, L, O>(policy: OnDuplicate, cur: Option<Row<T, L, O>>, ops: seq<Op<T, L, O>>)
    requires Alternates(true, ops) && !Closes(ops)
    ensures Fold(policy, cur, ops) ==
            if cur.None? || ops == [] then cur else Some(cur.value.(levels := Last(ops).levels))
    decreases |ops|
  {
    if ops != [] {
      assert !ops[0].Close?;
      var rest := ops[1..];
      assert forall i | 0 <= i < |rest| :: rest[i] == ops[i + 1];
      UpdatesOnly(policy, Step(policy, cur, ops[0]), rest);
      LastIsUpdate(ops);
    }
  }

  function Last<T, L, O>(ops: seq<Op<T, L, O>>): (op: Op<T, L, O>)
    requires ops != [] && Alternates(true, ops) && !Closes(ops)
    ensures op.Update?
  {
    LastIsUpdate(ops);
    ops[|ops| - 1]
  }

  lemma {:induction false} LastIsUpdate<T, L, O>(ops: seq<Op<T, L, O>>)
    requires ops != [] && Alternates(true, ops) && !Closes(ops)
    ensures ops[|ops| - 1].Update?
    decreases |ops|
  {
    assert !ops[0].Close?;
    if |ops| > 1 {
      var rest := ops[1..];
      assert forall i | 0 <= i < |rest| :: rest[i] == ops[i + 1];
      LastIsUpdate(rest);
    }
  }

  /**
   The heart of redelivery. If a row, however stale, is carried to the right result by the
   rest of the log, then so is the row obtained by first repeating the operation before.
   */
  lemma RepeatingHeals<T, L, O>(
    policy: OnDuplicate, cur: Option<Row<T, L, O>>, truth: Option<Row<T, L, O>>, op: Op<T, L, O>, rest: seq<Op<T, L, O>>
  )
    requires op.Open? <==> truth.None?
    requires Alternates(Step(policy, truth, op).Some?, rest)
    requires Fold(policy, cur, rest) == Fold(policy, Step(policy, truth, op), rest)
    ensures Fold(policy, Step(policy, cur, op), rest) == Fold(policy, Step(policy, truth, op), rest)
  {
    if Closes(rest) {
      CloseForgets(policy, Step(policy, cur, op), Step(policy, truth, op), rest);
    } else if !op.Close? {
      UpdatesOnly(policy, cur, rest);
      UpdatesOnly(policy, Step(policy, cur, op), rest);
      UpdatesOnly(policy, Step(policy, truth, op), rest);
    }
  }
}
