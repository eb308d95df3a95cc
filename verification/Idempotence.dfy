/**
 Applying an event twice in a row. The repository documents Apply as idempotent; for the position
 manager's events it is, for the two additive tables it is so only in degenerate cases. Rerun says
 when a whole stretch of events may be applied again.
 */
module Idempotence {
  import opened Wrappers
  import opened Events
  import opened SlotTables
  import opened Projection
  import OpenInterest

  /** A side at zero stays there under a further decrease; otherwise only a zero change is harmless. */
  predicate Settles(current: int, delta: int) {
    delta == 0 || (delta < 0 && current + delta <= 0)
  }

  /** Checkable before the first application. */
  predicate RepeatIsHarmless(t: Tables, e: Event) {
    && (e.source == Vault && (e.topic.Deposit? || e.topic.Withdraw?) ==> OrZero(e.shares) == 0 && OrZero(e.assets) == 0)
    && (MovesOi(e) ==>
          Settles(OpenInterest.Side(t.oi, e.pairIndex.value, e.oiIsLong.value), if e.topic.OiAdd? then e.amount.value else -e.amount.value))
  }

  lemma RepeatedStep<T, L, O>(cur: Option<Row<T, L, O>>, op: Op<T, L, O>)
    ensures Step(Upsert, Step(Upsert, cur, op), op) == Step(Upsert, cur, op)
  {
  }

  lemma RepeatedCmd<K, T, L, O>(table: map<K, Row<T, L, O>>, cmd: Cmd<K, T, L, O>)
    ensures Apply(Upsert, Apply(Upsert, table, cmd), cmd) == Apply(Upsert, table, cmd)
  {
    if cmd.At? {
      var once := Apply(Upsert, table, cmd);
      RepeatedStep(Lookup(table, cmd.key), cmd.op);
      assert Lookup(once, cmd.key) == Step(Upsert, Lookup(table, cmd.key), cmd.op);
      StoreSame(once, cmd.key);
    }
  }

  lemma StoreSame<K, V>(table: map<K, V>, key: K)
    ensures Store(table, key, Lookup(table, key)) == table
  {
  }

  lemma RepeatedFiling(t: Tables, e: Event)
    ensures var t' := ApplyEvent(t, e);
            FileTrade(t'.trades, t'.history, e) == t'.history && FileLimit(t'.limits, t'.limitHistory, e) == t'.limitHistory
  {
  }

  lemma RepeatedVaultIff(vault: map<string, VaultRow>, e: Event)
    ensures ApplyVault(ApplyVault(vault, e), e) == ApplyVault(vault, e)
       <==> (e.source == Vault && (e.topic.Deposit? || e.topic.Withdraw?) ==> OrZero(e.shares) == 0 && OrZero(e.assets) == 0)
  {
    if e.source == Vault && (e.topic.Deposit? || e.topic.Withdraw?) {
      var once, twice := ApplyVault(vault, e), ApplyVault(ApplyVault(vault, e), e);
      assert once == twice <==> once[e.trader] == twice[e.trader];
    }
  }

  lemma RepeatedOiIff(oi: map<int, OiRow>, e: Event)
    requires MovesOi(e)
    ensures ApplyOi(ApplyOi(oi, e), e) == ApplyOi(oi, e)
       <==> Settles(OpenInterest.Side(oi, e.pairIndex.value, e.oiIsLong.value), if e.topic.OiAdd? then e.amount.value else -e.amount.value)
  {
    var pair := e.pairIndex.value;
    var once, twice := ApplyOi(oi, e), ApplyOi(ApplyOi(oi, e), e);
    assert once == twice <==> once[pair] == twice[pair];
  }

  /** Applying an event a second time changes nothing if and only if it adds nothing to an additive table. */
  lemma ApplyIsIdempotentIff(t: Tables, e: Event)
    ensures ApplyEvent(ApplyEvent(t, e), e) == ApplyEvent(t, e) <==> RepeatIsHarmless(t, e)
  {
    RepeatedCmd(t.trades, ToTradeCmd(e));
    RepeatedCmd(t.limits, ToLimitCmd(e));
    RepeatedFiling(t, e);
    RepeatedVaultIff(t.vault, e);
    if MovesOi(e) {
      RepeatedOiIff(t.oi, e);
    }
  }
}
