/** Vault positions: what the running additions and subtractions amount to. */
module VaultLedger {
  import opened Wrappers
  import opened Events
  import opened Projection

  predicate MovesVault(e: Event, depositor: string) {
    e.source == Vault && (e.topic.Deposit? || e.topic.Withdraw?) && e.trader == depositor
  }

  /** The total of a column over the depositor's deposits, or over the withdrawals. */
  function Total(log: seq<Event>, depositor: string, topic: Topic, amount: Event -> int): int {
    if log == [] then 0
    else
      var e := log[|log| - 1];
      Total(log[..|log| - 1], depositor, topic, amount) + if MovesVault(e, depositor) && e.topic == topic then amount(e) else 0
  }

  function SharesOf(e: Event): int { OrZero(e.shares) }

  function AssetsOf(e: Event): int { OrZero(e.assets) }

  function Row(vault: map<string, VaultRow>, depositor: string): VaultRow {
    if depositor in vault then vault[depositor] else VaultRow(0, 0, 0, 0)
  }

  lemma RowStep(vault: map<string, VaultRow>, e: Event, depositor: string)
    ensures var r, r' := Row(vault, depositor), Row(ApplyVault(vault, e), depositor);
            if !MovesVault(e, depositor) then r' == r
            else if e.topic.Deposit? then
              r' == VaultRow(r.shares + SharesOf(e), r.totalDeposited + AssetsOf(e), r.totalWithdrawn, e.at)
            else
              r' == VaultRow(r.shares - SharesOf(e), r.totalDeposited, r.totalWithdrawn + AssetsOf(e), e.at)
  {
  }

  /** After any log: shares are deposits minus withdrawals, and the two totals are just that. */
  lemma {:induction false} PositionsAddUp(log: seq<Event>, depositor: string)
    ensures var r := Row(ApplyAll(EMPTY, log).vault, depositor);
            && r.shares == Total(log, depositor, Deposit, SharesOf) - Total(log, depositor, Withdraw, SharesOf)
            && r.totalDeposited == Total(log, depositor, Deposit, AssetsOf)
            && r.totalWithdrawn == Total(log, depositor, Withdraw, AssetsOf)
  {
    if log != [] {
      var front, e := log[..|log| - 1], log[|log| - 1];
      assert log == front + [e];
      ApplyAllConcat(EMPTY, front, [e]);
      assert ApplyAll(EMPTY, log) == ApplyEvent(ApplyAll(EMPTY, front), e);
      PositionsAddUp(front, depositor);
      RowStep(ApplyAll(EMPTY, front).vault, e, depositor);
    }
  }
}
