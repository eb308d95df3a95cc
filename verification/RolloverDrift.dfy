/** How far accruing rollover in many steps may drift from accruing it in one. */
module RolloverDrift {
  import opened Wrappers
  import opened TruncatedDivision
  import opened FeeMath

  function Accrue(acc: int, deltas: seq<uint64>, rate: int): int
    decreases |deltas|
  {
    if deltas == [] then
      acc
    else
      Accrue(PendingAccRollover(Some(acc), deltas[0], Some(rate)), deltas[1..], rate)
  }

  function Total(deltas: seq<uint64>): nat {
    if deltas == [] then 0 else deltas[0] + Total(deltas[1..])
  }

  const INT64_LIMIT := 0x8000_0000_0000_0000

  /** What one accrual over `delta` ledgers adds, before any wrap-around. */
  function Increment(delta: nat, rate: nat): nat {
    Quo(delta * (rate * USDC_SCALE), RATE_DENOMINATOR)
  }

  lemma OneStep(acc: int, delta: uint64, rate: nat)
    requires delta < INT64_LIMIT
    ensures PendingAccRollover(Some(acc), delta, Some(rate)) == acc + Increment(delta, rate)
  {
    if delta == 0 {
      assert 0 * (rate * USDC_SCALE) == 0;
    } else if rate == 0 {
      assert delta * (rate * USDC_SCALE) == 0;
    }
  }

  /** Below 2^63 ledgers the increment is rate times ledgers, scaled by 10^7 over 10^12 and rounded down. */
  lemma RolloverIncrementIsExact(acc: Option<int>, delta: uint64, rate: nat)
    requires delta < 0x8000_0000_0000_0000
    ensures var added := PendingAccRollover(acc, delta, Some(rate)) - OrZero(acc);
            1_000_000_000_000 * added <= delta * (rate * 10_000_000) < 1_000_000_000_000 * (added + 1)
  {
    if delta == 0 {
      assert 0 * (rate * 10_000_000) == 0;
    } else if rate == 0 {
      assert delta * (rate * 10_000_000) == 0;
    } else {
      QuoRemainder(delta * (rate * 10_000_000), 1_000_000_000_000);
    }
  }

  /** Splitting a span in two loses at most one unit, and never gains any. */
  lemma SplitLosesAtMostOne(d: nat, e: nat, rate: nat)
    ensures Increment(d, rate) + Increment(e, rate) <= Increment(d + e, rate)
    ensures Increment(d + e, rate) <= Increment(d, rate) + Increment(e, rate) + 1
  {
    var r, n := rate * USDC_SCALE, RATE_DENOMINATOR;
    assert (d + e) * r == d * r + e * r;
    QuoRemainder(d * r, n);
    QuoRemainder(e * r, n);
    QuoRemainder((d + e) * r, n);
  }

  /**
   For every split of a span into n intervals, accruing interval by interval never
   exceeds accruing once over the whole span, and falls short by at most n - 1 units.
   */
  lemma {:induction false} DriftBound(acc: int, deltas: seq<uint64>, rate: nat)
    requires deltas != []
    requires Total(deltas) < INT64_LIMIT
    ensures var once := PendingAccRollover(Some(acc), Total(deltas), Some(rate));
            once - (|deltas| - 1) <= Accrue(acc, deltas, rate) <= once
    decreases |deltas|
  {
    var first, rest := deltas[0], deltas[1..];
    var acc' := PendingAccRollover(Some(acc), first, Some(rate));
    OneStep(acc, first, rate);
    OneStep(acc, Total(deltas), rate);
    if rest == [] {
      assert Total(deltas) == first;
    } else {
      DriftBound(acc', rest, rate);
      OneStep(acc', Total(rest), rate);
      SplitLosesAtMostOne(first, Total(rest), rate);
    }
  }

  /**
   The conversion of the ledger count to int64 is what the bound on the total
   guards against: with a non-negative rate the accumulator moves backwards on exactly
   the counts that wrap around and are worth at least one unit.
   */
  lemma AccrualMovesBackwardsIff(acc: int, delta: uint64, rate: nat)
    ensures PendingAccRollover(Some(acc), delta, Some(rate)) < acc
       <==> delta >= 0x8000_0000_0000_0000 && (0x1_0000_0000_0000_0000 - delta) * (rate * 10_000_000) >= 1_000_000_000_000
  {
    if delta < INT64_LIMIT {
      OneStep(acc, delta, rate);
    } else {
      var back := 0x1_0000_0000_0000_0000 - delta;
      var r := rate * USDC_SCALE;
      assert AsInt64(delta) * r == -(back * r);
      QuoOdd(back * r, RATE_DENOMINATOR);
      QuoFloor(back * r, RATE_DENOMINATOR, 1);
    }
  }
}
