/** Funding moves money between the two sides of a book: apart from rounding, nothing is created or lost. */
module FundingBalance {
  import opened Wrappers
  import opened TruncatedDivision
  import opened FeeMath

  datatype Position = Position(isLong: bool, collateral: int, leverage: uint32)

  datatype Accumulators = Accumulators(long: int, short: int) {
    function Of(isLong: bool): int { if isLong then long else short }
  }

  /** One accrual: ledgers elapsed and the (signed) funding rate in force. */
  datatype Accrual = Accrual(deltaLedgers: uint64, rate: Option<int>)

  function OpenInterest(book: seq<Position>, isLong: bool): int {
    if book == [] then 0
    else (if book[0].isLong == isLong then book[0].collateral * book[0].leverage else 0) + OpenInterest(book[1..], isLong)
  }

  function TotalLeverage(book: seq<Position>): nat {
    if book == [] then 0 else book[0].leverage + TotalLeverage(book[1..])
  }

  function AccrueOnce(acc: Accumulators, oiLong: int, oiShort: int, step: Accrual): Accumulators {
    var (long, short) :=
      PendingAccFunding(Some(acc.long), Some(acc.short), Some(oiLong), Some(oiShort), step.deltaLedgers, step.rate);
    Accumulators(long, short)
  }

  function AccrueAll(acc: Accumulators, oiLong: int, oiShort: int, steps: seq<Accrual>): Accumulators
    decreases |steps|
  {
    if steps == [] then acc else AccrueAll(AccrueOnce(acc, oiLong, oiShort, steps[0]), oiLong, oiShort, steps[1..])
  }

  /** The funding fee of one position between two readings of its side's accumulator. */
  function FeeOf(p: Position, before: Accumulators, after: Accumulators): int {
    FundingFeeForTrade(Some(before.Of(p.isLong)), Some(after.Of(p.isLong)), Some(p.collateral), p.leverage).value
  }

  function TotalFees(book: seq<Position>, before: Accumulators, after: Accumulators): int {
    if book == [] then 0 else FeeOf(book[0], before, after) + TotalFees(book[1..], before, after)
  }

  function Max(a: int, b: int): int { if a > b then a else b }

  /** What the two sides are charged together, in accumulator units weighted by open interest. */
  function Imbalance(before: Accumulators, after: Accumulators, oiLong: int, oiShort: int): int {
    (after.long - before.long) * oiLong + (after.short - before.short) * oiShort
  }

  /** Dividing the same amount by two open interests leaves remainders of the same sign. */
  lemma RemaindersNearlyCancel(x: int, a: int, b: int)
    requires a > 0 && b > 0
    ensures Abs(Quo(x, a) * a - Quo(x, b) * b) <= Max(a, b) - 1
  {
    QuoRemainder(x, a);
    QuoRemainder(x, b);
    var u, v := a * Quo(x, a), b * Quo(x, b);
    assert Quo(x, a) * a == u && Quo(x, b) * b == v;
  }

  lemma AccrualShape(acc: Accumulators, oiLong: int, oiShort: int, step: Accrual) returns (x: int)
    requires oiLong > 0 && oiShort > 0
    ensures AccrueOnce(acc, oiLong, oiShort, step)
         == Accumulators(acc.long + Quo(x, oiLong), acc.short - Quo(x, oiShort))
  {
    if step.deltaLedgers == 0 || OrZero(step.rate) == 0 {
      x := 0;
    } else {
      x := PaidByLongs(oiLong, oiShort, step.deltaLedgers, step.rate.value) * USDC_SCALE;
    }
  }

  lemma OneAccrualIsNearlyBalanced(acc: Accumulators, oiLong: int, oiShort: int, step: Accrual)
    requires oiLong > 0 && oiShort > 0
    ensures Abs(Imbalance(acc, AccrueOnce(acc, oiLong, oiShort, step), oiLong, oiShort)) <= Max(oiLong, oiShort) - 1
  {
    var x := AccrualShape(acc, oiLong, oiShort, step);
    RemaindersNearlyCancel(x, oiLong, oiShort);
    ImbalanceOf(acc, Quo(x, oiLong), Quo(x, oiShort), oiLong, oiShort);
  }

  lemma ImbalanceOf(acc: Accumulators, gained: int, lost: int, oiLong: int, oiShort: int)
    ensures Imbalance(acc, Accumulators(acc.long + gained, acc.short - lost), oiLong, oiShort) == gained * oiLong - lost * oiShort
  {
    assert (acc.short - lost) - acc.short == -lost;
    assert -lost * oiShort == -(lost * oiShort);
  }

  lemma {:induction false} AccrualsAreNearlyBalanced(acc: Accumulators, oiLong: int, oiShort: int, steps: seq<Accrual>)
    requires oiLong > 0 && oiShort > 0
    ensures Abs(Imbalance(acc, AccrueAll(acc, oiLong, oiShort, steps), oiLong, oiShort))
         <= |steps| * (Max(oiLong, oiShort) - 1)
    decreases |steps|
  {
    var after := AccrueAll(acc, oiLong, oiShort, steps);
    if steps == [] {
      assert (acc.long - acc.long) * oiLong == 0 && (acc.short - acc.short) * oiShort == 0;
    } else {
      var acc' := AccrueOnce(acc, oiLong, oiShort, steps[0]);
      OneAccrualIsNearlyBalanced(acc, oiLong, oiShort, steps[0]);
      AccrualsAreNearlyBalanced(acc', oiLong, oiShort, steps[1..]);
      ImbalanceAdds(acc, acc', after, oiLong, oiShort);
      var m := Max(oiLong, oiShort) - 1;
      assert |steps| * m == m + (|steps| - 1) * m;
    }
  }

  lemma ImbalanceAdds(a: Accumulators, b: Accumulators, c: Accumulators, oiLong: int, oiShort: int)
    ensures Imbalance(a, c, oiLong, oiShort) == Imbalance(a, b, oiLong, oiShort) + Imbalance(b, c, oiLong, oiShort)
  {
    assert (c.long - a.long) * oiLong == (b.long - a.long) * oiLong + (c.long - b.long) * oiLong;
    assert (c.short - a.short) * oiShort == (b.short - a.short) * oiShort + (c.short - b.short) * oiShort;
  }

  /** A position's fee follows its notional, up to less than one collateral unit per unit of leverage. */
  lemma FeeFollowsNotional(p: Position, before: Accumulators, after: Accumulators)
    ensures var delta := after.Of(p.isLong) - before.Of(p.isLong);
            Abs(USDC_SCALE * FeeOf(p, before, after) - delta * (p.collateral * p.leverage)) <= (USDC_SCALE - 1) * p.leverage
  {
    var delta := after.Of(p.isLong) - before.Of(p.isLong);
    var x := delta * p.collateral;
    var q := Quo(x, USDC_SCALE);
    QuoRemainder(x, USDC_SCALE);
    assert delta * (p.collateral * p.leverage) == x * p.leverage;
    if delta == 0 {
      assert x == 0;
    } else {
      var r := x - USDC_SCALE * q;
      assert USDC_SCALE * (q * p.leverage) - x * p.leverage == -(r * p.leverage);
      ScaleBound(r, USDC_SCALE - 1, p.leverage);
    }
  }

  lemma ScaleBound(r: int, bound: int, factor: nat)
    requires -bound <= r <= bound
    ensures -(bound * factor) <= r * factor <= bound * factor
  {
  }

  /** What a side's total is off by when one more position joins it. */
  lemma ImbalanceGrows(p: Position, long: int, short: int, before: Accumulators, after: Accumulators)
    ensures var notional := p.collateral * p.leverage;
            Imbalance(before, after, (if p.isLong then notional else 0) + long, (if p.isLong then 0 else notional) + short) ==
            Imbalance(before, after, long, short) + (after.Of(p.isLong) - before.Of(p.isLong)) * notional
  {
    var notional := p.collateral * p.leverage;
    var dl, ds := after.long - before.long, after.short - before.short;
    if p.isLong {
      assert dl * (notional + long) == dl * notional + dl * long;
    } else {
      assert ds * (notional + short) == ds * notional + ds * short;
    }
  }

  lemma {:induction false} FeesFollowOpenInterest(book: seq<Position>, before: Accumulators, after: Accumulators)
    ensures Abs(USDC_SCALE * TotalFees(book, before, after)
                - Imbalance(before, after, OpenInterest(book, true), OpenInterest(book, false)))
         <= (USDC_SCALE - 1) * TotalLeverage(book)
  {
    if book != [] {
      var p, rest := book[0], book[1..];
      FeesFollowOpenInterest(rest, before, after);
      FeeFollowsNotional(p, before, after);
      ImbalanceGrows(p, OpenInterest(rest, true), OpenInterest(rest, false), before, after);
    }
  }

  lemma {:induction false} OpenInterestIsPositive(book: seq<Position>, isLong: bool)
    requires forall p <- book :: p.collateral > 0 && p.leverage > 0
    ensures OpenInterest(book, isLong) >= 0
    ensures (exists p :: p in book && p.isLong == isLong) ==> OpenInterest(book, isLong) > 0
  {
    if book != [] {
      OpenInterestIsPositive(book[1..], isLong);
      assert book[0].collateral * book[0].leverage > 0;
    }
  }

  lemma {:induction false} LeverageIsPositive(book: seq<Position>)
    requires book != [] && forall p <- book :: p.leverage > 0
    ensures TotalLeverage(book) > 0
  {
    if |book| > 1 {
      LeverageIsPositive(book[1..]);
    }
  }

  /**
   Over any book with both sides populated, and any sequence of accruals on it, what the
   positions pay in funding sums to nearly zero: the scaled total stays strictly under the
   rounding allowance of one unit per unit of leverage plus one open interest per accrual.
   */
  lemma FundingIsNearlyZeroSum(book: seq<Position>, acc: Accumulators, steps: seq<Accrual>)
    requires forall p <- book :: p.collateral > 0 && p.leverage > 0
    requires (exists p :: p in book && p.isLong) && (exists p :: p in book && !p.isLong)
    ensures var oiLong, oiShort := OpenInterest(book, true), OpenInterest(book, false);
            10_000_000 * Abs(TotalFees(book, acc, AccrueAll(acc, oiLong, oiShort, steps))) <
            10_000_000 * TotalLeverage(book) + |steps| * Max(oiLong, oiShort)
  {
    var oiLong, oiShort := OpenInterest(book, true), OpenInterest(book, false);
    OpenInterestIsPositive(book, true);
    OpenInterestIsPositive(book, false);
    LeverageIsPositive(book);
    var after := AccrueAll(acc, oiLong, oiShort, steps);
    AccrualsAreNearlyBalanced(acc, oiLong, oiShort, steps);
    FeesFollowOpenInterest(book, acc, after);
    var m := Max(oiLong, oiShort);
    assert |steps| * (m - 1) == |steps| * m - |steps|;
  }

  /** The amount is the imbalance times ledgers times rate over 10^12, rounded toward zero. */
  predicate Owed(paid: int, imbalance: int, ledgers: nat, rate: int) {
    var due := imbalance * ledgers * rate;
    && (due >= 0 ==> 0 <= 1_000_000_000_000 * paid <= due < 1_000_000_000_000 * (paid + 1))
    && (due <= 0 ==> 1_000_000_000_000 * (paid - 1) < due <= 1_000_000_000_000 * paid <= 0)
  }

  /** The gain is the amount scaled by 10^7 and spread over the open interest, rounded toward zero; nothing without any. */
  predicate Spread(gained: int, paid: int, oi: int) {
    && (oi <= 0 ==> gained == 0)
    && (oi > 0 && paid >= 0 ==> 0 <= oi * gained <= 10_000_000 * paid < oi * gained + oi)
    && (oi > 0 && paid <= 0 ==> oi * gained - oi < 10_000_000 * paid <= oi * gained <= 0)
  }

  lemma PaidIsExact(oiLong: int, oiShort: int, deltaLedgers: uint64, rate: int)
    requires deltaLedgers < 0x8000_0000_0000_0000
    ensures Owed(PaidByLongs(oiLong, oiShort, deltaLedgers, rate), oiLong - oiShort, deltaLedgers, rate)
  {
    QuoRemainder((oiLong - oiShort) * deltaLedgers * rate, 1_000_000_000_000);
  }

  lemma ProductSign(difference: int, ledgers: nat, rate: nat)
    ensures difference >= 0 ==> difference * ledgers * rate >= 0
    ensures difference <= 0 ==> difference * ledgers * rate <= 0
  {
    if difference >= 0 {
      assert difference * ledgers >= 0;
    } else {
      assert (-difference) * ledgers >= 0;
      assert ((-difference) * ledgers) * rate >= 0;
      assert ((-difference) * ledgers) * rate == -(difference * ledgers * rate);
    }
  }

  lemma IncrementIsExact(paid: int, oi: int)
    ensures Spread(FundingIncrement(paid, oi), paid, oi)
  {
    if oi > 0 {
      QuoRemainder(paid * 10_000_000, oi);
      var q := FundingIncrement(paid, oi);
      assert oi * q == oi * Quo(paid * 10_000_000, oi);
      if q < 0 {
        SignOfProduct(oi, -q);
        assert oi * -q == -(oi * q);
      } else if q > 0 {
        SignOfProduct(oi, q);
      }
    }
  }

  lemma SpreadSign(gained: int, paid: int, oi: int)
    requires Spread(gained, paid, oi)
    ensures paid >= 0 ==> gained >= 0
    ensures paid <= 0 ==> gained <= 0
  {
    if oi > 0 {
      SignOfProduct(oi, gained);
      SignOfProduct(oi, -gained);
      assert oi * -gained == -(oi * gained);
    }
  }

  /**
   At a rate that is not negative the heavier side's accumulator never falls and the lighter side's
   never rises, so that the heavier side pays and the lighter receives.
   */
  lemma HeavierSidePays(
    accLong: Option<int>, accShort: Option<int>, oiLong: Option<int>, oiShort: Option<int>, deltaLedgers: uint64, rate: Option<int>
  )
    requires deltaLedgers < 0x8000_0000_0000_0000 && OrZero(rate) >= 0
    ensures var (long, short) := PendingAccFunding(accLong, accShort, oiLong, oiShort, deltaLedgers, rate);
            && (OrZero(oiLong) >= OrZero(oiShort) ==> long >= OrZero(accLong) && short <= OrZero(accShort))
            && (OrZero(oiLong) <= OrZero(oiShort) ==> long <= OrZero(accLong) && short >= OrZero(accShort))
  {
    var (long, short) := PendingAccFunding(accLong, accShort, oiLong, oiShort, deltaLedgers, rate);
    var paid := FundingAccrualIsExact(accLong, accShort, oiLong, oiShort, deltaLedgers, rate);
    ProductSign(OrZero(oiLong) - OrZero(oiShort), deltaLedgers, OrZero(rate));
    SpreadSign(long - OrZero(accLong), paid, OrZero(oiLong));
    SpreadSign(OrZero(accShort) - short, paid, OrZero(oiShort));
  }

  /** One amount is owed; the longs' accumulator gains their spread of it and the shorts' loses theirs. */
  lemma FundingAccrualIsExact(
    accLong: Option<int>, accShort: Option<int>, oiLong: Option<int>, oiShort: Option<int>, deltaLedgers: uint64, rate: Option<int>
  ) returns (paid: int)
    requires deltaLedgers < 0x8000_0000_0000_0000
    ensures Owed(paid, OrZero(oiLong) - OrZero(oiShort), deltaLedgers, OrZero(rate))
    ensures var (long, short) := PendingAccFunding(accLong, accShort, oiLong, oiShort, deltaLedgers, rate);
            Spread(long - OrZero(accLong), paid, OrZero(oiLong)) && Spread(OrZero(accShort) - short, paid, OrZero(oiShort))
  {
    if deltaLedgers == 0 || OrZero(rate) == 0 {
      paid := 0;
      assert (OrZero(oiLong) - OrZero(oiShort)) * deltaLedgers * OrZero(rate) == 0;
    } else {
      paid := PaidByLongs(OrZero(oiLong), OrZero(oiShort), deltaLedgers, rate.value);
      PaidIsExact(OrZero(oiLong), OrZero(oiShort), deltaLedgers, rate.value);
      IncrementIsExact(paid, OrZero(oiLong));
      IncrementIsExact(paid, OrZero(oiShort));
    }
  }

  lemma PaidByLongsIsOdd(oiLong: int, oiShort: int, deltaLedgers: uint64, rate: int)
    ensures PaidByLongs(oiShort, oiLong, deltaLedgers, rate) == -PaidByLongs(oiLong, oiShort, deltaLedgers, rate)
  {
    var d := AsInt64(deltaLedgers);
    assert (oiShort - oiLong) * d == -((oiLong - oiShort) * d);
    var y := (oiLong - oiShort) * d;
    assert -y * rate == -(y * rate);
    QuoOdd(y * rate, RATE_DENOMINATOR);
  }

  lemma IncrementIsOdd(paid: int, oi: int)
    ensures FundingIncrement(-paid, oi) == -FundingIncrement(paid, oi)
  {
    if oi > 0 {
      QuoOdd(paid * USDC_SCALE, oi);
    }
  }

  /** Funding treats the two sides alike: exchanging them in the input exchanges them in the output. */
  lemma FundingIsSymmetric(
    accLong: Option<int>, accShort: Option<int>, oiLong: Option<int>, oiShort: Option<int>,
    deltaLedgers: uint64, rate: Option<int>
  )
    ensures var (long, short) := PendingAccFunding(accLong, accShort, oiLong, oiShort, deltaLedgers, rate);
            PendingAccFunding(accShort, accLong, oiShort, oiLong, deltaLedgers, rate) == (short, long)
  {
    if deltaLedgers != 0 && OrZero(rate) != 0 {
      var paid := PaidByLongs(OrZero(oiLong), OrZero(oiShort), deltaLedgers, rate.value);
      PaidByLongsIsOdd(OrZero(oiLong), OrZero(oiShort), deltaLedgers, rate.value);
      IncrementIsOdd(paid, OrZero(oiLong));
      IncrementIsOdd(paid, OrZero(oiShort));
    }
  }
}
