/**
 The gateway recomputes fees and liquidation price from decimal strings, the keeper from big
 integers. They show the same live price.
 */
module LiveLiquidation {
  import opened Wrappers
  import opened Decimals
  import opened TruncatedDivision
  import opened FeeMath
  import opened Events
  import opened Gateway
  import opened KeeperState
  import opened Detector

  datatype FeeSnapshot = FeeSnapshot(liqThresholdP: uint32, accRollover: string, accFundingLong: string, accFundingShort: string)

  datatype Dynamics = Dynamics(rolloverFee: Option<int>, fundingFee: Option<int>, liq: Option<int>)

  function CalculateTradeTimeFeesAndLiq(
    openPrice: string, collateral: string, accRolloverOpen: string, accFundingOpen: string,
    accRolloverNow: string, accFundingNow: string, isLong: bool, leverage: uint32, liqThresholdP: uint32
  ): Dynamics {
    FeesAndLiq(Parse(openPrice), Parse(collateral), Parse(accRolloverOpen), Parse(accFundingOpen),
               Parse(accRolloverNow), Parse(accFundingNow), isLong, leverage, liqThresholdP)
  }

  /** The computation on the parsed numbers; one that does not parse stops it. */
  function FeesAndLiq(
    open: Option<int>, collat: Option<int>, rollOpen: Option<int>, fundingOpen: Option<int>,
    rollNow: Option<int>, fundingNow: Option<int>, isLong: bool, leverage: uint32, liqThresholdP: uint32
  ): Dynamics {
    if open.None? || collat.None? || rollOpen.None? || fundingOpen.None? || rollNow.None? || fundingNow.None? then
      Dynamics(None, None, None)
    else
      match RolloverFeeForTrade(rollOpen, rollNow, collat)
      case Err(_) => Dynamics(None, None, None)
      case Ok(rolloverFee) =>
        match FundingFeeForTrade(fundingOpen, fundingNow, collat, leverage)
        case Err(_) => Dynamics(Some(rolloverFee), None, None)
        case Ok(fundingFee) =>
          var threshold := if liqThresholdP == 0 then 90 else liqThresholdP;
          match LiquidationPrice(open, isLong, collat, leverage, Some(rolloverFee), Some(fundingFee), threshold)
          case Err(_) => Dynamics(Some(rolloverFee), Some(fundingFee), None)
          case Ok(liq) => Dynamics(Some(rolloverFee), Some(fundingFee), Some(liq))
  }

  function DynamicsOf(t: CachedTrade, snap: FeeSnapshot): Dynamics {
    CalculateTradeTimeFeesAndLiq(
      t.openPrice, t.collateral, t.accRolloverOpen, t.accFundingOpen,
      snap.accRollover, if t.isLong then snap.accFundingLong else snap.accFundingShort,
      t.isLong, t.leverage, snap.liqThresholdP)
  }

  function WithDefaults(t: CachedTrade): CachedTrade {
    t.(currentLiqPrice := if t.currentLiqPrice == "" then t.liqPrice else t.currentLiqPrice,
       rolloverFee := if t.rolloverFee == "" then "0" else t.rolloverFee,
       fundingFee := if t.fundingFee == "" then "0" else t.fundingFee)
  }

  function Shown(x: Option<int>, otherwise: string): string {
    if x.Some? then Print(x.value) else otherwise
  }

  /** A trade as sent to subscribers, with whatever could be computed from the current accumulators. */
  function Enrich(t: CachedTrade, fees: map<int, FeeSnapshot>): CachedTrade {
    var d := WithDefaults(t);
    if t.pair !in fees || fees[t.pair].accRollover == "" || fees[t.pair].accFundingLong == "" || fees[t.pair].accFundingShort == "" then
      d
    else
      var dyn := DynamicsOf(t, fees[t.pair]);
      d.(rolloverFee := Shown(dyn.rolloverFee, d.rolloverFee),
         fundingFee := Shown(dyn.fundingFee, d.fundingFee),
         currentLiqPrice := Shown(dyn.liq, d.currentLiqPrice))
  }

  method EnrichTrades(trades: seq<CachedTrade>, fees: map<int, FeeSnapshot>) returns (out: seq<CachedTrade>)
    ensures |out| == |trades| && forall i | 0 <= i < |out| :: out[i] == Enrich(trades[i], fees)
  {
    out := trades;
    for i := 0 to |out|
      invariant |out| == |trades|
      invariant forall j | 0 <= j < i :: out[j] == Enrich(trades[j], fees)
      invariant forall j | i <= j < |out| :: out[j] == trades[j]
    {
      var t := WithDefaults(out[i]);
      if t.pair in fees {
        var snap := fees[t.pair];
        if snap.accRollover != "" && snap.accFundingLong != "" && snap.accFundingShort != "" {
          var dyn := DynamicsOf(t, snap);
          if dyn.rolloverFee.Some? {
            t := t.(rolloverFee := Print(dyn.rolloverFee.value));
          }
          if dyn.fundingFee.Some? {
            t := t.(fundingFee := Print(dyn.fundingFee.value));
          }
          if dyn.liq.Some? {
            t := t.(currentLiqPrice := Print(dyn.liq.value));
          }
        }
      }
      out := out[i := t];
    }
  }

  // ----- Agreement with the keeper -----

  /** The cached trade prints the numbers of the keeper's entry, missing ones as zero. */
  predicate Prints(c: CachedTrade, t: TradeView) {
    && c.isLong == t.isLong && c.leverage == t.leverage
    && c.openPrice == BigStr(t.openPrice) && c.collateral == BigStr(t.collateral)
    && c.accRolloverOpen == BigStr(t.accRolloverOpen) && c.accFundingOpen == BigStr(t.accFundingOpen)
  }

  /** The snapshot prints the accumulators the keeper holds. */
  predicate PrintsFees(snap: FeeSnapshot, fee: PairFees) {
    && snap.accRollover == BigStr(fee.accRollover)
    && snap.accFundingLong == BigStr(fee.accFundingLong) && snap.accFundingShort == BigStr(fee.accFundingShort)
  }

  /** A missing threshold reads as 90 percent, in both services. */
  function Effective(liqThresholdP: uint32): uint32 {
    if liqThresholdP == 0 then 90 else liqThresholdP
  }

  function ToOption(r: Result<int, MathError>): Option<int> {
    match r
    case Ok(v) => Some(v)
    case Err(_) => None
  }

  lemma BigStrRoundTrip(b: Option<int>)
    ensures Parse(BigStr(b)) == Some(OrZero(b))
    ensures BigStr(b) != ""
  {
    PrintRoundTrip(OrZero(b));
    assert Print(0) == "0";
    assert Parse("").None?;
  }

  function FeeRunUp(accOpen: int, accNow: int, collateral: int): int {
    if accNow - accOpen == 0 then 0 else Quo((accNow - accOpen) * collateral, USDC_SCALE)
  }

  /** The live price when every missing number counts as zero, under a threshold. */
  function ZeroFilled(t: TradeView, fee: PairFees, liqThresholdP: uint32): Result<int, MathError> {
    var fundingNow := if t.isLong then fee.accFundingLong else fee.accFundingShort;
    LiquidationPrice(Some(OrZero(t.openPrice)), t.isLong, Some(OrZero(t.collateral)), t.leverage,
                     Some(FeeRunUp(OrZero(t.accRolloverOpen), OrZero(fee.accRollover), OrZero(t.collateral))),
                     Some(FeeRunUp(OrZero(t.accFundingOpen), OrZero(fundingNow), OrZero(t.collateral)) * t.leverage),
                     Effective(liqThresholdP))
  }

  lemma NumbersGiveZeroFilled(t: TradeView, fee: PairFees, liqThresholdP: uint32)
    ensures FeesAndLiq(Some(OrZero(t.openPrice)), Some(OrZero(t.collateral)), Some(OrZero(t.accRolloverOpen)),
                       Some(OrZero(t.accFundingOpen)), Some(OrZero(fee.accRollover)),
                       Some(OrZero(if t.isLong then fee.accFundingLong else fee.accFundingShort)),
                       t.isLong, t.leverage, liqThresholdP).liq == ToOption(ZeroFilled(t, fee, liqThresholdP))
  {
  }

  lemma GatewayFillsWithZero(c: CachedTrade, t: TradeView, snap: FeeSnapshot, fee: PairFees)
    requires Prints(c, t) && PrintsFees(snap, fee)
    ensures DynamicsOf(c, snap).liq == ToOption(ZeroFilled(t, fee, snap.liqThresholdP))
  {
    var fundingNow := if t.isLong then fee.accFundingLong else fee.accFundingShort;
    BigStrRoundTrip(t.openPrice);
    BigStrRoundTrip(t.collateral);
    BigStrRoundTrip(t.accRolloverOpen);
    BigStrRoundTrip(t.accFundingOpen);
    BigStrRoundTrip(fee.accRollover);
    BigStrRoundTrip(fundingNow);
    NumbersGiveZeroFilled(t, fee, snap.liqThresholdP);
  }

  lemma KeeperNeedsPriceAndCollateral(t: TradeView, fee: PairFees)
    ensures CurrentLiquidationPrice(t, fee).Ok? <==> t.openPrice.Some? && OrZero(t.collateral) != 0 && t.leverage != 0
    ensures CurrentLiquidationPrice(t, fee).Ok? ==> CurrentLiquidationPrice(t, fee) == ZeroFilled(t, fee, t.liqThresholdP)
  {
  }

  lemma ZeroFilledIsDefinedIff(t: TradeView, fee: PairFees, liqThresholdP: uint32)
    ensures ZeroFilled(t, fee, liqThresholdP).Ok? <==> OrZero(t.collateral) != 0 && t.leverage != 0
  {
  }

  /**
   Printing and parsing lose nothing, so under the same threshold both services compute the same
   live price, errors included - except that a missing open price, an error to the keeper, is a
   price of zero to the gateway.
   */
  lemma LivePricesAgreeIff(c: CachedTrade, t: TradeView, snap: FeeSnapshot, fee: PairFees)
    requires Prints(c, t) && PrintsFees(snap, fee) && Effective(snap.liqThresholdP) == Effective(t.liqThresholdP)
    ensures DynamicsOf(c, snap).liq == ToOption(CurrentLiquidationPrice(t, fee))
       <==> t.openPrice.Some? || OrZero(t.collateral) == 0 || t.leverage == 0
  {
    GatewayFillsWithZero(c, t, snap, fee);
    KeeperNeedsPriceAndCollateral(t, fee);
    ZeroFilledIsDefinedIff(t, fee, snap.liqThresholdP);
  }

  // ----- Thresholds -----

  predicate Whole(t: TradeView) {
    t.openPrice.Some? && OrZero(t.collateral) != 0 && t.leverage != 0
  }

  predicate SamePrice(c: CachedTrade, t: TradeView, snap: FeeSnapshot, fee: PairFees) {
    DynamicsOf(c, snap).liq == ToOption(CurrentLiquidationPrice(t, fee))
  }

  /** The two services agree on every whole trade held under the one threshold and shown under the other. */
  ghost predicate AgreeOnAll(held: uint32, shown: uint32) {
    forall c: CachedTrade, t: TradeView, snap: FeeSnapshot, fee: PairFees
      | Prints(c, t) && PrintsFees(snap, fee) && Whole(t) && t.liqThresholdP == held && snap.liqThresholdP == shown
      :: SamePrice(c, t, snap, fee)
  }

  const NO_FEES := PairFees(Some(0), Some(0), Some(0))

  /** A trade without fees whose collateral equals its open price, at leverage one. */
  function PlainTrade(isLong: bool, price: nat, held: uint32): TradeView {
    TradeView(Slot("", 0, 0), isLong, 1, Some(price), Some(price), Some(0), Some(0), held, None, None, None)
  }

  function Printed(t: TradeView): CachedTrade {
    CachedTrade("", 0, 0, t.isLong, t.leverage, BigStr(t.collateral), BigStr(t.openPrice), BigStr(t.accRolloverOpen),
                BigStr(t.accFundingOpen), "0", "0", "0", "0", "0", "0", 0)
  }

  function PrintedFees(fee: PairFees, shown: uint32): FeeSnapshot {
    FeeSnapshot(shown, BigStr(fee.accRollover), BigStr(fee.accFundingLong), BigStr(fee.accFundingShort))
  }

  /** Without fees, one unit of threshold is one unit of distance at a price of one hundred. */
  lemma PlainShortPrice(held: uint32, threshold: uint32)
    ensures ZeroFilled(PlainTrade(false, 100, held), NO_FEES, threshold) == Ok(100 + Effective(threshold))
  {
    PercentOfHundred(Effective(threshold));
  }

  lemma PercentOfHundred(p: uint32)
    ensures Quo(100 * p, 100) == p && Quo(p, 1) == p
    ensures CollateralThreshold(100, p) == p
  {
  }

  /** Both services agree on every whole trade if and only if the thresholds are the same after the default. */
  lemma ThresholdsMustMatch(held: uint32, shown: uint32)
    ensures AgreeOnAll(held, shown) <==> Effective(held) == Effective(shown)
  {
    if Effective(held) == Effective(shown) {
      forall c: CachedTrade, t: TradeView, snap: FeeSnapshot, fee: PairFees
        | Prints(c, t) && PrintsFees(snap, fee) && Whole(t) && t.liqThresholdP == held && snap.liqThresholdP == shown
        ensures SamePrice(c, t, snap, fee)
      {
        LivePricesAgreeIff(c, t, snap, fee);
      }
    } else {
      var t := PlainTrade(false, 100, held);
      PlainShortDisagrees(held, shown);
      assert !SamePrice(Printed(t), t, PrintedFees(NO_FEES, shown), NO_FEES);
    }
  }

  lemma PlainShortDisagrees(held: uint32, shown: uint32)
    requires Effective(held) != Effective(shown)
    ensures var t, snap := PlainTrade(false, 100, held), PrintedFees(NO_FEES, shown);
            Prints(Printed(t), t) && PrintsFees(snap, NO_FEES) && Whole(t) && !SamePrice(Printed(t), t, snap, NO_FEES)
  {
    var t, snap := PlainTrade(false, 100, held), PrintedFees(NO_FEES, shown);
    GatewayFillsWithZero(Printed(t), t, snap, NO_FEES);
    KeeperNeedsPriceAndCollateral(t, NO_FEES);
    PlainShortPrice(held, shown);
    PlainShortPrice(held, held);
  }

  /** Every entry taken from the feed is held under 90 percent, so it agrees only for pairs of 90 percent or none. */
  lemma FedEntriesAgreeIff(shown: uint32)
    ensures AgreeOnAll(90, shown) <==> shown == 90 || shown == 0
  {
    ThresholdsMustMatch(90, shown);
  }

  /** Without fees, one unit of threshold is ten units of distance for a collateral of 100 opened at 1000. */
  lemma LongAtThousand(t: TradeView, threshold: uint32)
    requires t.isLong && t.leverage == 1 && t.collateral == Some(100) && t.openPrice == Some(1000)
    requires t.accRolloverOpen == Some(0) && t.accFundingOpen == Some(0) && 0 < threshold <= 100
    ensures ZeroFilled(t, NO_FEES, threshold) == Ok(1000 - 10 * threshold)
  {
    PercentOfHundred(threshold);
    assert Quo(1000 * threshold, 100) == 10 * threshold && Quo(10 * threshold, 1) == 10 * threshold;
    assert Distance(1000, 100, 1, threshold) == 10 * threshold;
  }

  /** On a pair at 80 percent, a long opened at 1000 shows 200 while the keeper liquidates it at 100. */
  lemma FedEntryDisagrees()
    ensures var t := TradeView(Slot("", 0, 0), true, 1, Some(100), Some(1000), Some(0), Some(0), 90, None, None, None);
            && Prints(Printed(t), t) && PrintsFees(PrintedFees(NO_FEES, 80), NO_FEES)
            && CurrentLiquidationPrice(t, NO_FEES) == Ok(100)
            && DynamicsOf(Printed(t), PrintedFees(NO_FEES, 80)).liq == Some(200)
  {
    var t := TradeView(Slot("", 0, 0), true, 1, Some(100), Some(1000), Some(0), Some(0), 90, None, None, None);
    GatewayFillsWithZero(Printed(t), t, PrintedFees(NO_FEES, 80), NO_FEES);
    KeeperNeedsPriceAndCollateral(t, NO_FEES);
    LongAtThousand(t, 80);
    LongAtThousand(t, 90);
  }

  // ----- What subscribers see -----

  /** What a subscriber is shown is the price the detector acts on. */
  predicate SeenIsActedOn(c: CachedTrade, t: TradeView, fees: map<int, FeeSnapshot>, fee: PairFees) {
    Parse(Enrich(c, fees).currentLiqPrice) == Some(OrZero(EffectiveLiqPrice(t, Some(fee))))
  }

  /** The cached entry is the keeper's, priced at the open alike, and its pair's accumulators are those the keeper holds. */
  predicate Mirrors(c: CachedTrade, t: TradeView, fees: map<int, FeeSnapshot>, fee: PairFees) {
    && c.pair in fees && Prints(c, t) && PrintsFees(fees[c.pair], fee)
    && t.openPrice.Some? && c.liqPrice == c.currentLiqPrice == BigStr(t.liqPrice)
  }

  lemma SubscribersSeeTheDetectorsPrice(c: CachedTrade, t: TradeView, fees: map<int, FeeSnapshot>, fee: PairFees)
    requires Mirrors(c, t, fees, fee) && Effective(fees[c.pair].liqThresholdP) == Effective(t.liqThresholdP)
    ensures SeenIsActedOn(c, t, fees, fee)
  {
    var snap := fees[c.pair];
    LivePricesAgreeIff(c, t, snap, fee);
    BigStrRoundTrip(fee.accRollover);
    BigStrRoundTrip(fee.accFundingLong);
    BigStrRoundTrip(fee.accFundingShort);
    BigStrRoundTrip(t.liqPrice);
    var dyn := DynamicsOf(c, snap);
    if dyn.liq.Some? {
      PrintRoundTrip(dyn.liq.value);
    }
  }

  // ----- The fees shown -----

  /** The keeper's fee; without a collateral, where the keeper has none, there is nothing to charge. */
  function FeeOrNothing(r: Result<int, MathError>): int {
    match r
    case Ok(v) => v
    case Err(_) => 0
  }

  lemma NumbersGiveTheFees(t: TradeView, fee: PairFees, liqThresholdP: uint32)
    ensures var fundingNow := if t.isLong then fee.accFundingLong else fee.accFundingShort;
            var dyn := FeesAndLiq(Some(OrZero(t.openPrice)), Some(OrZero(t.collateral)), Some(OrZero(t.accRolloverOpen)),
                                  Some(OrZero(t.accFundingOpen)), Some(OrZero(fee.accRollover)), Some(OrZero(fundingNow)),
                                  t.isLong, t.leverage, liqThresholdP);
            && dyn.rolloverFee == Some(FeeOrNothing(RolloverFeeForTrade(t.accRolloverOpen, fee.accRollover, t.collateral)))
            && dyn.fundingFee == Some(FeeOrNothing(FundingFeeForTrade(t.accFundingOpen, fundingNow, t.collateral, t.leverage)))
  {
    assert Quo(0, USDC_SCALE) == 0;
  }

  /** Each fee is shown under its own name, as the keeper charges it: rollover on the pair, funding on the trade's side. */
  lemma SubscribersSeeTheFees(c: CachedTrade, t: TradeView, fees: map<int, FeeSnapshot>, fee: PairFees)
    requires c.pair in fees && Prints(c, t) && PrintsFees(fees[c.pair], fee)
    ensures Parse(Enrich(c, fees).rolloverFee)
         == Some(FeeOrNothing(RolloverFeeForTrade(t.accRolloverOpen, fee.accRollover, t.collateral)))
    ensures Parse(Enrich(c, fees).fundingFee)
         == Some(FeeOrNothing(FundingFeeForTrade(t.accFundingOpen, if t.isLong then fee.accFundingLong else fee.accFundingShort,
                                                 t.collateral, t.leverage)))
  {
    BigStrRoundTrip(t.openPrice);
    BigStrRoundTrip(t.collateral);
    BigStrRoundTrip(t.accRolloverOpen);
    BigStrRoundTrip(t.accFundingOpen);
    BigStrRoundTrip(fee.accRollover);
    BigStrRoundTrip(fee.accFundingLong);
    BigStrRoundTrip(fee.accFundingShort);
    NumbersGiveTheFees(t, fee, fees[c.pair].liqThresholdP);
    var dyn := DynamicsOf(c, fees[c.pair]);
    PrintRoundTrip(dyn.rolloverFee.value);
    PrintRoundTrip(dyn.fundingFee.value);
  }

  /** For a pair without a snapshot, or with an accumulator missing from it, what the cache holds is shown, and defaults for what it lacks. */
  lemma StoredValuesAreShown(c: CachedTrade, fees: map<int, FeeSnapshot>)
    requires c.pair in fees ==> "" in [fees[c.pair].accRollover, fees[c.pair].accFundingLong, fees[c.pair].accFundingShort]
    ensures Enrich(c, fees).rolloverFee == if c.rolloverFee == "" then "0" else c.rolloverFee
    ensures Enrich(c, fees).fundingFee == if c.fundingFee == "" then "0" else c.fundingFee
    ensures Enrich(c, fees).currentLiqPrice == if c.currentLiqPrice == "" then c.liqPrice else c.currentLiqPrice
  {
  }

  /** Everything else is shown as it is held. */
  lemma RestIsUntouched(c: CachedTrade, fees: map<int, FeeSnapshot>)
    ensures var seen := Enrich(c, fees);
            seen == c.(rolloverFee := seen.rolloverFee, fundingFee := seen.fundingFee, currentLiqPrice := seen.currentLiqPrice)
  {
  }

  ghost predicate SeenOnAll(held: uint32, shown: uint32) {
    forall c: CachedTrade, t: TradeView, fees: map<int, FeeSnapshot>, fee: PairFees
      | Mirrors(c, t, fees, fee) && t.liqThresholdP == held && fees[c.pair].liqThresholdP == shown
      :: SeenIsActedOn(c, t, fees, fee)
  }

  /** Every subscriber sees the price the detector acts on if and only if the thresholds are the same after the default. */
  lemma SubscribersSeeIff(held: uint32, shown: uint32)
    ensures SeenOnAll(held, shown) <==> Effective(held) == Effective(shown)
  {
    if Effective(held) == Effective(shown) {
      forall c: CachedTrade, t: TradeView, fees: map<int, FeeSnapshot>, fee: PairFees
        | Mirrors(c, t, fees, fee) && t.liqThresholdP == held && fees[c.pair].liqThresholdP == shown
        ensures SeenIsActedOn(c, t, fees, fee)
      {
        SubscribersSeeTheDetectorsPrice(c, t, fees, fee);
      }
    } else {
      PlainShortIsSeenWrong(held, shown);
    }
  }

  lemma PlainShortIsSeenWrong(held: uint32, shown: uint32)
    requires Effective(held) != Effective(shown)
    ensures var t, fees := PlainTrade(false, 100, held), map[0 := PrintedFees(NO_FEES, shown)];
            Mirrors(Printed(t), t, fees, NO_FEES) && !SeenIsActedOn(Printed(t), t, fees, NO_FEES)
  {
    var t, snap := PlainTrade(false, 100, held), PrintedFees(NO_FEES, shown);
    BigStrRoundTrip(Some(0));
    assert Print(0) == "0";
    GatewayFillsWithZero(Printed(t), t, snap, NO_FEES);
    KeeperNeedsPriceAndCollateral(t, NO_FEES);
    PlainShortPrice(held, shown);
    PlainShortPrice(held, held);
    PrintRoundTrip(100 + Effective(shown));
  }
}
