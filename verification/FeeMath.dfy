/** The keeper's fixed-point arithmetic: accumulator accrual, per-trade fees and liquidation price. */
module FeeMath {
  import opened Wrappers
  import opened TruncatedDivision

  const HUNDRED := 100
  const P_SCALE := 10_000_000_000
  const USDC_SCALE := 10_000_000
  const RATE_DENOMINATOR := P_SCALE * HUNDRED

  datatype MathError = DivByZero | Invalid

  /** Go's int64(x) on an unsigned 64-bit value: the upper half wraps to negative numbers. */
  function AsInt64(x: uint64): int {
    if x < 0x8000_0000_0000_0000 then x else x - 0x1_0000_0000_0000_0000
  }

  function PendingAccRollover(acc: Option<int>, deltaLedgers: uint64, feePerLedger: Option<int>): int {
    if deltaLedgers == 0 || OrZero(feePerLedger) == 0 then
      OrZero(acc)
    else
      OrZero(acc) + Quo(AsInt64(deltaLedgers) * (feePerLedger.value * USDC_SCALE), RATE_DENOMINATOR)
  }

  function PaidByLongs(oiLong: int, oiShort: int, deltaLedgers: uint64, feePerLedger: int): int {
    Quo((oiLong - oiShort) * AsInt64(deltaLedgers) * feePerLedger, RATE_DENOMINATOR)
  }

  /** A side without open interest has nobody to charge: its accumulator stands still. */
  function FundingIncrement(paid: int, oi: int): int {
    if oi > 0 then Quo(paid * USDC_SCALE, oi) else 0
  }

  function PendingAccFunding(
    accLong: Option<int>, accShort: Option<int>, oiLong: Option<int>, oiShort: Option<int>,
    deltaLedgers: uint64, feePerLedger: Option<int>
  ): (int, int) {
    if deltaLedgers == 0 || OrZero(feePerLedger) == 0 then
      (OrZero(accLong), OrZero(accShort))
    else
      var paid := PaidByLongs(OrZero(oiLong), OrZero(oiShort), deltaLedgers, feePerLedger.value);
      (OrZero(accLong) + FundingIncrement(paid, OrZero(oiLong)),
       OrZero(accShort) - FundingIncrement(paid, OrZero(oiShort)))
  }

  function RolloverFeeForTrade(accOpen: Option<int>, accNow: Option<int>, collateral: Option<int>): Result<int, MathError> {
    if collateral.None? then
      Err(Invalid)
    else
      var delta := OrZero(accNow) - OrZero(accOpen);
      if delta == 0 then Ok(0) else Ok(Quo(delta * collateral.value, USDC_SCALE))
  }

  function FundingFeeForTrade(
    accOpen: Option<int>, accNow: Option<int>, collateral: Option<int>, leverage: uint32
  ): Result<int, MathError> {
    if collateral.None? then
      Err(Invalid)
    else
      var delta := OrZero(accNow) - OrZero(accOpen);
      if delta == 0 then Ok(0) else Ok(Quo(delta * collateral.value, USDC_SCALE) * leverage)
  }

  /** The loss, in collateral units, at which a position may be liquidated. */
  function CollateralThreshold(collateral: int, liqThresholdP: uint32): int {
    Quo(collateral * liqThresholdP, HUNDRED)
  }

  /** How far the price may move against the position, rounded toward zero twice. */
  function Distance(openPrice: int, collateral: int, leverage: uint32, numer: int): int
    requires collateral != 0 && leverage != 0
  {
    Quo(Quo(openPrice * numer, collateral), leverage)
  }

  function LiquidationPrice(
    openPrice: Option<int>, isLong: bool, collateral: Option<int>, leverage: uint32,
    rolloverFee: Option<int>, fundingFee: Option<int>, liqThresholdP: uint32
  ): Result<int, MathError> {
    if OrZero(collateral) == 0 || leverage == 0 then
      Err(DivByZero)
    else if openPrice.None? then
      Err(Invalid)
    else
      var numer := CollateralThreshold(collateral.value, liqThresholdP) - OrZero(rolloverFee) - OrZero(fundingFee);
      var distance := Distance(openPrice.value, collateral.value, leverage, numer);
      var liq := if isLong then openPrice.value - distance else openPrice.value + distance;
      Ok(if liq < 0 then 0 else liq)
  }

  predicate IsLiquidatable(observed: Option<int>, liq: Option<int>, isLong: bool) {
    && OrZero(liq) != 0
    && observed.Some?
    && if isLong then observed.value <= liq.value else observed.value >= liq.value
  }
}
