/** Decoded contract events, as the indexer hands them to every consumer. */
module Events {
  import opened Wrappers

  datatype Source = PM | Vault | Registry | Unknown

  datatype Topic =
    | Opened | Closed | TpSlExecuted | Liq | UpdatedTpSl
    | Placed | UpdatedLimit | Executed | Canceled
    | Deposit | Withdraw
    | OiAdd | OiSub
    | Other(name: string)

  datatype Trade = Trade(
    pairIndex: int, isLong: bool, leverage: uint32,
    openPrice: Option<int>, collateral: Option<int>,
    accRolloverOpen: Option<int>, accFundingOpen: Option<int>,
    tpPrice: Option<int>, slPrice: Option<int>
  )

  datatype LimitOrder = LimitOrder(
    pairIndex: int, isLong: bool, leverage: uint32,
    collateral: Option<int>, limitPrice: Option<int>, tpPrice: Option<int>, slPrice: Option<int>
  )

  datatype Event = Event(
    source: Source, topic: Topic, txHash: string, ledger: uint32, at: int, trader: string,
    pairIndex: Option<int>, tradeIndex: Option<int>, limitIndex: Option<int>, oiIsLong: Option<bool>,
    trade: Option<Trade>, limit: Option<LimitOrder>,
    assets: Option<int>, shares: Option<int>, netPnl: Option<int>, amount: Option<int>,
    openFee: Option<int>, closeFee: Option<int>, closePrice: Option<int>,
    tpPrice: Option<int>, slPrice: Option<int>, limitPrice: Option<int>
  )

  /** A trader's numbered place on a pair; trades and limit orders are numbered separately. */
  datatype Slot = Slot(trader: string, pair: int, index: int)

  predicate EndsTrade(e: Event) {
    e.topic.Closed? || e.topic.TpSlExecuted? || e.topic.Liq?
  }

  predicate EndsLimit(e: Event) {
    e.topic.Executed? || e.topic.Canceled?
  }

  /** The slot named by the routing keys; a missing pair index reads as zero. */
  function TradeSlot(e: Event): Slot
    requires e.tradeIndex.Some?
  {
    Slot(e.trader, OrZero(e.pairIndex), e.tradeIndex.value)
  }

  function LimitSlot(e: Event): Slot
    requires e.limitIndex.Some?
  {
    Slot(e.trader, OrZero(e.pairIndex), e.limitIndex.value)
  }

  /** The slot of an opened trade comes from the trade itself. */
  function OpenedSlot(e: Event): Slot
    requires e.trade.Some? && e.tradeIndex.Some?
  {
    Slot(e.trader, e.trade.value.pairIndex, e.tradeIndex.value)
  }

  function PlacedSlot(e: Event): Slot
    requires e.limit.Some? && e.limitIndex.Some?
  {
    Slot(e.trader, e.limit.value.pairIndex, e.limitIndex.value)
  }

  predicate FullTrade(t: Trade) {
    && t.openPrice.Some? && t.collateral.Some? && t.accRolloverOpen.Some? && t.accFundingOpen.Some?
    && t.tpPrice.Some? && t.slPrice.Some?
  }

  predicate FullLimit(l: LimitOrder) {
    l.collateral.Some? && l.limitPrice.Some? && l.tpPrice.Some? && l.slPrice.Some?
  }

  /**
   The event carries everything its topic has carried since the payloads were enriched.
   Only position-manager events carry a trade or limit index.
   */
  predicate Enriched(e: Event) {
    if e.source != PM then
      e.tradeIndex.None? && e.limitIndex.None?
    else
      && (e.topic.Opened? ==> e.tradeIndex.Some? && e.trade.Some? && FullTrade(e.trade.value))
      && (EndsTrade(e) ==> e.tradeIndex.Some?)
      && (e.topic.UpdatedTpSl? ==> e.tradeIndex.Some? && e.tpPrice.Some? && e.slPrice.Some?)
      && (e.topic.Placed? ==> e.limitIndex.Some? && e.limit.Some? && FullLimit(e.limit.value))
      && (EndsLimit(e) ==> e.limitIndex.Some?)
      && (e.topic.UpdatedLimit? ==> e.limitIndex.Some? && e.limitPrice.Some? && e.tpPrice.Some? && e.slPrice.Some?)
  }
}
