/** No limit order is lost, duplicated or altered by a single pass: where every placed order ends up. */
module OrderConservation {
  import opened Wrappers
  import opened Events
  import opened SlotTables
  import opened Projection
  import opened CrashConvergence
  import Deliveries
  import Conservation

  predicate PlacesOrder(e: Event) {
    e.source == PM && e.topic.Placed? && e.limit.Some? && e.limitIndex.Some?
  }

  /** The slot an order is placed in: the trader and index it is routed by, and the pair of the order itself. */
  function PlacedIn(e: Event): Slot
    requires PlacesOrder(e)
  {
    Slot(e.trader, e.limit.value.pairIndex, e.limitIndex.value)
  }

  /** The routing keys of the event name the slot; without a pair index they name pair zero. */
  predicate NamesOrder(e: Event, slot: Slot) {
    && e.trader == slot.trader && e.limitIndex == Some(slot.index)
    && (e.pairIndex == Some(slot.pair) || (e.pairIndex.None? && slot.pair == 0))
  }

  predicate ResolvesOrder(e: Event, slot: Slot) {
    ResolvesLimit(e) && NamesOrder(e, slot)
  }

  /** Without a limit price the update is dropped. */
  predicate MovesOrder(e: Event, slot: Slot) {
    e.source == PM && e.topic.UpdatedLimit? && NamesOrder(e, slot) && e.limitPrice.Some?
  }

  /** The resolution of the order placed at `birth`, among the first n events. */
  function ResolvedAt(log: seq<Event>, birth: nat, n: nat): (at: Option<nat>)
    requires birth < n <= |log| && PlacesOrder(log[birth])
    ensures at.Some? ==> birth < at.value < n && ResolvesOrder(log[at.value], PlacedIn(log[birth]))
  {
    if n == birth + 1 then None
    else
      var earlier := ResolvedAt(log, birth, n - 1);
      if earlier.Some? then earlier
      else if ResolvesOrder(log[n - 1], PlacedIn(log[birth])) then Some(n - 1)
      else None
  }

  /** The prices set last between the placement and the first n events; a missing tp or sl resets that price to zero. */
  function LatestLevels(log: seq<Event>, birth: nat, n: nat): LimitLevels
    requires birth < n <= |log| && PlacesOrder(log[birth])
  {
    if n == birth + 1 then
      var l := log[birth].limit.value;
      LimitLevels(OrZero(l.limitPrice), OrZero(l.tpPrice), OrZero(l.slPrice))
    else if MovesOrder(log[n - 1], PlacedIn(log[birth])) then
      LimitLevels(log[n - 1].limitPrice.value, OrZero(log[n - 1].tpPrice), OrZero(log[n - 1].slPrice))
    else LatestLevels(log, birth, n - 1)
  }

  /** An order's row, in terms of the placing event and the latest prices. */
  function OrderRow(placed: Event, levels: LimitLevels): LimitRow
    requires PlacesOrder(placed)
  {
    var l := placed.limit.value;
    Row(LimitTerms(l.isLong, l.leverage, OrZero(l.collateral)), levels, LimitOrigin(placed.at, placed.txHash))
  }

  function Resolutions(log: seq<Event>): nat {
    if log == [] then 0 else Resolutions(log[..|log| - 1]) + if ResolvesLimit(log[|log| - 1]) then 1 else 0
  }

  function Placements(log: seq<Event>): nat {
    if log == [] then 0 else Placements(log[..|log| - 1]) + if PlacesOrder(log[|log| - 1]) then 1 else 0
  }

  lemma CountsStep(log: seq<Event>, at: nat)
    requires at < |log|
    ensures Resolutions(log[..at + 1]) == Resolutions(log[..at]) + if ResolvesLimit(log[at]) then 1 else 0
    ensures Placements(log[..at + 1]) == Placements(log[..at]) + if PlacesOrder(log[at]) then 1 else 0
  {
    assert log[..at + 1][..at] == log[..at];
  }

  lemma PlacedSlotIsFree(log: seq<Event>, at: nat)
    requires WellFormedLog(log) && at < |log| && PlacesOrder(log[at])
    ensures PlacedIn(log[at]) !in Once(log, at).limits
  {
    var cmds, slot := LimitCmds(log), PlacedIn(log[at]);
    LiveTablesAreRuns(EMPTY, log[..at]);
    assert LimitCmds(log[..at]) == cmds[..at];
    RunIsPerSlot(Upsert, map[], cmds[..at], slot);
    Deliveries.WellFormedSplits(Upsert, cmds, at, slot);
    assert cmds[at..][0] == ToLimitCmd(log[at]);
    assert OpsOn(cmds[at..], slot)[0].Open?;
  }

  lemma ResolvedOrderIsLive(log: seq<Event>, at: nat)
    requires WellFormedLog(log) && at < |log| && ResolvesLimit(log[at])
    ensures LimitSlot(log[at]) in Once(log, at).limits
  {
    var cmds, slot := LimitCmds(log), LimitSlot(log[at]);
    LiveTablesAreRuns(EMPTY, log[..at]);
    assert LimitCmds(log[..at]) == cmds[..at];
    RunIsPerSlot(Upsert, map[], cmds[..at], slot);
    Deliveries.WellFormedSplits(Upsert, cmds, at, slot);
    assert cmds[at..][0] == ToLimitCmd(log[at]);
    assert OpsOn(cmds[at..], slot)[0] == Close;
  }

  /** Each resolution is filed once, in log order. */
  lemma {:induction false} ResolutionsAreFiled(log: seq<Event>, n: nat)
    requires WellFormedLog(log) && n <= |log|
    ensures |Once(log, n).limitHistory| == Resolutions(log[..n])
  {
    if n == 0 {
      assert log[..0] == [];
    } else {
      ResolutionsAreFiled(log, n - 1);
      OnceStep(log, n - 1);
      CountsStep(log, n - 1);
      if ResolvesLimit(log[n - 1]) {
        ResolvedOrderIsLive(log, n - 1);
      }
    }
  }

  /** One event on a live order: it is filed, gets new prices, or stays as it is. */
  lemma LiveOrderStep(t: Tables, e: Event, slot: Slot, row: LimitRow)
    requires Lookup(t.limits, slot) == Some(row)
    requires PlacesOrder(e) ==> PlacedIn(e) != slot
    ensures ResolvesOrder(e, slot) ==>
              ApplyEvent(t, e).limitHistory == t.limitHistory + [LimitHistoryRow(slot, row, e.topic, e.at, e.txHash)]
    ensures !ResolvesOrder(e, slot) ==>
              Lookup(ApplyEvent(t, e).limits, slot) ==
              Some(if MovesOrder(e, slot) then row.(levels := LimitLevels(e.limitPrice.value, OrZero(e.tpPrice), OrZero(e.slPrice))) else row)
  {
  }

  lemma FiledOrderStep(t: Tables, e: Event, k: nat)
    requires k < |t.limitHistory|
    ensures k < |ApplyEvent(t, e).limitHistory| && ApplyEvent(t, e).limitHistory[k] == t.limitHistory[k]
  {
  }

  lemma PlacedStep(t: Tables, e: Event)
    requires PlacesOrder(e) && PlacedIn(e) !in t.limits
    ensures Lookup(ApplyEvent(t, e).limits, PlacedIn(e)) == Some(OrderRow(e, LatestLevels([e], 0, 1)))
  {
  }

  /**
   The order placed at `birth` is live, with the prices set last, until it is resolved, and from
   then on in the history, as the entry of that resolution, under its topic, time and transaction.
   */
  predicate Kept(log: seq<Event>, birth: nat, n: nat)
    requires birth < n <= |log| && PlacesOrder(log[birth])
  {
    var slot := PlacedIn(log[birth]);
    match ResolvedAt(log, birth, n)
    case None => Lookup(Once(log, n).limits, slot) == Some(OrderRow(log[birth], LatestLevels(log, birth, n)))
    case Some(c) =>
      && Resolutions(log[..c]) < |Once(log, n).limitHistory|
      && Once(log, n).limitHistory[Resolutions(log[..c])]
      == LimitHistoryRow(slot, OrderRow(log[birth], LatestLevels(log, birth, c)), log[c].topic, log[c].at, log[c].txHash)
  }

  lemma PlacementIsKept(log: seq<Event>, birth: nat)
    requires WellFormedLog(log) && birth < |log| && PlacesOrder(log[birth])
    ensures Kept(log, birth, birth + 1)
  {
    OnceStep(log, birth);
    PlacedSlotIsFree(log, birth);
    PlacedStep(Once(log, birth), log[birth]);
  }

  lemma LiveOrderIsKept(log: seq<Event>, birth: nat, n: nat)
    requires WellFormedLog(log) && birth < n < |log| && PlacesOrder(log[birth])
    requires ResolvedAt(log, birth, n).None? && Kept(log, birth, n)
    ensures Kept(log, birth, n + 1)
  {
    OnceStep(log, n);
    ResolutionsAreFiled(log, n);
    if PlacesOrder(log[n]) {
      PlacedSlotIsFree(log, n);
    }
    LiveOrderStep(Once(log, n), log[n], PlacedIn(log[birth]), OrderRow(log[birth], LatestLevels(log, birth, n)));
  }

  lemma FiledOrderIsKept(log: seq<Event>, birth: nat, n: nat)
    requires birth < n < |log| && PlacesOrder(log[birth])
    requires ResolvedAt(log, birth, n).Some? && Kept(log, birth, n)
    ensures Kept(log, birth, n + 1)
  {
    OnceStep(log, n);
    FiledOrderStep(Once(log, n), log[n], Resolutions(log[..ResolvedAt(log, birth, n).value]));
  }

  /** Every placed order is found again. */
  lemma {:induction false} PlacedOrderIsKept(log: seq<Event>, birth: nat, n: nat)
    requires WellFormedLog(log)
    requires birth < n <= |log| && PlacesOrder(log[birth])
    ensures Kept(log, birth, n)
    decreases n
  {
    if n == birth + 1 {
      PlacementIsKept(log, birth);
    } else {
      PlacedOrderIsKept(log, birth, n - 1);
      if ResolvedAt(log, birth, n - 1).None? {
        LiveOrderIsKept(log, birth, n - 1);
      } else {
        FiledOrderIsKept(log, birth, n - 1);
      }
    }
  }

  lemma ResolutionCount(t: Tables, e: Event)
    requires ResolvesLimit(e) && LimitSlot(e) in t.limits
    ensures |ApplyEvent(t, e).limits| == |t.limits| - 1 && |ApplyEvent(t, e).limitHistory| == |t.limitHistory| + 1
  {
    var rest := t.limits - {LimitSlot(e)};
    assert rest.Keys == t.limits.Keys - {LimitSlot(e)};
    assert ApplyEvent(t, e).limits == rest;
  }

  lemma PlacementCount(t: Tables, e: Event)
    requires PlacesOrder(e) && PlacedIn(e) !in t.limits
    ensures |ApplyEvent(t, e).limits| == |t.limits| + 1 && ApplyEvent(t, e).limitHistory == t.limitHistory
  {
    assert ApplyEvent(t, e).limits.Keys == t.limits.Keys + {PlacedIn(e)};
  }

  lemma OtherCount(t: Tables, e: Event)
    requires !ResolvesLimit(e) && !PlacesOrder(e)
    ensures |ApplyEvent(t, e).limits| == |t.limits| && ApplyEvent(t, e).limitHistory == t.limitHistory
  {
    var cmd := ToLimitCmd(e);
    if cmd.At? {
      assert cmd.op.Update?;
      assert Apply(Upsert, t.limits, cmd).Keys == t.limits.Keys;
      Conservation.MapSize(Apply(Upsert, t.limits, cmd), t.limits);
    }
  }

  /** Live and resolved orders together are as many as were placed. */
  lemma {:induction false} OrdersAreConserved(log: seq<Event>, n: nat)
    requires WellFormedLog(log) && n <= |log|
    ensures Placements(log[..n]) == |Once(log, n).limits| + |Once(log, n).limitHistory|
  {
    if n == 0 {
      assert log[..0] == [];
    } else {
      OrdersAreConserved(log, n - 1);
      OnceStep(log, n - 1);
      CountsStep(log, n - 1);
      if ResolvesLimit(log[n - 1]) {
        ResolvedOrderIsLive(log, n - 1);
        ResolutionCount(Once(log, n - 1), log[n - 1]);
      } else if PlacesOrder(log[n - 1]) {
        PlacedSlotIsFree(log, n - 1);
        PlacementCount(Once(log, n - 1), log[n - 1]);
      } else {
        OtherCount(Once(log, n - 1), log[n - 1]);
      }
    }
  }
}
