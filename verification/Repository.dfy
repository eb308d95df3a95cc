/** The repository: event handlers that insert, update and delete rows of the projection tables. */
module Repository {
  import opened Wrappers
  import opened Events
  import opened SlotTables
  import opened CloseReasons
  import opened Projection

  datatype AuditKey = AuditKey(txHash: string, eventIndex: nat)

  /** A position in the RPC's event stream, with the text the RPC names it by. */
  datatype Token = Token(text: string, pos: nat)

  datatype SavedCursor = SavedCursor(lastLedger: uint32, cursor: Option<Token>)

  /** The audit log keeps the first event filed under a transaction and index. */
  function Record(audit: map<AuditKey, Event>, e: Event, eventIndex: nat): map<AuditKey, Event> {
    var key := AuditKey(e.txHash, eventIndex);
    if key in audit then audit else audit[key := e]
  }

  class Repo {
    var trades: map<Slot, TradeRow>
    var history: map<HistoryKey, HistoryRow>
    var limits: map<Slot, LimitRow>
    var limitHistory: seq<LimitHistoryRow>
    var vault: map<string, VaultRow>
    var oi: map<int, OiRow>
    var audit: map<AuditKey, Event>
    var saved: Option<SavedCursor>

    ghost function Contents(): Tables
      reads this
    {
      Tables(trades, history, limits, limitHistory, vault, oi)
    }

    constructor ()
      ensures Contents() == EMPTY && audit == map[] && saved == None
    {
      trades, history, limits, limitHistory := map[], map[], map[], [];
      vault, oi, audit, saved := map[], map[], map[], None;
    }

    method ReadCursor() returns (lastLedger: uint32, cursor: Option<Token>)
      ensures saved.None? ==> lastLedger == 0 && cursor == None
      ensures saved.Some? ==> saved.value == SavedCursor(lastLedger, cursor)
    {
      match saved
      case None => lastLedger, cursor := 0, None;
      case Some(row) => lastLedger, cursor := row.lastLedger, row.cursor;
    }

    method WriteCursor(lastLedger: uint32, cursor: Option<Token>)
      modifies this`saved
      ensures saved == Some(SavedCursor(lastLedger, cursor))
    {
      saved := Some(SavedCursor(lastLedger, cursor));
    }

    method Apply(e: Event, eventIndex: nat)
      modifies this
      ensures Contents() == ApplyEvent(old(Contents()), e)
      ensures audit == Record(old(audit), e, eventIndex)
      ensures saved == old(saved)
    {
      var key := AuditKey(e.txHash, eventIndex);
      if key !in audit {
        audit := audit[key := e];
      }
      match e.source
      case PM => ApplyPM(e);
      case Vault => ApplyVaultEvent(e);
      case Registry => ApplyRegistry(e);
      case Unknown =>
    }

    method ApplyPM(e: Event)
      requires e.source == PM
      modifies this`trades, this`history, this`limits, this`limitHistory
      ensures trades == SlotTables.Apply(Upsert, old(trades), ToTradeCmd(e))
      ensures history == FileTrade(old(trades), old(history), e)
      ensures limits == SlotTables.Apply(Upsert, old(limits), ToLimitCmd(e))
      ensures limitHistory == FileLimit(old(limits), old(limitHistory), e)
    {
      match e.topic
      case Opened =>
        if e.trade.None? || e.tradeIndex.None? {
          return;
        }
        var slot, row := OpenedSlot(e), OpenedRow(e);
        if slot in trades {
          trades := trades[slot := trades[slot].(terms := row.terms, levels := row.levels)];
        } else {
          trades := trades[slot := row];
        }
      case UpdatedTpSl =>
        if e.tradeIndex.None? || e.tpPrice.None? || e.slPrice.None? {
          return;
        }
        var slot := TradeSlot(e);
        if slot in trades {
          trades := trades[slot := trades[slot].(levels := Stops(e.tpPrice.value, e.slPrice.value))];
        }
      case Closed => CloseTrade(e, Manual);
      case TpSlExecuted => CloseTradeUnknownReason(e);
      case Liq => CloseTrade(e, Liquidation);
      case Placed =>
        if e.limit.None? || e.limitIndex.None? {
          return;
        }
        var slot, row := PlacedSlot(e), PlacedRow(e);
        if slot in limits {
          limits := limits[slot := limits[slot].(terms := row.terms, levels := row.levels)];
        } else {
          limits := limits[slot := row];
        }
      case UpdatedLimit =>
        if e.limitIndex.None? || e.limitPrice.None? {
          return;
        }
        var slot := LimitSlot(e);
        if slot in limits {
          var levels := LimitLevels(e.limitPrice.value, OrZero(e.tpPrice), OrZero(e.slPrice));
          limits := limits[slot := limits[slot].(levels := levels)];
        }
      case Executed => ResolveLimit(e);
      case Canceled => ResolveLimit(e);
      case _ =>
    }

    /** Moves a row from trades to trade_history; a conflicting history row wins. */
    method CloseTrade(e: Event, reason: Reason)
      requires e.source == PM && EndsTrade(e)
      requires e.tradeIndex.Some? && TradeSlot(e) in trades ==> reason == ReasonFor(trades[TradeSlot(e)], e)
      modifies this`trades, this`history
      ensures trades == SlotTables.Apply(Upsert, old(trades), ToTradeCmd(e))
      ensures history == FileTrade(old(trades), old(history), e)
    {
      if e.tradeIndex.None? {
        return;
      }
      var slot := TradeSlot(e);
      if slot in trades {
        var row := trades[slot];
        trades := trades - {slot};
        var key := HistoryKey(slot, e.txHash);
        if key !in history {
          history := history[key := ClosedRow(row, e).(reason := reason)];
        }
      } else {
        assert trades - {slot} == trades;
      }
    }

    method CloseTradeUnknownReason(e: Event)
      requires e.source == PM && e.topic.TpSlExecuted?
      modifies this`trades, this`history
      ensures trades == SlotTables.Apply(Upsert, old(trades), ToTradeCmd(e))
      ensures history == FileTrade(old(trades), old(history), e)
    {
      if e.tradeIndex.None? {
        return;
      }
      var slot := TradeSlot(e);
      var reason := StopLoss;
      if slot in trades {
        var row := trades[slot];
        reason := ExecutedReason(row.terms.isLong, row.levels.tp, row.levels.sl, e.closePrice);
      }
      CloseTrade(e, reason);
    }

    method ResolveLimit(e: Event)
      requires e.source == PM && EndsLimit(e)
      modifies this`limits, this`limitHistory
      ensures limits == SlotTables.Apply(Upsert, old(limits), ToLimitCmd(e))
      ensures limitHistory == FileLimit(old(limits), old(limitHistory), e)
    {
      if e.limitIndex.None? {
        return;
      }
      var slot := LimitSlot(e);
      if slot in limits {
        limitHistory := limitHistory + [LimitHistoryRow(slot, limits[slot], e.topic, e.at, e.txHash)];
        limits := limits - {slot};
      } else {
        assert limits - {slot} == limits;
      }
    }

    method ApplyVaultEvent(e: Event)
      requires e.source == Vault
      modifies this`vault
      ensures vault == ApplyVault(old(vault), e)
    {
      var shares, assets := OrZero(e.shares), OrZero(e.assets);
      match e.topic
      case Deposit =>
        if e.trader in vault {
          var r := vault[e.trader];
          r := r.(shares := r.shares + shares, totalDeposited := r.totalDeposited + assets, lastActionAt := e.at);
          vault := vault[e.trader := r];
        } else {
          vault := vault[e.trader := VaultRow(shares, assets, 0, e.at)];
        }
      case Withdraw =>
        if e.trader in vault {
          var r := vault[e.trader];
          r := r.(shares := r.shares - shares, totalWithdrawn := r.totalWithdrawn + assets, lastActionAt := e.at);
          vault := vault[e.trader := r];
        } else {
          vault := vault[e.trader := VaultRow(-shares, 0, assets, e.at)];
        }
      case _ =>
    }

    method ApplyRegistry(e: Event)
      requires e.source == Registry
      modifies this`oi
      ensures oi == ApplyOi(old(oi), e)
    {
      if !(e.topic.OiAdd? || e.topic.OiSub?) || e.pairIndex.None? || e.oiIsLong.None? || e.amount.None? {
        return;
      }
      var longDelta, shortDelta := 0, 0;
      if e.oiIsLong.value {
        longDelta := e.amount.value;
      } else {
        shortDelta := e.amount.value;
      }
      var insertLong, insertShort := longDelta, shortDelta;
      if e.topic.OiSub? {
        insertLong, insertShort := 0, 0;
        longDelta, shortDelta := -longDelta, -shortDelta;
      }
      var pair := e.pairIndex.value;
      if pair in oi {
        var r := oi[pair];
        oi := oi[pair := OiRow(Greatest0(r.long + longDelta), Greatest0(r.short + shortDelta), e.at)];
      } else {
        oi := oi[pair := OiRow(Greatest0(insertLong), Greatest0(insertShort), e.at)];
      }
    }
  }
}
