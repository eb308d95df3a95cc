/**
 Rebuilding the tables from the audit log. Each event concerns one key - a trade slot, a
 limit slot, a depositor or a pair - and the rows of a key depend on that key's events alone.
 */
module Replay {
  import opened Wrappers
  import opened Events
  import opened SlotTables
  import opened Projection
  import opened Repository

  datatype Key = OfTrade(slot: Slot) | OfLimit(slot: Slot) | OfDepositor(name: string) | OfPair(pair: int)

  function KeyOf(e: Event): Option<Key> {
    if ToTradeCmd(e).At? then Some(OfTrade(ToTradeCmd(e).key))
    else if ToLimitCmd(e).At? then Some(OfLimit(ToLimitCmd(e).key))
    else if e.source == Vault && (e.topic.Deposit? || e.topic.Withdraw?) then Some(OfDepositor(e.trader))
    else if MovesOi(e) then Some(OfPair(e.pairIndex.value))
    else None
  }

  /** The rows of one key. */
  datatype View =
    | TradeView(live: Option<TradeRow>, filed: map<HistoryKey, HistoryRow>)
    | LimitView(order: Option<LimitRow>, resolved: seq<LimitHistoryRow>)
    | DepositorView(position: Option<VaultRow>)
    | PairView(oi: Option<OiRow>)

  function HistoryOf(history: map<HistoryKey, HistoryRow>, slot: Slot): map<HistoryKey, HistoryRow> {
    map k | k in history && k.slot == slot :: history[k]
  }

  function ResolvedOn(history: seq<LimitHistoryRow>, slot: Slot): seq<LimitHistoryRow> {
    if history == [] then []
    else
      var last := history[|history| - 1];
      ResolvedOn(history[..|history| - 1], slot) + if last.slot == slot then [last] else []
  }

  function ViewOf(t: Tables, key: Key): View {
    match key
    case OfTrade(slot) => TradeView(Lookup(t.trades, slot), HistoryOf(t.history, slot))
    case OfLimit(slot) => LimitView(Lookup(t.limits, slot), ResolvedOn(t.limitHistory, slot))
    case OfDepositor(name) => DepositorView(Lookup(t.vault, name))
    case OfPair(pair) => PairView(Lookup(t.oi, pair))
  }

  function OnKey(log: seq<Event>, key: Key): seq<Event>
    decreases |log|
  {
    if log == [] then []
    else (if KeyOf(log[0]) == Some(key) then [log[0]] else []) + OnKey(log[1..], key)
  }

  /** An event leaves the rows of every other key alone. */
  lemma OtherKeysAreUntouched(t: Tables, e: Event, key: Key)
    requires KeyOf(e) != Some(key)
    ensures ViewOf(ApplyEvent(t, e), key) == ViewOf(t, key)
  {
    match key
    case OfTrade(slot) =>
      assert HistoryOf(FileTrade(t.trades, t.history, e), slot) == HistoryOf(t.history, slot);
    case OfLimit(slot) =>
      var filed := FileLimit(t.limits, t.limitHistory, e);
      if filed != t.limitHistory {
        assert filed[..|filed| - 1] == t.limitHistory;
      }
    case _ =>
  }

  lemma StepOn<K, T, L, O>(table: map<K, Row<T, L, O>>, cmd: Cmd<K, T, L, O>)
    requires cmd.At?
    ensures Lookup(Apply(Upsert, table, cmd), cmd.key) == Step(Upsert, Lookup(table, cmd.key), cmd.op)
  {
  }

  lemma OwnTrade(t: Tables, t': Tables, e: Event, slot: Slot)
    requires KeyOf(e) == Some(OfTrade(slot)) && ViewOf(t, OfTrade(slot)) == ViewOf(t', OfTrade(slot))
    ensures Lookup(ApplyEvent(t, e).trades, slot) == Lookup(ApplyEvent(t', e).trades, slot)
  {
    StepOn(t.trades, ToTradeCmd(e));
    StepOn(t'.trades, ToTradeCmd(e));
  }

  lemma OwnTradeHistory(t: Tables, t': Tables, e: Event, slot: Slot)
    requires KeyOf(e) == Some(OfTrade(slot)) && ViewOf(t, OfTrade(slot)) == ViewOf(t', OfTrade(slot))
    ensures HistoryOf(FileTrade(t.trades, t.history, e), slot) == HistoryOf(FileTrade(t'.trades, t'.history, e), slot)
  {
    FiledOn(t, e, slot);
    FiledOn(t', e, slot);
    SameRow(t.trades, t'.trades, slot);
  }

  lemma SameRow<K, V>(a: map<K, V>, b: map<K, V>, key: K)
    requires Lookup(a, key) == Lookup(b, key)
    ensures key in a <==> key in b
    ensures key in a ==> a[key] == b[key]
  {
  }

  lemma OwnLimit(t: Tables, t': Tables, e: Event, slot: Slot)
    requires KeyOf(e) == Some(OfLimit(slot)) && ViewOf(t, OfLimit(slot)) == ViewOf(t', OfLimit(slot))
    ensures ViewOf(ApplyEvent(t, e), OfLimit(slot)) == ViewOf(ApplyEvent(t', e), OfLimit(slot))
  {
    StepOn(t.limits, ToLimitCmd(e));
    StepOn(t'.limits, ToLimitCmd(e));
    ResolvedStep(t, e, slot);
    ResolvedStep(t', e, slot);
  }

  /** What an event does to the rows of its key is determined by those rows. */
  lemma OwnKeyIsDetermined(t: Tables, t': Tables, e: Event, key: Key)
    requires ViewOf(t, key) == ViewOf(t', key)
    requires KeyOf(e) == Some(key)
    ensures ViewOf(ApplyEvent(t, e), key) == ViewOf(ApplyEvent(t', e), key)
  {
    match key
    case OfTrade(slot) =>
      OwnTrade(t, t', e, slot);
      OwnTradeHistory(t, t', e, slot);
    case OfLimit(slot) =>
      OwnLimit(t, t', e, slot);
    case _ =>
      OwnAdditive(t, t', e, key);
  }

  lemma OwnAdditive(t: Tables, t': Tables, e: Event, key: Key)
    requires ViewOf(t, key) == ViewOf(t', key)
    requires KeyOf(e) == Some(key) && (key.OfDepositor? || key.OfPair?)
    ensures ViewOf(ApplyEvent(t, e), key) == ViewOf(ApplyEvent(t', e), key)
  {
  }

  lemma FiledOn(t: Tables, e: Event, slot: Slot)
    requires KeyOf(e) == Some(OfTrade(slot))
    ensures HistoryOf(FileTrade(t.trades, t.history, e), slot)
         == var k := HistoryKey(slot, e.txHash);
            if EndsTrade(e) && slot in t.trades && k !in HistoryOf(t.history, slot)
            then HistoryOf(t.history, slot)[k := ClosedRow(t.trades[slot], e)]
            else HistoryOf(t.history, slot)
  {
  }

  lemma ResolvedStep(t: Tables, e: Event, slot: Slot)
    requires KeyOf(e) == Some(OfLimit(slot))
    ensures ResolvedOn(FileLimit(t.limits, t.limitHistory, e), slot)
         == ResolvedOn(t.limitHistory, slot)
          + if EndsLimit(e) && slot in t.limits
            then [LimitHistoryRow(slot, t.limits[slot], e.topic, e.at, e.txHash)] else []
  {
    var filed := FileLimit(t.limits, t.limitHistory, e);
    if filed != t.limitHistory {
      assert filed[..|filed| - 1] == t.limitHistory;
    }
  }

  /** The projection of a log, seen from one key, is the projection of that key's events alone. */
  lemma {:induction false} ProjectionIsPerKey(t: Tables, t': Tables, log: seq<Event>, key: Key)
    requires ViewOf(t, key) == ViewOf(t', key)
    ensures ViewOf(ApplyAll(t, log), key) == ViewOf(ApplyAll(t', OnKey(log, key)), key)
    decreases |log|
  {
    if log != [] {
      var e := log[0];
      if KeyOf(e) == Some(key) {
        OwnKeyIsDetermined(t, t', e, key);
        ProjectionIsPerKey(ApplyEvent(t, e), ApplyEvent(t', e), log[1..], key);
        assert OnKey(log, key)[1..] == OnKey(log[1..], key);
      } else {
        OtherKeysAreUntouched(t, e, key);
        assert OnKey(log, key) == OnKey(log[1..], key);
        ProjectionIsPerKey(ApplyEvent(t, e), t', log[1..], key);
      }
    }
  }

  /** Equal up to the order of limit-history rows across slots (and serial ids, which are not modelled). */
  ghost predicate SameTables(a: Tables, b: Tables) {
    && a.trades == b.trades && a.history == b.history && a.limits == b.limits
    && multiset(a.limitHistory) == multiset(b.limitHistory)
    && a.vault == b.vault && a.oi == b.oi
  }

  lemma {:induction false} ResolvedOnKeepsCount(history: seq<LimitHistoryRow>, row: LimitHistoryRow)
    ensures multiset(ResolvedOn(history, row.slot))[row] == multiset(history)[row]
  {
    if history != [] {
      var front, last := history[..|history| - 1], history[|history| - 1];
      assert history == front + [last];
      ResolvedOnKeepsCount(front, row);
    }
  }

  lemma SameViewsSameTables(a: Tables, b: Tables)
    requires forall key: Key :: ViewOf(a, key) == ViewOf(b, key)
    ensures SameTables(a, b)
  {
    forall slot: Slot
      ensures Lookup(a.trades, slot) == Lookup(b.trades, slot)
      ensures HistoryOf(a.history, slot) == HistoryOf(b.history, slot)
    {
      assert ViewOf(a, OfTrade(slot)) == ViewOf(b, OfTrade(slot));
    }
    SameRowsSameTable(a.trades, b.trades);
    forall k: HistoryKey
      ensures Lookup(a.history, k) == Lookup(b.history, k)
    {
      assert Lookup(a.history, k) == Lookup(HistoryOf(a.history, k.slot), k);
      assert Lookup(b.history, k) == Lookup(HistoryOf(b.history, k.slot), k);
    }
    SameRowsSameTable(a.history, b.history);
    SameLimitViews(a, b);
    forall name: string
      ensures Lookup(a.vault, name) == Lookup(b.vault, name)
    {
      assert ViewOf(a, OfDepositor(name)) == ViewOf(b, OfDepositor(name));
    }
    SameRowsSameTable(a.vault, b.vault);
    forall pair: int
      ensures Lookup(a.oi, pair) == Lookup(b.oi, pair)
    {
      assert ViewOf(a, OfPair(pair)) == ViewOf(b, OfPair(pair));
    }
    SameRowsSameTable(a.oi, b.oi);
  }

  lemma SameLimitViews(a: Tables, b: Tables)
    requires forall key: Key :: ViewOf(a, key) == ViewOf(b, key)
    ensures a.limits == b.limits && multiset(a.limitHistory) == multiset(b.limitHistory)
  {
    forall slot: Slot
      ensures Lookup(a.limits, slot) == Lookup(b.limits, slot)
    {
      assert ViewOf(a, OfLimit(slot)) == ViewOf(b, OfLimit(slot));
    }
    SameRowsSameTable(a.limits, b.limits);
    forall row: LimitHistoryRow
      ensures multiset(a.limitHistory)[row] == multiset(b.limitHistory)[row]
    {
      assert ViewOf(a, OfLimit(row.slot)) == ViewOf(b, OfLimit(row.slot));
      ResolvedOnKeepsCount(a.limitHistory, row);
      ResolvedOnKeepsCount(b.limitHistory, row);
    }
  }

  /** Two logs that agree key by key rebuild the same tables, however the keys are interleaved. */
  lemma OrderAcrossKeysIsIrrelevant(log: seq<Event>, log': seq<Event>)
    requires forall key: Key :: OnKey(log, key) == OnKey(log', key)
    ensures SameTables(ApplyAll(EMPTY, log), ApplyAll(EMPTY, log'))
  {
    forall key: Key
      ensures ViewOf(ApplyAll(EMPTY, log), key) == ViewOf(ApplyAll(EMPTY, log'), key)
    {
      ProjectionIsPerKey(EMPTY, EMPTY, log, key);
      ProjectionIsPerKey(EMPTY, EMPTY, log', key);
    }
    SameViewsSameTables(ApplyAll(EMPTY, log), ApplyAll(EMPTY, log'));
  }

  // ----- The order the replay tool uses -----

  /** A row of trade_events: the event and its index in the page it was first delivered in. */
  datatype Recorded = Recorded(event: Event, index: nat)

  predicate TextBefore(a: string, b: string) {
    if a == [] then b != []
    else if b == [] then false
    else a[0] < b[0] || (a[0] == b[0] && TextBefore(a[1..], b[1..]))
  }

  /** ORDER BY ledger, occurred_at, tx_hash, event_index. */
  predicate Before(a: Recorded, b: Recorded) {
    || a.event.ledger < b.event.ledger
    || (a.event.ledger == b.event.ledger &&
        (|| a.event.at < b.event.at
         || (a.event.at == b.event.at &&
             (|| TextBefore(a.event.txHash, b.event.txHash)
              || (a.event.txHash == b.event.txHash && a.index < b.index)))))
  }

  ghost predicate Sorted(rows: seq<Recorded>) {
    forall i, j | 0 <= i < j < |rows| :: Before(rows[i], rows[j])
  }

  function Payloads(rows: seq<Recorded>): seq<Event> {
    seq(|rows|, i requires 0 <= i < |rows| => rows[i].event)
  }

  function KeyOfRow(row: Recorded): AuditKey {
    AuditKey(row.event.txHash, row.index)
  }

  /** What the tool's query returns: every row of the audit log, in sorting order. */
  ghost predicate SortedContents(audit: map<AuditKey, Event>, rows: seq<Recorded>) {
    && Sorted(rows)
    && forall row: Recorded :: row in rows <==> KeyOfRow(row) in audit && audit[KeyOfRow(row)] == row.event
  }

  method Rebuild(repo: Repo, rows: seq<Recorded>)
    requires SortedContents(repo.audit, rows)
    modifies repo
    ensures repo.Contents() == ApplyAll(EMPTY, Payloads(rows))
    ensures repo.audit == old(repo.audit)
  {
    repo.trades, repo.history, repo.limits, repo.limitHistory := map[], map[], map[], [];
    repo.vault, repo.oi := map[], map[];
    assert Payloads(rows[..0]) == [];
    for i := 0 to |rows|
      invariant repo.Contents() == ApplyAll(EMPTY, Payloads(rows[..i]))
      invariant repo.audit == old(repo.audit)
    {
      assert Payloads(rows[..i + 1]) == Payloads(rows[..i]) + [rows[i].event];
      ApplyAllConcat(EMPTY, Payloads(rows[..i]), [rows[i].event]);
      assert rows[i] in rows && KeyOfRow(rows[i]) in repo.audit;
      repo.Apply(rows[i].event, rows[i].index);
    }
    assert rows[..|rows|] == rows;
  }

  lemma {:induction false} TextBeforeIsAsymmetric(a: string, b: string)
    ensures !(TextBefore(a, b) && TextBefore(b, a))
  {
    if a != [] && b != [] {
      TextBeforeIsAsymmetric(a[1..], b[1..]);
    }
  }

  lemma BeforeIsAsymmetric(a: Recorded, b: Recorded)
    ensures !(Before(a, b) && Before(b, a))
  {
    TextBeforeIsAsymmetric(a.event.txHash, b.event.txHash);
  }

  /** The first character that differs decides; a text comes after each of its beginnings. */
  predicate Precedes(a: string, b: string, k: nat) {
    k <= |a| && k < |b| && a[..k] == b[..k] && (k == |a| || a[k] < b[k])
  }

  lemma {:induction false} TextBeforeIff(a: string, b: string)
    ensures TextBefore(a, b) <==> exists k: nat :: Precedes(a, b, k)
  {
    if a == [] {
      assert b != [] ==> Precedes(a, b, 0);
    } else if b != [] {
      TextBeforeIff(a[1..], b[1..]);
      if a[0] < b[0] {
        assert Precedes(a, b, 0);
      } else if a[0] == b[0] {
        if TextBefore(a, b) {
          var k: nat :| Precedes(a[1..], b[1..], k);
          assert a[..k + 1] == [a[0]] + a[1..][..k] && b[..k + 1] == [b[0]] + b[1..][..k];
          assert Precedes(a, b, k + 1);
        }
        if k: nat :| Precedes(a, b, k) {
          assert a[..k][1..] == a[1..][..k - 1] && b[..k][1..] == b[1..][..k - 1];
          assert Precedes(a[1..], b[1..], k - 1);
        }
      } else {
        assert forall k: nat | 0 < k <= |a| && k <= |b| :: a[..k][0] == a[0] && b[..k][0] == b[0];
      }
    }
  }

  lemma {:induction false} TextIsTotal(a: string, b: string)
    ensures TextBefore(a, b) || TextBefore(b, a) || a == b
  {
    if a != [] && b != [] {
      TextIsTotal(a[1..], b[1..]);
      assert a[0] == b[0] && a[1..] == b[1..] ==> a == [a[0]] + a[1..] == b;
    }
  }

  lemma {:induction false} TextIsTransitive(a: string, b: string, c: string)
    requires TextBefore(a, b) && TextBefore(b, c)
    ensures TextBefore(a, c)
  {
    if a != [] && a[0] == b[0] == c[0] {
      TextIsTransitive(a[1..], b[1..], c[1..]);
    }
  }

  /** Two rows the order cannot tell apart share ledger, time, transaction and index. */
  lemma BeforeIsTotal(a: Recorded, b: Recorded)
    requires KeyOfRow(a) != KeyOfRow(b)
    ensures Before(a, b) || Before(b, a)
  {
    TextIsTotal(a.event.txHash, b.event.txHash);
  }

  lemma BeforeIsTransitive(a: Recorded, b: Recorded, c: Recorded)
    requires Before(a, b) && Before(b, c)
    ensures Before(a, c)
  {
    if TextBefore(a.event.txHash, b.event.txHash) && TextBefore(b.event.txHash, c.event.txHash) {
      TextIsTransitive(a.event.txHash, b.event.txHash, c.event.txHash);
    }
  }

  /** Two sorted arrangements of the same entries start alike. */
  lemma SameHead(a: seq<Recorded>, b: seq<Recorded>)
    requires Sorted(a) && Sorted(b) && a != [] && b != []
    requires a[0] in b && b[0] in a
    ensures a[0] == b[0]
  {
    var i :| 0 <= i < |b| && b[i] == a[0];
    var j :| 0 <= j < |a| && a[j] == b[0];
    BeforeIsAsymmetric(a[0], b[0]);
  }

  lemma TailCount(a: seq<Recorded>)
    requires a != []
    ensures multiset(a[1..]) == multiset(a) - multiset{a[0]}
  {
    assert a == [a[0]] + a[1..];
  }

  /** Sorting leaves no choice. */
  lemma {:induction false} SortedIsUnique(a: seq<Recorded>, b: seq<Recorded>)
    requires Sorted(a) && Sorted(b) && multiset(a) == multiset(b)
    ensures a == b
    decreases |a|
  {
    assert |multiset(a)| == |a| && |multiset(b)| == |b|;
    if a != [] {
      assert a[0] in multiset(b) && b[0] in multiset(a);
      SameHead(a, b);
      TailCount(a);
      TailCount(b);
      SortedIsUnique(a[1..], b[1..]);
      assert a == [a[0]] + a[1..] && b == [b[0]] + b[1..];
    }
  }

  lemma {:induction false} Insert(rows: seq<Recorded>, row: Recorded) returns (out: seq<Recorded>)
    requires Sorted(rows) && forall r <- rows :: KeyOfRow(r) != KeyOfRow(row)
    ensures Sorted(out) && forall r :: r in out <==> r in rows || r == row
  {
    if rows == [] {
      out := [row];
    } else if Before(row, rows[0]) {
      out := [row] + rows;
      forall j | 1 < j < |out|
        ensures Before(row, out[j])
      {
        BeforeIsTransitive(row, rows[0], rows[j - 1]);
      }
    } else {
      BeforeIsTotal(rows[0], row);
      assert forall i | 0 <= i < |rows| - 1 :: rows[1..][i] == rows[i + 1];
      var rest := Insert(rows[1..], row);
      assert rows == [rows[0]] + rows[1..];
      out := [rows[0]] + rest;
      forall j | 0 < j < |out|
        ensures Before(out[0], out[j])
      {
        assert rest[j - 1] in rest;
      }
    }
  }

  /** Every audit log can be sorted that way, and SortedIsUnique leaves one way to do it. */
  lemma {:induction false} SortedRowsExist(audit: map<AuditKey, Event>) returns (rows: seq<Recorded>)
    ensures SortedContents(audit, rows)
    decreases |audit|
  {
    if audit == map[] {
      rows := [];
    } else {
      var key :| key in audit;
      var smaller := audit - {key};
      assert smaller.Keys == audit.Keys - {key};
      assert |smaller.Keys| < |audit.Keys|;
      rows := SortedRowsExist(smaller);
      if audit[key].txHash == key.txHash {
        rows := Insert(rows, Recorded(audit[key], key.eventIndex));
      }
    }
  }

  function RecordedOn(rows: seq<Recorded>, key: Key): seq<Recorded>
    decreases |rows|
  {
    if rows == [] then []
    else (if KeyOf(rows[0].event) == Some(key) then [rows[0]] else []) + RecordedOn(rows[1..], key)
  }

  lemma {:induction false} PayloadsOnKey(rows: seq<Recorded>, key: Key)
    ensures OnKey(Payloads(rows), key) == Payloads(RecordedOn(rows, key))
    decreases |rows|
  {
    if rows != [] {
      assert Payloads(rows)[1..] == Payloads(rows[1..]);
      PayloadsOnKey(rows[1..], key);
      var rest := RecordedOn(rows[1..], key);
      assert Payloads([rows[0]] + rest) == [rows[0].event] + Payloads(rest);
    }
  }

  lemma {:induction false} RecordedOnKeepsCount(rows: seq<Recorded>, key: Key, row: Recorded)
    ensures multiset(RecordedOn(rows, key))[row] == if KeyOf(row.event) == Some(key) then multiset(rows)[row] else 0
    decreases |rows|
  {
    if rows != [] {
      assert rows == [rows[0]] + rows[1..];
      RecordedOnKeepsCount(rows[1..], key, row);
    }
  }

  /** Same-key entries were recorded in the order the replay tool sorts them. */
  ghost predicate KeysInOrder(rows: seq<Recorded>) {
    forall i, j | 0 <= i < j < |rows| && KeyOf(rows[i].event).Some? && KeyOf(rows[i].event) == KeyOf(rows[j].event) ::
      Before(rows[i], rows[j])
  }

  /** Where an entry of a key's subsequence comes from; positions keep their order. */
  lemma {:induction false} RecordedOnIsSorted(rows: seq<Recorded>, key: Key)
    requires KeysInOrder(rows)
    ensures Sorted(RecordedOn(rows, key))
    ensures forall row <- RecordedOn(rows, key) :: row in rows && KeyOf(row.event) == Some(key)
    decreases |rows|
  {
    if rows != [] {
      var rest := RecordedOn(rows[1..], key);
      assert KeysInOrder(rows[1..]) by {
        assert forall i | 0 <= i < |rows| - 1 :: rows[1..][i] == rows[i + 1];
      }
      RecordedOnIsSorted(rows[1..], key);
      if KeyOf(rows[0].event) == Some(key) {
        forall j | 0 <= j < |rest|
          ensures Before(rows[0], rest[j])
        {
          assert rest[j] in rows[1..];
          var k :| 0 <= k < |rows| - 1 && rows[1..][k] == rest[j];
          assert rows[k + 1] == rest[j];
        }
      }
    }
  }

  ghost predicate InThisOrder(rows: seq<Recorded>, a: Recorded, b: Recorded) {
    exists m, n | 0 <= m < n < |rows| :: rows[m] == a && rows[n] == b
  }

  lemma InOrderLater(front: seq<Recorded>, rows: seq<Recorded>, a: Recorded, b: Recorded)
    requires InThisOrder(rows, a, b)
    ensures InThisOrder(front + rows, a, b)
  {
    var m, n :| 0 <= m < n < |rows| && rows[m] == a && rows[n] == b;
    assert (front + rows)[|front| + m] == a && (front + rows)[|front| + n] == b;
  }

  /** The entries of a key keep their order in its subsequence. */
  lemma {:induction false} OrderIsKept(rows: seq<Recorded>, i: nat, j: nat, key: Key)
    requires i < j < |rows| && KeyOf(rows[i].event) == KeyOf(rows[j].event) == Some(key)
    ensures InThisOrder(RecordedOn(rows, key), rows[i], rows[j])
    decreases |rows|
  {
    var rest := RecordedOn(rows[1..], key);
    if i > 0 {
      OrderIsKept(rows[1..], i - 1, j - 1, key);
      InOrderLater(if KeyOf(rows[0].event) == Some(key) then [rows[0]] else [], rest, rows[i], rows[j]);
    } else {
      KeptOnKey(rows[1..], j - 1, key);
      var n :| 0 <= n < |rest| && rest[n] == rows[j];
      assert RecordedOn(rows, key)[0] == rows[i] && RecordedOn(rows, key)[n + 1] == rows[j];
    }
  }

  lemma {:induction false} KeptOnKey(rows: seq<Recorded>, j: nat, key: Key)
    requires j < |rows| && KeyOf(rows[j].event) == Some(key)
    ensures rows[j] in RecordedOn(rows, key)
    decreases |rows|
  {
    if j > 0 {
      KeptOnKey(rows[1..], j - 1, key);
    }
  }

  ghost predicate SameOnEveryKey(rows: seq<Recorded>, recorded: seq<Recorded>) {
    forall key: Key :: RecordedOn(rows, key) == RecordedOn(recorded, key)
  }

  /** Sorting keeps each key's entries in recorded order if and only if they were recorded in sorting order. */
  lemma SortingKeepsOrderIff(recorded: seq<Recorded>, rows: seq<Recorded>)
    requires multiset(rows) == multiset(recorded) && Sorted(rows)
    ensures SameOnEveryKey(rows, recorded) <==> KeysInOrder(recorded)
  {
    if KeysInOrder(recorded) {
      forall key: Key
        ensures RecordedOn(rows, key) == RecordedOn(recorded, key)
      {
        SameOnKey(recorded, rows, key);
      }
    }
    if SameOnEveryKey(rows, recorded) {
      forall i, j | 0 <= i < j < |recorded| && KeyOf(recorded[i].event).Some? && KeyOf(recorded[i].event) == KeyOf(recorded[j].event)
        ensures Before(recorded[i], recorded[j])
      {
        RecordedInOrder(recorded, rows, i, j, KeyOf(recorded[i].event).value);
      }
    }
  }

  lemma RecordedInOrder(recorded: seq<Recorded>, rows: seq<Recorded>, i: nat, j: nat, key: Key)
    requires Sorted(rows)
    requires i < j < |recorded| && KeyOf(recorded[i].event) == KeyOf(recorded[j].event) == Some(key)
    requires SameOnEveryKey(rows, recorded)
    ensures Before(recorded[i], recorded[j])
  {
    var sub := RecordedOn(rows, key);
    assert sub == RecordedOn(recorded, key);
    RecordedOnIsSorted(rows, key);
    OrderIsKept(recorded, i, j, key);
    var m, n :| 0 <= m < n < |sub| && sub[m] == recorded[i] && sub[n] == recorded[j];
    assert Before(sub[m], sub[n]);
  }

  lemma SameOnKey(recorded: seq<Recorded>, rows: seq<Recorded>, key: Key)
    requires multiset(rows) == multiset(recorded) && Sorted(rows) && KeysInOrder(recorded)
    ensures RecordedOn(rows, key) == RecordedOn(recorded, key)
  {
    RecordedOnIsSorted(rows, key);
    RecordedOnIsSorted(recorded, key);
    forall row: Recorded
      ensures multiset(RecordedOn(rows, key))[row] == multiset(RecordedOn(recorded, key))[row]
    {
      RecordedOnKeepsCount(rows, key, row);
      RecordedOnKeepsCount(recorded, key, row);
    }
    assert multiset(RecordedOn(rows, key)) == multiset(RecordedOn(recorded, key));
    SortedIsUnique(RecordedOn(rows, key), RecordedOn(recorded, key));
  }

  /**
   The replay tool rebuilds the tables of the recorded log whenever same-key entries were
   recorded in its sorting order; entries of different keys may be reordered freely.
   */
  lemma ReplayRebuilds(recorded: seq<Recorded>, rows: seq<Recorded>)
    requires multiset(rows) == multiset(recorded) && Sorted(rows)
    requires KeysInOrder(recorded)
    ensures SameTables(ApplyAll(EMPTY, Payloads(rows)), ApplyAll(EMPTY, Payloads(recorded)))
  {
    forall key: Key
      ensures OnKey(Payloads(rows), key) == OnKey(Payloads(recorded), key)
    {
      SameOnKey(recorded, rows, key);
      PayloadsOnKey(rows, key);
      PayloadsOnKey(recorded, key);
    }
    OrderAcrossKeysIsIrrelevant(Payloads(rows), Payloads(recorded));
  }

  /**
   Recorded in ledger order: whatever of a key was recorded earlier is of an earlier ledger, or of
   the same one and an earlier time, or of the same transaction there under a lower index.
   */
  ghost predicate InLedgerOrder(rows: seq<Recorded>) {
    forall i, j | 0 <= i < j < |rows| && KeyOf(rows[i].event).Some? && KeyOf(rows[i].event) == KeyOf(rows[j].event) ::
      var (a, b) := (rows[i].event, rows[j].event);
      || a.ledger < b.ledger
      || (a.ledger == b.ledger && a.at < b.at)
      || (a.ledger == b.ledger && a.at == b.at && a.txHash == b.txHash && rows[i].index < rows[j].index)
  }

  /** Then the replay tool, which sorts in that direction, rebuilds the tables of the recorded log. */
  lemma LedgerOrderIsRebuilt(recorded: seq<Recorded>, rows: seq<Recorded>)
    requires multiset(rows) == multiset(recorded) && Sorted(rows)
    requires InLedgerOrder(recorded)
    ensures SameTables(ApplyAll(EMPTY, Payloads(rows)), ApplyAll(EMPTY, Payloads(recorded)))
  {
    assert KeysInOrder(recorded);
    ReplayRebuilds(recorded, rows);
  }

  /**
   It can fail within one key: the index restarts with every page, so a transaction that
   opens a trade at the end of one page and closes it at the start of the next is replayed
   backwards, and the closed trade comes back to life.
   */
  lemma PageBoundaryIsReplayedBackwards(open: Event, close: Event)
    requires open.source == PM && open.topic == Opened && open.trade.Some? && open.tradeIndex.Some?
    requires close.source == PM && close.topic == Closed && close.tradeIndex.Some? && TradeSlot(close) == OpenedSlot(open)
    requires open.txHash == close.txHash && open.ledger == close.ledger && open.at == close.at
    ensures var recorded, rows := [Recorded(open, 199), Recorded(close, 0)], [Recorded(close, 0), Recorded(open, 199)];
            && multiset(rows) == multiset(recorded) && Sorted(rows)
            && OpenedSlot(open) !in ApplyAll(EMPTY, Payloads(recorded)).trades
            && OpenedSlot(open) in ApplyAll(EMPTY, Payloads(rows)).trades
  {
    var rows := [Recorded(close, 0), Recorded(open, 199)];
    TextBeforeIsAsymmetric(open.txHash, open.txHash);
    assert Payloads(rows) == [close, open];
    assert Payloads([Recorded(open, 199), Recorded(close, 0)]) == [open, close];
    TwoEvents(EMPTY, open, close);
    TwoEvents(EMPTY, close, open);
  }

  lemma TwoEvents(t: Tables, a: Event, b: Event)
    ensures ApplyAll(t, [a, b]) == ApplyEvent(ApplyEvent(t, a), b)
  {
    assert [a, b][1..] == [b];
    assert ApplyAll(ApplyEvent(t, a), [b]) == ApplyAll(ApplyEvent(ApplyEvent(t, a), b), []);
  }
}
