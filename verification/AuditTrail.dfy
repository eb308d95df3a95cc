/**
 What the audit log holds after a run of the indexer, and when replaying it rebuilds the tables
 of a single pass. An event is filed under its transaction and its index in the page, and an
 insert that conflicts is dropped; neither is tied to the event's place in the chain's log.
 */
module AuditTrail {
  import opened Wrappers
  import opened Events
  import opened Projection
  import opened Repository
  import opened Deliveries
  import opened CrashConvergence
  import opened Indexer
  import opened Replay

  ghost predicate WithinLog(log: seq<Event>, trail: seq<Entry>) {
    forall i | 0 <= i < |trail| :: trail[i].at < |log|
  }

  function RowOf(log: seq<Event>, entry: Entry): Recorded
    requires entry.at < |log|
  {
    Recorded(log[entry.at], entry.index)
  }

  /** The audit log after a trail of applied events: the first one filed under a key stays. */
  ghost function AuditOf(log: seq<Event>, trail: seq<Entry>): map<AuditKey, Event>
    requires WithinLog(log, trail)
  {
    if trail == [] then map[]
    else
      var last := trail[|trail| - 1];
      Record(AuditOf(log, trail[..|trail| - 1]), log[last.at], last.index)
  }

  /** The insert of the last event finds its key free. */
  ghost predicate Inserted(log: seq<Event>, trail: seq<Entry>)
    requires trail != [] && WithinLog(log, trail)
  {
    KeyOfRow(RowOf(log, trail[|trail| - 1])) !in AuditOf(log, trail[..|trail| - 1])
  }

  /** The entries whose insert found its key free, in order. */
  ghost function Kept(log: seq<Event>, trail: seq<Entry>): seq<Entry>
    requires WithinLog(log, trail)
  {
    if trail == [] then []
    else Kept(log, trail[..|trail| - 1]) + if Inserted(log, trail) then [trail[|trail| - 1]] else []
  }

  /** One past the furthest event of the trail. */
  function Reach(trail: seq<Entry>): nat {
    if trail == [] then 0
    else
      var before, at := Reach(trail[..|trail| - 1]), trail[|trail| - 1].at;
      if at >= before then at + 1 else before
  }

  /** No event was left out. */
  predicate Contiguous(trail: seq<Entry>) {
    trail == [] || (Contiguous(trail[..|trail| - 1]) && trail[|trail| - 1].at <= Reach(trail[..|trail| - 1]))
  }

  // ----- The trail of a run -----

  /** The method's audit log after a page is the trail's. */
  lemma {:induction false} PageIsRecorded(log: seq<Event>, trail: seq<Entry>, from: nat, count: nat)
    requires WithinLog(log, trail) && from + count <= |log|
    ensures WithinLog(log, trail + PageEntries(from, count))
    ensures AuditOf(log, trail + PageEntries(from, count)) == AuditPage(AuditOf(log, trail), log[from..from + count])
    decreases count
  {
    if count == 0 {
      assert trail + PageEntries(from, count) == trail;
    } else {
      PageIsRecorded(log, trail, from, count - 1);
      OneMoreIsRecorded(log, trail, from, count);
    }
  }

  lemma {:induction false} OneMoreIsRecorded(log: seq<Event>, trail: seq<Entry>, from: nat, count: nat)
    requires 0 < count && from + count <= |log| && WithinLog(log, trail) && WithinLog(log, trail + PageEntries(from, count - 1))
    requires AuditOf(log, trail + PageEntries(from, count - 1)) == AuditPage(AuditOf(log, trail), log[from..from + count - 1])
    ensures WithinLog(log, trail + PageEntries(from, count))
    ensures AuditOf(log, trail + PageEntries(from, count)) == AuditPage(AuditOf(log, trail), log[from..from + count])
  {
    LongerPage(log, trail, from, count);
    OneMoreEntry(log, trail + PageEntries(from, count - 1), Entry(from + count - 1, count - 1));
  }

  lemma {:induction false} OneMoreEntry(log: seq<Event>, front: seq<Entry>, last: Entry)
    requires WithinLog(log, front) && last.at < |log|
    ensures WithinLog(log, front + [last])
    ensures AuditOf(log, front + [last]) == Record(AuditOf(log, front), log[last.at], last.index)
  {
    assert (front + [last])[..|front|] == front;
  }

  lemma {:induction false} LongerPage(log: seq<Event>, trail: seq<Entry>, from: nat, count: nat)
    requires 0 < count && from + count <= |log|
    ensures trail + PageEntries(from, count) == trail + PageEntries(from, count - 1) + [Entry(from + count - 1, count - 1)]
    ensures log[from..from + count][..count - 1] == log[from..from + count - 1]
    ensures log[from..from + count][count - 1] == log[from + count - 1]
  {
  }

  lemma {:induction false} PageIsContiguous(trail: seq<Entry>, from: nat, count: nat)
    requires Contiguous(trail) && from <= Reach(trail)
    ensures Contiguous(trail + PageEntries(from, count))
    ensures Reach(trail + PageEntries(from, count)) == if from + count > Reach(trail) then from + count else Reach(trail)
    decreases count
  {
    var longer := trail + PageEntries(from, count);
    if count == 0 {
      assert longer == trail;
    } else {
      PageIsContiguous(trail, from, count - 1);
      assert longer[..|longer| - 1] == trail + PageEntries(from, count - 1);
      assert longer[|longer| - 1] == Entry(from + count - 1, count - 1);
    }
  }

  ghost predicate Tracked(log: seq<Event>, w: World) {
    && WithinLog(log, w.trail) && Contiguous(w.trail)
    && Reach(w.trail) == w.applied.furthest >= w.applied.reached
  }

  /** The trail of a gapless run goes as far as the run and leaves nothing out. */
  lemma {:induction false} RunIsTracked(log: seq<Event>, configured: uint32, w: World, actions: seq<Action>)
    requires IsRun(log, configured, w, actions) && Gapless(log, configured, w, actions, Applied)
    requires Tracked(log, w)
    ensures Tracked(log, After(log, configured, w, actions))
    decreases |actions|
  {
    if actions != [] {
      var from, count := FetchFrom(log, w.process), Count(actions[0], Applied);
      PageIsRecorded(log, w.trail, from, count);
      PageIsContiguous(w.trail, from, count);
      RunIsTracked(log, configured, Act(log, configured, w, actions[0]), actions[1..]);
    }
  }

  // ----- When the audit log is the chain's log -----

  /** The audit log lists every event delivered so far, once. */
  ghost predicate ListsEachOnce(log: seq<Event>, trail: seq<Entry>)
    requires WithinLog(log, trail)
  {
    forall at: nat :: Copies(Kept(log, trail), at) == if at < Reach(trail) then 1 else 0
  }

  function Copies(trail: seq<Entry>, at: nat): nat {
    if trail == [] then 0
    else Copies(trail[..|trail| - 1], at) + if trail[|trail| - 1].at == at then 1 else 0
  }

  ghost predicate AlwaysListsEachOnce(log: seq<Event>, trail: seq<Entry>)
    requires WithinLog(log, trail)
  {
    ListsEachOnce(log, trail) && (trail == [] || AlwaysListsEachOnce(log, trail[..|trail| - 1]))
  }

  /** An insert conflicts exactly when the event is being delivered again. */
  ghost predicate ConflictsAreRedeliveries(log: seq<Event>, trail: seq<Entry>)
    requires WithinLog(log, trail)
  {
    trail == [] ||
    var front := trail[..|trail| - 1];
    ConflictsAreRedeliveries(log, front) && (Inserted(log, trail) <==> trail[|trail| - 1].at >= Reach(front))
  }

  lemma {:induction false} CopiesAppend(trail: seq<Entry>, entry: Entry, at: nat)
    ensures Copies(trail + [entry], at) == Copies(trail, at) + if entry.at == at then 1 else 0
  {
    assert (trail + [entry])[..|trail|] == trail;
  }

  lemma {:induction false} LastInsert(log: seq<Event>, trail: seq<Entry>)
    requires trail != [] && WithinLog(log, trail) && Contiguous(trail)
    requires ListsEachOnce(log, trail[..|trail| - 1])
    ensures ListsEachOnce(log, trail) <==> (Inserted(log, trail) <==> trail[|trail| - 1].at >= Reach(trail[..|trail| - 1]))
  {
    var front, last := trail[..|trail| - 1], trail[|trail| - 1];
    forall at: nat
      ensures Copies(Kept(log, trail), at) ==
              Copies(Kept(log, front), at) + if Inserted(log, trail) && last.at == at then 1 else 0
    {
      if Inserted(log, trail) {
        CopiesAppend(Kept(log, front), last, at);
      } else {
        assert Kept(log, trail) == Kept(log, front);
      }
    }
    assert Copies(Kept(log, front), last.at) == if last.at < Reach(front) then 1 else 0;
  }

  /** At every moment the audit log lists each delivered event once, if and only if inserts conflict exactly on redelivery. */
  lemma {:induction false} AuditIsExactIff(log: seq<Event>, trail: seq<Entry>)
    requires WithinLog(log, trail) && Contiguous(trail)
    ensures AlwaysListsEachOnce(log, trail) <==> ConflictsAreRedeliveries(log, trail)
  {
    if trail != [] {
      AuditIsExactIff(log, trail[..|trail| - 1]);
      if AlwaysListsEachOnce(log, trail[..|trail| - 1]) {
        LastInsert(log, trail);
      }
    }
  }

  // ----- Replaying the audit log of a run -----

  ghost function KeptRows(log: seq<Event>, trail: seq<Entry>): seq<Recorded>
    requires WithinLog(log, trail)
  {
    if trail == [] then []
    else KeptRows(log, trail[..|trail| - 1]) + if Inserted(log, trail) then [RowOf(log, trail[|trail| - 1])] else []
  }

  lemma {:induction false} PayloadsAppend(rows: seq<Recorded>, row: Recorded)
    ensures Payloads(rows + [row]) == Payloads(rows) + [row.event]
  {
  }

  /** If conflicts are redeliveries, the audit log lists the chain's log in order. */
  lemma {:induction false} KeptRowsAreTheLog(log: seq<Event>, trail: seq<Entry>)
    requires WithinLog(log, trail) && Contiguous(trail) && ConflictsAreRedeliveries(log, trail)
    ensures Reach(trail) <= |log|
    ensures Payloads(KeptRows(log, trail)) == log[..Reach(trail)]
  {
    if trail != [] {
      var front, last := trail[..|trail| - 1], trail[|trail| - 1];
      KeptRowsAreTheLog(log, front);
      if Inserted(log, trail) {
        PayloadsAppend(KeptRows(log, front), RowOf(log, last));
        assert log[..last.at + 1] == log[..last.at] + [log[last.at]];
      } else {
        assert KeptRows(log, trail) == KeptRows(log, front);
      }
    }
  }

  /** The audit log's rows are the kept ones, each once. */
  lemma {:induction false} KeptRowsAreTheAudit(log: seq<Event>, trail: seq<Entry>, row: Recorded)
    requires WithinLog(log, trail)
    ensures var audit := AuditOf(log, trail);
            multiset(KeptRows(log, trail))[row] == if KeyOfRow(row) in audit && audit[KeyOfRow(row)] == row.event then 1 else 0
  {
    if trail != [] {
      KeptRowsAreTheAudit(log, trail[..|trail| - 1], row);
      if !Inserted(log, trail) {
        assert KeptRows(log, trail) == KeptRows(log, trail[..|trail| - 1]);
      }
    }
  }

  /** Sorted rows have no duplicates. */
  lemma {:induction false} SortedIsDistinct(rows: seq<Recorded>, row: Recorded)
    requires Sorted(rows)
    ensures multiset(rows)[row] == if row in rows then 1 else 0
    decreases |rows|
  {
    if rows != [] {
      var front, last := rows[..|rows| - 1], rows[|rows| - 1];
      assert rows == front + [last];
      SortedIsDistinct(front, row);
      if last in front {
        var i :| 0 <= i < |front| && front[i] == last;
        assert Before(rows[i], rows[|rows| - 1]);
        BeforeIsAsymmetric(last, last);
      }
    }
  }

  lemma {:induction false} ContentsAreKept(log: seq<Event>, trail: seq<Entry>, rows: seq<Recorded>)
    requires WithinLog(log, trail) && SortedContents(AuditOf(log, trail), rows)
    ensures multiset(rows) == multiset(KeptRows(log, trail))
  {
    forall row: Recorded
      ensures multiset(rows)[row] == multiset(KeptRows(log, trail))[row]
    {
      SortedIsDistinct(rows, row);
      KeptRowsAreTheAudit(log, trail, row);
    }
  }

  /** The run's trail, as far as it got. */
  lemma {:induction false} TrailOfRun(log: seq<Event>, configured: uint32, latest: uint32, actions: seq<Action>)
    requires BeginsAtStart(log, configured, latest)
    requires IsRun(log, configured, Start(configured, latest), actions)
    requires AllSafe(log, configured, Start(configured, latest), actions, Applied)
    ensures Tracked(log, After(log, configured, Start(configured, latest), actions))
  {
    RunIsGaplessIff(log, configured, latest, actions, Applied);
    RunIsTracked(log, configured, Start(configured, latest), actions);
  }

  lemma {:induction false} ReplayRebuildsTheTrail(log: seq<Event>, trail: seq<Entry>, rows: seq<Recorded>)
    requires WithinLog(log, trail) && Contiguous(trail)
    requires ConflictsAreRedeliveries(log, trail) && KeysInOrder(KeptRows(log, trail))
    requires SortedContents(AuditOf(log, trail), rows)
    ensures Reach(trail) <= |log|
    ensures SameTables(ApplyAll(EMPTY, Payloads(rows)), Once(log, Reach(trail)))
  {
    KeptRowsAreTheLog(log, trail);
    ContentsAreKept(log, trail, rows);
    ReplayRebuilds(KeptRows(log, trail), rows);
  }

  /**
   Replaying the audit log of any gapless run rebuilds all the tables of a single pass as far as the
   run got, if inserts conflicted exactly on redelivery and same-key events were recorded in the
   replay tool's order. It does not matter where the run was killed or whether it has caught up.
   */
  lemma {:induction false} ReplayRebuildsTheRun(
    log: seq<Event>, configured: uint32, latest: uint32, actions: seq<Action>, w: World, rows: seq<Recorded>
  )
    requires BeginsAtStart(log, configured, latest)
    requires IsRun(log, configured, Start(configured, latest), actions)
    requires AllSafe(log, configured, Start(configured, latest), actions, Applied)
    requires w == After(log, configured, Start(configured, latest), actions) && WithinLog(log, w.trail)
    requires ConflictsAreRedeliveries(log, w.trail) && KeysInOrder(KeptRows(log, w.trail))
    requires SortedContents(AuditOf(log, w.trail), rows)
    ensures w.applied.furthest <= |log|
    ensures SameTables(ApplyAll(EMPTY, Payloads(rows)), Once(log, w.applied.furthest))
  {
    TrailOfRun(log, configured, latest, actions);
    ReplayRebuildsTheTrail(log, w.trail, rows);
  }

  // ----- How it fails -----

  /** Events of one transaction at the same index of two pages: the later one is not recorded. */
  lemma {:induction false} SameIndexInTwoPages(a: Event, b: Event)
    requires a.txHash == b.txHash
    ensures ConflictsAreRedeliveries([a, b], [Entry(0, 0)]) && !ConflictsAreRedeliveries([a, b], [Entry(0, 0), Entry(1, 0)])
    ensures AuditOf([a, b], [Entry(0, 0), Entry(1, 0)]) == map[AuditKey(a.txHash, 0) := a]
  {
    var log, one, two := [a, b], [Entry(0, 0)], [Entry(0, 0), Entry(1, 0)];
    assert one[..0] == [] && two[..1] == one;
    assert AuditOf(log, one) == Record(map[], a, 0);
    assert Inserted(log, one) && ConflictsAreRedeliveries(log, []);
    assert Reach(one) == 1 && !Inserted(log, two);
  }

  /** A page of two delivered again as two pages of one: the second event is recorded twice. */
  lemma {:induction false} ShiftedPage(a: Event, b: Event)
    requires a.txHash != b.txHash
    ensures var trail := [Entry(0, 0), Entry(1, 1), Entry(0, 0), Entry(1, 0)];
            && !ConflictsAreRedeliveries([a, b], trail)
            && AuditOf([a, b], trail)
            == map[AuditKey(a.txHash, 0) := a, AuditKey(b.txHash, 1) := b, AuditKey(b.txHash, 0) := b]
  {
    var log, one, two := [a, b], [Entry(0, 0)], [Entry(0, 0), Entry(1, 1)];
    var three, four := two + [Entry(0, 0)], two + [Entry(0, 0), Entry(1, 0)];
    assert one[..0] == [] && two[..1] == one && three[..2] == two && four[..3] == three;
    assert AuditOf(log, one) == Record(map[], a, 0);
    assert AuditOf(log, two) == Record(Record(map[], a, 0), b, 1) == AuditOf(log, three);
    assert Reach(one) == 1 && Reach(two) == 2 == Reach(three);
    assert four == [Entry(0, 0), Entry(1, 1), Entry(0, 0), Entry(1, 0)];
    assert Inserted(log, four);
  }

  /** An executed limit order and the trade it opens, in one transaction but in two pages. */
  function SplitRun(executed: Event, open: Event): seq<Action> {
    [Poll(Response([executed], Some(Token("", 1))), true), Poll(Response([open], Some(Token("", 2))), true)]
  }

  lemma {:induction false} SplitRunIsPossible(executed: Event, open: Event, configured: uint32)
    requires 0 < configured <= executed.ledger == open.ledger
    ensures BeginsAtStart([executed, open], configured, 0)
    ensures var log, w := [executed, open], Start(configured, 0);
            && IsRun(log, configured, w, SplitRun(executed, open))
            && After(log, configured, w, SplitRun(executed, open)).trail == [Entry(0, 0), Entry(1, 0)]
            && After(log, configured, w, SplitRun(executed, open)).applied == Progress(log, 2, 2)
  {
    var log, actions := [executed, open], SplitRun(executed, open);
    var w0 := Start(configured, 0);
    assert FirstAt(log, configured) == 0;
    assert log[0..1] == [executed] && log[1..2] == [open];
    var w1 := Act(log, configured, w0, actions[0]);
    assert FetchFrom(log, w1.process) == 1;
    assert w1.applied == Progress([executed], 1, 1) && w1.trail == [Entry(0, 0)];
    var w2 := Act(log, configured, w1, actions[1]);
    assert w2.applied == Progress(log, 2, 2) && w2.trail == [Entry(0, 0), Entry(1, 0)];
    assert actions[1..] == [actions[1]] && actions[1..][1..] == [];
    assert IsRun(log, configured, w2, []) && After(log, configured, w2, []) == w2;
    assert IsRun(log, configured, w1, actions[1..]) && After(log, configured, w1, actions[1..]) == w2;
  }

  /** Without any crash, the trade is live after the run and lost by the replay. */
  lemma {:induction false} ReplayLosesATrade(executed: Event, open: Event, configured: uint32, rows: seq<Recorded>)
    requires 0 < configured <= executed.ledger == open.ledger && executed.txHash == open.txHash
    requires executed.source == PM && executed.topic == Executed
    requires open.source == PM && open.topic == Opened && open.trade.Some? && open.tradeIndex.Some?
    requires SortedContents(AuditOf([executed, open], [Entry(0, 0), Entry(1, 0)]), rows)
    ensures IsRun([executed, open], configured, Start(configured, 0), SplitRun(executed, open))
    ensures var w := After([executed, open], configured, Start(configured, 0), SplitRun(executed, open));
            && w.trail == [Entry(0, 0), Entry(1, 0)]
            && OpenedSlot(open) in w.Database().trades
            && OpenedSlot(open) !in ApplyAll(EMPTY, Payloads(rows)).trades
  {
    SplitRunIsPossible(executed, open, configured);
    SameIndexInTwoPages(executed, open);
    TwoEvents(EMPTY, executed, open);
    OnlyRow(map[AuditKey(executed.txHash, 0) := executed], Recorded(executed, 0), rows);
    assert Payloads(rows) == [executed];
    assert ApplyAll(EMPTY, [executed]) == ApplyAll(ApplyEvent(EMPTY, executed), []);
  }

  lemma {:induction false} OnlyRow(audit: map<AuditKey, Event>, row: Recorded, rows: seq<Recorded>)
    requires audit == map[KeyOfRow(row) := row.event] && SortedContents(audit, rows)
    ensures rows == [row]
  {
    assert row in rows;
    SortedIsDistinct(rows, row);
    forall i | 0 <= i < |rows|
      ensures rows[i] == row
    {
      assert rows[i] in rows;
    }
    if |rows| > 1 {
      assert Before(rows[0], rows[1]);
      BeforeIsAsymmetric(row, row);
    }
  }
}
