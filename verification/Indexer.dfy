/**
 The polling loop: fetch a page, apply its events one by one, then persist the cursor.
 The process may be killed between any two of these steps and then resumes from what it
 had persisted.
 */
module Indexer {
  import opened Wrappers
  import opened Events
  import opened Projection
  import opened Repository
  import opened Deliveries
  import opened Cursors
  import opened CrashConvergence

  /** What the running process knows: where to fetch from next. */
  datatype Process = Process(startLedger: uint32, cursor: Option<Token>)

  /** A page of events; the cursor past it may be missing. */
  datatype Response = Response(events: seq<Event>, cursor: Option<Token>)

  function MaxLedger(a: uint32, b: uint32): uint32 {
    if b > a then b else a
  }

  /** Whether what was persisted says where to resume. */
  predicate Usable(saved: Option<SavedCursor>) {
    saved.Some? && (saved.value.lastLedger > 0 || saved.value.cursor.Some?)
  }

  /** Where a starting process begins: the persisted cursor, else the configured ledger, else the latest one. */
  function Boot(saved: Option<SavedCursor>, configured: uint32, latest: uint32): Process {
    if Usable(saved) then
      Process(saved.value.lastLedger, saved.value.cursor)
    else if configured > 0 then Process(configured, None)
    else Process(latest, None)
  }

  function AfterEvents(ledger: uint32, events: seq<Event>): uint32
    decreases |events|
  {
    if events == [] then ledger else MaxLedger(AfterEvents(ledger, events[..|events| - 1]), events[|events| - 1].ledger)
  }

  function AfterPage(p: Process, resp: Response): Process {
    var ledger := AfterEvents(p.startLedger, resp.events);
    match resp.cursor
    case None => Process(ledger, p.cursor)
    case Some(token) =>
      Process(MaxLedger(ledger, LedgerFromCursor(token.text).UnwrapOr(0)), Some(token))
  }

  /** The audit log after a page: an event is filed under its index in the page. */
  function AuditPage(audit: map<AuditKey, Event>, events: seq<Event>): map<AuditKey, Event>
    decreases |events|
  {
    if events == [] then audit
    else Record(AuditPage(audit, events[..|events| - 1]), events[|events| - 1], |events| - 1)
  }

  class Loop {
    const repo: Repo
    const configured: uint32
    var startLedger: uint32
    var cursor: Option<Token>

    ghost function State(): Process
      reads this
    {
      Process(startLedger, cursor)
    }

    constructor (repo: Repo, configured: uint32, latest: uint32)
      ensures this.repo == repo && State() == Boot(repo.saved, configured, latest)
    {
      this.repo, this.configured := repo, configured;
      new;
      var last, saved := repo.ReadCursor();
      if last > 0 || saved.Some? {
        startLedger, cursor := last, saved;
      } else if configured > 0 {
        startLedger, cursor := configured, None;
      } else {
        startLedger, cursor := latest, None;
      }
    }

    /** The page's cursor replaces the old one, and pulls the start ledger forward if it names a later one. */
    method FollowCursor(token: Token)
      modifies this
      ensures cursor == Some(token)
      ensures startLedger == MaxLedger(old(startLedger), LedgerFromCursor(token.text).UnwrapOr(0))
    {
      cursor := Some(token);
      var ledger := LedgerFromCursor(token.text);
      if ledger.Some? && ledger.value > startLedger {
        startLedger := ledger.value;
      }
    }

    /**
     One poll. Each event is applied and then published. The process is killed once it has applied
     `lifetime` events, possibly before it publishes the last of them, and at the latest just before
     it persists the cursor; persisting may also fail.
     */
    method PollOnce(resp: Response, lifetime: nat, unheard: bool, writable: bool)
      returns (finished: bool, published: seq<Event>)
      modifies this, repo
      ensures finished <==> lifetime > |resp.events|
      ensures finished ==>
                && repo.Contents() == ApplyAll(old(repo.Contents()), resp.events)
                && repo.audit == AuditPage(old(repo.audit), resp.events)
                && published == resp.events
                && State() == AfterPage(old(State()), resp)
                && repo.saved == if writable then Some(SavedCursor(startLedger, cursor)) else old(repo.saved)
      ensures !finished ==>
                && repo.Contents() == ApplyAll(old(repo.Contents()), resp.events[..lifetime])
                && repo.audit == AuditPage(old(repo.audit), resp.events[..lifetime])
                && published == resp.events[..if unheard && lifetime > 0 then lifetime - 1 else lifetime]
                && repo.saved == old(repo.saved)
    {
      var events := resp.events;
      published := [];
      for i := 0 to |events|
        invariant i <= lifetime && published == events[..i]
        invariant i == lifetime ==> lifetime == 0 || !unheard
        invariant repo.Contents() == ApplyAll(old(repo.Contents()), events[..i])
        invariant repo.audit == AuditPage(old(repo.audit), events[..i])
        invariant startLedger == AfterEvents(old(startLedger), events[..i])
        invariant cursor == old(cursor) && repo.saved == old(repo.saved)
      {
        if i == lifetime {
          return false, published;
        }
        PageStep(old(repo.Contents()), old(repo.audit), old(startLedger), events, i);
        repo.Apply(events[i], i);
        if i + 1 == lifetime && unheard {
          return false, published;
        }
        published := published + [events[i]];
        if events[i].ledger > startLedger {
          startLedger := events[i].ledger;
        }
      }
      assert events[..|events|] == events;
      if lifetime == |events| {
        return false, published;
      }
      if resp.cursor.Some? {
        FollowCursor(resp.cursor.value);
      }
      if writable {
        repo.WriteCursor(startLedger, cursor);
      }
      return true, published;
    }
  }

  lemma {:induction false} PageStep(t: Tables, audit: map<AuditKey, Event>, ledger: uint32, events: seq<Event>, i: nat)
    requires i < |events|
    ensures events[..i + 1] == events[..i] + [events[i]]
    ensures ApplyAll(t, events[..i + 1]) == ApplyEvent(ApplyAll(t, events[..i]), events[i])
    ensures AuditPage(audit, events[..i + 1]) == Record(AuditPage(audit, events[..i]), events[i], i)
    ensures AfterEvents(ledger, events[..i + 1]) == MaxLedger(AfterEvents(ledger, events[..i]), events[i].ledger)
  {
    assert events[..i + 1] == events[..i] + [events[i]];
    assert events[..i + 1][..i] == events[..i];
    ApplyAllConcat(t, events[..i], [events[i]]);
  }

  // ----- Runs of the indexer against the chain's log -----

  ghost predicate SortedByLedger(log: seq<Event>) {
    forall i, j | 0 <= i < j < |log| :: log[i].ledger <= log[j].ledger
  }

  /** The first event at or after a ledger. */
  function FirstAt(log: seq<Event>, ledger: uint32): (at: nat)
    ensures at <= |log|
    ensures forall i | 0 <= i < at :: log[i].ledger < ledger
    ensures at < |log| ==> log[at].ledger >= ledger
  {
    if log == [] || log[0].ledger >= ledger then 0 else 1 + FirstAt(log[1..], ledger)
  }

  /** A cursor takes precedence over the start ledger. */
  function FetchFrom(log: seq<Event>, p: Process): nat {
    if p.cursor.Some? then p.cursor.value.pos else FirstAt(log, p.startLedger)
  }

  /** The RPC answers with the next events, however many, and a cursor just past them, if any. */
  ghost predicate Answers(log: seq<Event>, p: Process, resp: Response) {
    var from := FetchFrom(log, p);
    && from + |resp.events| <= |log|
    && resp.events == log[from..from + |resp.events|]
    && (resp.cursor.Some? ==> resp.cursor.value.pos == from + |resp.events|)
  }

  /** A stream of delivered events, where in the log it stands and how far it ever got. */
  datatype Progress = Progress(stream: seq<Event>, reached: nat, furthest: nat)

  /** An event as it was applied: its place in the log and its index in the page. */
  datatype Entry = Entry(at: nat, index: nat)

  /** Events go to the database and to the subscribers. */
  datatype Stream = Applied | Published

  datatype World = World(
    saved: Option<SavedCursor>, process: Process, applied: Progress, published: Progress, trail: seq<Entry>
  ) {
    function Database(): Tables { ApplyAll(EMPTY, applied.stream) }

    function To(s: Stream): Progress { if s.Applied? then applied else published }
  }

  /**
   A whole page, whose cursor may fail to be persisted; or a page cut short by a kill and a
   restart, possibly between applying the last event and publishing it.
   */
  datatype Action =
    | Poll(resp: Response, persisted: bool)
    | Kill(resp: Response, applied: nat, published: nat, latest: uint32)

  function Count(a: Action, s: Stream): nat {
    match a
    case Poll(resp, _) => |resp.events|
    case Kill(_, applied, published, _) => if s.Applied? then applied else published
  }

  ghost predicate Possible(log: seq<Event>, w: World, a: Action) {
    && Answers(log, w.process, a.resp)
    && (a.Kill? ==> a.published <= a.applied <= |a.resp.events| && a.applied <= a.published + 1)
  }

  function Extend(log: seq<Event>, p: Progress, from: nat, count: nat): Progress
    requires from + count <= |log|
  {
    Progress(p.stream + log[from..from + count], from + count, if from + count > p.furthest then from + count else p.furthest)
  }

  function PageEntries(from: nat, count: nat): seq<Entry> {
    seq(count, i requires 0 <= i < count => Entry(from + i, i))
  }

  function Act(log: seq<Event>, configured: uint32, w: World, a: Action): World
    requires Possible(log, w, a)
  {
    var from := FetchFrom(log, w.process);
    var process := if a.Poll? then AfterPage(w.process, a.resp) else Boot(w.saved, configured, a.latest);
    var saved := if a.Poll? && a.persisted then Some(SavedCursor(process.startLedger, process.cursor)) else w.saved;
    World(saved, process, Extend(log, w.applied, from, Count(a, Applied)), Extend(log, w.published, from, Count(a, Published)),
          w.trail + PageEntries(from, Count(a, Applied)))
  }

  function Start(configured: uint32, latest: uint32): World {
    World(None, Boot(None, configured, latest), Progress([], 0, 0), Progress([], 0, 0), [])
  }

  /** The log is what the first process sees from where it starts. */
  ghost predicate BeginsAtStart(log: seq<Event>, configured: uint32, latest: uint32) {
    SortedByLedger(log) && FirstAt(log, Boot(None, configured, latest).startLedger) == 0
  }

  /** Every action is possible in the world its predecessors leave. */
  ghost predicate IsRun(log: seq<Event>, configured: uint32, w: World, actions: seq<Action>)
    decreases |actions|
  {
    actions == [] ||
    (Possible(log, w, actions[0]) && IsRun(log, configured, Act(log, configured, w, actions[0]), actions[1..]))
  }

  function After(log: seq<Event>, configured: uint32, w: World, actions: seq<Action>): World
    requires IsRun(log, configured, w, actions)
    decreases |actions|
  {
    if actions == [] then w else After(log, configured, Act(log, configured, w, actions[0]), actions[1..])
  }

  /**
   A kill before anything usable was persisted is harmless to a stream if a start ledger is
   configured, or if what it has yet to deliver does not lie below the ledger that is then the latest.
   */
  predicate SafeKill(log: seq<Event>, configured: uint32, saved: Option<SavedCursor>, latest: uint32, delivered: nat) {
    Usable(saved) || configured > 0 || delivered >= |log| || log[delivered].ledger >= latest
  }

  predicate SafeAction(log: seq<Event>, configured: uint32, w: World, a: Action, s: Stream) {
    a.Kill? ==> SafeKill(log, configured, w.saved, a.latest, FetchFrom(log, w.process) + Count(a, s))
  }

  ghost predicate AllSafe(log: seq<Event>, configured: uint32, w: World, actions: seq<Action>, s: Stream)
    requires IsRun(log, configured, w, actions)
    decreases |actions|
  {
    actions == [] ||
    (SafeAction(log, configured, w, actions[0], s) && AllSafe(log, configured, Act(log, configured, w, actions[0]), actions[1..], s))
  }

  lemma {:induction false} FirstAtIsMonotone(log: seq<Event>, a: uint32, b: uint32)
    requires SortedByLedger(log) && a <= b
    ensures FirstAt(log, a) <= FirstAt(log, b)
  {
  }

  lemma {:induction false} FirstAtReaches(log: seq<Event>, at: nat)
    requires SortedByLedger(log) && at < |log|
    ensures FirstAt(log, log[at].ledger) <= at
  {
  }

  /** The start ledger only grows, and only to ledgers that were seen. */
  lemma {:induction false} LedgerWasSeen(ledger: uint32, events: seq<Event>)
    ensures AfterEvents(ledger, events) >= ledger
    ensures AfterEvents(ledger, events) == ledger || exists i | 0 <= i < |events| :: events[i].ledger == AfterEvents(ledger, events)
    decreases |events|
  {
    if events != [] {
      LedgerWasSeen(ledger, events[..|events| - 1]);
    }
  }

  /** After events fetched by ledger, the start ledger points at or before the end of the page, and not backwards. */
  lemma {:induction false} LedgerStaysBehind(log: seq<Event>, ledger: uint32, page: seq<Event>)
    requires SortedByLedger(log) && FirstAt(log, ledger) + |page| <= |log|
    requires page == log[FirstAt(log, ledger)..FirstAt(log, ledger) + |page|]
    ensures FirstAt(log, ledger) <= FirstAt(log, AfterEvents(ledger, page)) <= FirstAt(log, ledger) + |page|
    ensures AfterEvents(ledger, page) >= ledger
  {
    var reached := AfterEvents(ledger, page);
    LedgerWasSeen(ledger, page);
    FirstAtIsMonotone(log, ledger, reached);
    if reached != ledger {
      var i :| 0 <= i < |page| && page[i].ledger == reached;
      FirstAtReaches(log, FirstAt(log, ledger) + i);
    }
  }

  /** The place to resume from is never beyond what has been delivered, in memory or on disk. */
  ghost predicate NoGap(log: seq<Event>, w: World, s: Stream) {
    && FetchFrom(log, w.process) <= w.To(s).reached
    && (Usable(w.saved) ==> FetchFrom(log, Boot(w.saved, 0, 0)) <= FetchFrom(log, w.process))
  }

  lemma {:induction false} PageLeavesNoGap(log: seq<Event>, p: Process, resp: Response)
    requires SortedByLedger(log) && Answers(log, p, resp)
    ensures FetchFrom(log, p) <= FetchFrom(log, AfterPage(p, resp)) <= FetchFrom(log, p) + |resp.events|
    ensures AfterPage(p, resp).cursor.None? ==> AfterPage(p, resp).startLedger >= p.startLedger && p.cursor.None?
  {
    if resp.cursor.Some? {
      assert AfterPage(p, resp).cursor == resp.cursor;
    } else if p.cursor.Some? {
      assert AfterPage(p, resp).cursor == p.cursor;
    } else {
      LedgerStaysBehind(log, p.startLedger, resp.events);
    }
  }

  /** Delivering a stretch of the log from a point already passed. */
  lemma {:induction false} Redeliver(log: seq<Event>, moves: seq<Move>, from: nat, count: nat) returns (longer: seq<Move>)
    requires Legal(moves, |log|) && from <= Position(moves) && from + count <= |log|
    ensures Legal(longer, |log|)
    ensures Position(longer) == from + count && Furthest(longer) == (if from + count > Furthest(moves) then from + count else Furthest(moves))
    ensures Delivered(log, longer) == Delivered(log, moves) + log[from..from + count]
    decreases count
  {
    PositionsStayInLog(moves, |log|);
    if count == 0 {
      AppendMove(log, moves, Rewind(from));
      longer := moves + [Rewind(from)];
    } else {
      var shorter := Redeliver(log, moves, from, count - 1);
      AppendMove(log, shorter, Advance);
      PositionsStayInLog(shorter, |log|);
      longer := shorter + [Advance];
      assert log[from..from + count] == log[from..from + count - 1] + [log[from + count - 1]];
    }
  }

  ghost predicate IsDelivery(log: seq<Event>, p: Progress) {
    exists moves :: IsDeliveryBy(log, p, moves)
  }

  ghost predicate IsDeliveryBy(log: seq<Event>, p: Progress, moves: seq<Move>) {
    Legal(moves, |log|) && p == Progress(Delivered(log, moves), Position(moves), Furthest(moves))
  }

  lemma {:induction false} ExtendingIsADelivery(log: seq<Event>, p: Progress, from: nat, count: nat)
    requires IsDelivery(log, p) && from <= p.reached && from + count <= |log|
    ensures IsDelivery(log, Extend(log, p, from, count))
  {
    var moves :| IsDeliveryBy(log, p, moves);
    var longer := Redeliver(log, moves, from, count);
    assert IsDeliveryBy(log, Extend(log, p, from, count), longer);
  }

  lemma {:induction false} FirstAtZero(log: seq<Event>, configured: uint32, latest: uint32)
    requires BeginsAtStart(log, configured, latest)
    ensures FirstAt(log, configured) == 0
  {
    FirstAtIsMonotone(log, configured, Boot(None, configured, latest).startLedger);
  }

  /** A restart resumes beyond what was delivered exactly if the kill was unsafe. */
  lemma {:induction false} RestartSkipsIff(log: seq<Event>, configured: uint32, w: World, a: Action, s: Stream)
    requires SortedByLedger(log) && FirstAt(log, configured) == 0
    requires Possible(log, w, a) && a.Kill? && NoGap(log, w, s)
    ensures FetchFrom(log, Act(log, configured, w, a).process) > FetchFrom(log, w.process) + Count(a, s)
       <==> !SafeKill(log, configured, w.saved, a.latest, FetchFrom(log, w.process) + Count(a, s))
  {
    var delivered := FetchFrom(log, w.process) + Count(a, s);
    if Usable(w.saved) {
      assert Boot(w.saved, configured, a.latest) == Boot(w.saved, 0, 0);
    } else {
      assert Boot(w.saved, configured, a.latest) == Boot(None, configured, a.latest);
      FreshRestartSkipsIff(log, configured, a.latest, delivered);
    }
  }

  lemma {:induction false} ActionIsADelivery(log: seq<Event>, configured: uint32, w: World, a: Action, s: Stream)
    requires SortedByLedger(log) && FirstAt(log, configured) == 0 && Possible(log, w, a)
    requires NoGap(log, w, s) && IsDelivery(log, w.To(s))
    requires SafeAction(log, configured, w, a, s)
    ensures var w' := Act(log, configured, w, a); NoGap(log, w', s) && IsDelivery(log, w'.To(s))
  {
    ExtendingIsADelivery(log, w.To(s), FetchFrom(log, w.process), Count(a, s));
    if a.Poll? {
      PollLeavesNoGap(log, configured, w, a, s);
    } else {
      RestartSkipsIff(log, configured, w, a, s);
      KillLeavesNoGap(log, configured, w, a, s);
    }
  }

  lemma {:induction false} PollLeavesNoGap(log: seq<Event>, configured: uint32, w: World, a: Action, s: Stream)
    requires SortedByLedger(log) && Possible(log, w, a) && a.Poll? && NoGap(log, w, s)
    ensures NoGap(log, Act(log, configured, w, a), s)
  {
    PageLeavesNoGap(log, w.process, a.resp);
    var p := AfterPage(w.process, a.resp);
    if a.persisted && Usable(Some(SavedCursor(p.startLedger, p.cursor))) {
      assert Boot(Some(SavedCursor(p.startLedger, p.cursor)), 0, 0) == p;
    }
  }

  lemma {:induction false} KillLeavesNoGap(log: seq<Event>, configured: uint32, w: World, a: Action, s: Stream)
    requires Possible(log, w, a) && a.Kill? && NoGap(log, w, s)
    requires FetchFrom(log, Act(log, configured, w, a).process) <= FetchFrom(log, w.process) + Count(a, s)
    ensures NoGap(log, Act(log, configured, w, a), s)
  {
    if Usable(w.saved) {
      assert Boot(w.saved, configured, a.latest) == Boot(w.saved, 0, 0);
    }
  }

  lemma {:induction false} StartIsADelivery(log: seq<Event>, configured: uint32, latest: uint32, s: Stream)
    requires BeginsAtStart(log, configured, latest)
    ensures NoGap(log, Start(configured, latest), s) && IsDelivery(log, Start(configured, latest).To(s))
    ensures FirstAt(log, configured) == 0
  {
    FirstAtZero(log, configured, latest);
    assert IsDeliveryBy(log, Progress([], 0, 0), []);
  }

  /** Whatever else happens, a run whose kills are all safe delivers the log without gaps. */
  lemma {:induction false} RunsAreDeliveries(log: seq<Event>, configured: uint32, w: World, actions: seq<Action>, s: Stream)
    requires SortedByLedger(log) && FirstAt(log, configured) == 0
    requires NoGap(log, w, s) && IsDelivery(log, w.To(s))
    requires IsRun(log, configured, w, actions) && AllSafe(log, configured, w, actions, s)
    ensures var w' := After(log, configured, w, actions); NoGap(log, w', s) && IsDelivery(log, w'.To(s))
    decreases |actions|
  {
    if actions != [] {
      ActionIsADelivery(log, configured, w, actions[0], s);
      RunsAreDeliveries(log, configured, Act(log, configured, w, actions[0]), actions[1..], s);
    }
  }

  /** Throughout the run, the process never fetches beyond what the stream has delivered. */
  ghost predicate Gapless(log: seq<Event>, configured: uint32, w: World, actions: seq<Action>, s: Stream)
    requires IsRun(log, configured, w, actions)
    decreases |actions|
  {
    && FetchFrom(log, w.process) <= w.To(s).reached
    && (actions == [] || Gapless(log, configured, Act(log, configured, w, actions[0]), actions[1..], s))
  }

  lemma {:induction false} UnsafeKillLeavesAGap(log: seq<Event>, configured: uint32, w: World, a: Action, s: Stream)
    requires SortedByLedger(log) && FirstAt(log, configured) == 0
    requires NoGap(log, w, s) && Possible(log, w, a) && !SafeAction(log, configured, w, a, s)
    ensures FetchFrom(log, Act(log, configured, w, a).process) > Act(log, configured, w, a).To(s).reached
  {
    RestartSkipsIff(log, configured, w, a, s);
  }

  lemma {:induction false} GaplessFrom(log: seq<Event>, configured: uint32, w: World, actions: seq<Action>, s: Stream)
    requires SortedByLedger(log) && FirstAt(log, configured) == 0
    requires NoGap(log, w, s) && IsDelivery(log, w.To(s))
    requires IsRun(log, configured, w, actions)
    ensures Gapless(log, configured, w, actions, s) <==> AllSafe(log, configured, w, actions, s)
    decreases |actions|
  {
    if actions != [] {
      var w' := Act(log, configured, w, actions[0]);
      if SafeAction(log, configured, w, actions[0], s) {
        ActionIsADelivery(log, configured, w, actions[0], s);
        GaplessFrom(log, configured, w', actions[1..], s);
      } else {
        UnsafeKillLeavesAGap(log, configured, w, actions[0], s);
        GapShows(log, configured, w', actions[1..], s);
      }
    }
  }

  lemma {:induction false} GapShows(log: seq<Event>, configured: uint32, w: World, actions: seq<Action>, s: Stream)
    requires IsRun(log, configured, w, actions) && FetchFrom(log, w.process) > w.To(s).reached
    ensures !Gapless(log, configured, w, actions, s)
  {
  }

  /** A run has no gap if and only if every kill in it is safe. */
  lemma {:induction false} RunIsGaplessIff(log: seq<Event>, configured: uint32, latest: uint32, actions: seq<Action>, s: Stream)
    requires BeginsAtStart(log, configured, latest)
    requires IsRun(log, configured, Start(configured, latest), actions)
    ensures Gapless(log, configured, Start(configured, latest), actions, s)
       <==> AllSafe(log, configured, Start(configured, latest), actions, s)
  {
    StartIsADelivery(log, configured, latest, s);
    GaplessFrom(log, configured, Start(configured, latest), actions, s);
  }

  /** With a configured start ledger, or once something usable has been persisted, every kill is safe. */
  lemma {:induction false} RunsAreSafe(log: seq<Event>, configured: uint32, w: World, actions: seq<Action>, s: Stream)
    requires IsRun(log, configured, w, actions)
    requires configured > 0 || (Usable(w.saved) && (w.process.startLedger > 0 || w.process.cursor.Some?))
    ensures AllSafe(log, configured, w, actions, s)
    decreases |actions|
  {
    if actions != [] {
      if actions[0].Poll? {
        LedgerWasSeen(w.process.startLedger, actions[0].resp.events);
      }
      RunsAreSafe(log, configured, Act(log, configured, w, actions[0]), actions[1..], s);
    }
  }

  /** What is safe for the subscribers is safe for the database, which is never behind them. */
  lemma {:induction false} SafeForBoth(log: seq<Event>, configured: uint32, w: World, actions: seq<Action>)
    requires SortedByLedger(log)
    requires IsRun(log, configured, w, actions) && AllSafe(log, configured, w, actions, Published)
    ensures AllSafe(log, configured, w, actions, Applied)
    decreases |actions|
  {
    if actions != [] {
      SafeForBoth(log, configured, Act(log, configured, w, actions[0]), actions[1..]);
    }
  }

  lemma {:induction false} PublishedStaysBehind(log: seq<Event>, configured: uint32, w: World, actions: seq<Action>)
    requires IsRun(log, configured, w, actions) && w.published.furthest <= w.applied.furthest
    ensures After(log, configured, w, actions).published.furthest <= After(log, configured, w, actions).applied.furthest
    decreases |actions|
  {
    if actions != [] {
      PublishedStaysBehind(log, configured, Act(log, configured, w, actions[0]), actions[1..]);
    }
  }

  /**
   However often the indexer is killed, with whatever page lengths, missing cursors and failed
   cursor writes: when it stands at the furthest point it ever reached, the tables are those of a
   single pass. Kills before the first usable cursor must be safe.
   */
  lemma {:induction false} IndexerConverges(log: seq<Event>, configured: uint32, latest: uint32, actions: seq<Action>)
    requires BeginsAtStart(log, configured, latest) && WellFormedLog(log)
    requires IsRun(log, configured, Start(configured, latest), actions)
    requires AllSafe(log, configured, Start(configured, latest), actions, Applied)
    requires var w := After(log, configured, Start(configured, latest), actions); w.applied.reached == w.applied.furthest
    ensures var w := After(log, configured, Start(configured, latest), actions);
            && w.applied.furthest <= |log|
            && w.Database().trades == Once(log, w.applied.furthest).trades
            && w.Database().history == Once(log, w.applied.furthest).history
            && w.Database().limits == Once(log, w.applied.furthest).limits
  {
    StartIsADelivery(log, configured, latest, Applied);
    RunsAreDeliveries(log, configured, Start(configured, latest), actions, Applied);
    var w := After(log, configured, Start(configured, latest), actions);
    var moves :| IsDeliveryBy(log, w.applied, moves);
    ProjectionsConverge(log, moves);
  }

  /** Where the database has caught up, the subscribers have as well, unless the last event was never published. */
  lemma {:induction false} SubscribersCatchUp(log: seq<Event>, configured: uint32, latest: uint32, actions: seq<Action>)
    requires BeginsAtStart(log, configured, latest)
    requires IsRun(log, configured, Start(configured, latest), actions)
    requires AllSafe(log, configured, Start(configured, latest), actions, Published)
    requires var w := After(log, configured, Start(configured, latest), actions);
             w.published.reached == w.applied.reached == w.applied.furthest
    ensures var w := After(log, configured, Start(configured, latest), actions);
            IsDelivery(log, w.published) && w.published.reached == w.published.furthest == w.applied.furthest
  {
    StartIsADelivery(log, configured, latest, Published);
    RunsAreDeliveries(log, configured, Start(configured, latest), actions, Published);
    PublishedStaysBehind(log, configured, Start(configured, latest), actions);
    var w := After(log, configured, Start(configured, latest), actions);
    var moves :| IsDeliveryBy(log, w.published, moves);
    PositionsStayInLog(moves, |log|);
  }

  /**
   The configured start ledger matters: restarted with nothing persisted, the indexer skips
   events exactly when none is configured and an event it has not applied yet lies below the
   ledger that is then the latest.
   */
  lemma {:induction false} FreshRestartSkipsIff(log: seq<Event>, configured: uint32, latest: uint32, reached: nat)
    requires SortedByLedger(log) && FirstAt(log, configured) == 0 && reached <= |log|
    ensures FetchFrom(log, Boot(None, configured, latest)) > reached
       <==> configured == 0 && reached < |log| && log[reached].ledger < latest
  {
    if reached < |log| && log[reached].ledger >= latest {
      FirstAtIsMonotone(log, latest, log[reached].ledger);
      FirstAtReaches(log, reached);
    }
  }
}
