/** How far one poll takes the indexer, and where an undisturbed run of polls ends. */
module IndexerProgress {
  import opened Wrappers
  import opened Events
  import opened Projection
  import opened Repository
  import opened Cursors
  import opened CrashConvergence
  import opened Indexer

  /** The latest of the ledgers a page gives to choose from. */
  predicate IsLatest(ledger: uint32, start: uint32, resp: Response) {
    && ledger >= start && (forall e <- resp.events :: e.ledger <= ledger)
    && (resp.cursor.Some? && LedgerFromCursor(resp.cursor.value.text).Some? ==>
          ledger >= LedgerFromCursor(resp.cursor.value.text).value)
    && (|| ledger == start
        || (exists e <- resp.events :: e.ledger == ledger)
        || (resp.cursor.Some? && LedgerFromCursor(resp.cursor.value.text) == Some(ledger)))
  }

  lemma {:induction false} EventsAreCovered(ledger: uint32, events: seq<Event>)
    ensures forall e <- events :: e.ledger <= AfterEvents(ledger, events)
    decreases |events|
  {
    if events != [] {
      EventsAreCovered(ledger, events[..|events| - 1]);
      assert events == events[..|events| - 1] + [events[|events| - 1]];
    }
  }

  /** After a page the start ledger is the latest one seen, and the page's cursor, if any, replaces the old one. */
  lemma {:induction false} ResumesAtLatest(p: Process, resp: Response)
    ensures IsLatest(AfterPage(p, resp).startLedger, p.startLedger, resp)
    ensures AfterPage(p, resp).cursor == if resp.cursor.Some? then resp.cursor else p.cursor
  {
    EventsAreCovered(p.startLedger, resp.events);
    LedgerWasSeen(p.startLedger, resp.events);
  }

  /** With a cursor, the next fetch begins exactly where the page ended. */
  lemma {:induction false} CursorAdvances(log: seq<Event>, p: Process, resp: Response)
    requires Answers(log, p, resp) && resp.cursor.Some?
    ensures FetchFrom(log, AfterPage(p, resp)) == FetchFrom(log, p) + |resp.events|
  {
  }

  /** In ledger order the last event of a page is its latest. */
  lemma {:induction false} LastIsLatest(ledger: uint32, events: seq<Event>)
    requires SortedByLedger(events) && events != [] && events[0].ledger >= ledger
    ensures AfterEvents(ledger, events) == events[|events| - 1].ledger
  {
    EventsAreCovered(ledger, events);
    LedgerWasSeen(ledger, events);
    assert events[|events| - 1] in events;
  }

  lemma {:induction false} PageIsSorted(log: seq<Event>, from: nat, count: nat)
    requires SortedByLedger(log) && from + count <= |log|
    ensures SortedByLedger(log[from..from + count])
  {
  }

  lemma {:induction false} FirstAtIs(log: seq<Event>, at: nat, ledger: uint32, later: uint32)
    requires SortedByLedger(log) && at < |log| && at == FirstAt(log, ledger) && later >= ledger
    ensures FirstAt(log, later) == at <==> log[at].ledger >= later
  {
    FirstAtIsMonotone(log, ledger, later);
  }

  /** Without one, a process that has none either fetches the same page again if and only if the page stays within one ledger. */
  lemma {:induction false} StallsIff(log: seq<Event>, p: Process, resp: Response)
    requires SortedByLedger(log) && Answers(log, p, resp) && p.cursor.None? && resp.cursor.None?
    ensures FetchFrom(log, AfterPage(p, resp)) == FetchFrom(log, p)
       <==> resp.events == [] || resp.events[0].ledger == resp.events[|resp.events| - 1].ledger
  {
    var from, n := FetchFrom(log, p), |resp.events|;
    if n > 0 {
      PageIsSorted(log, from, n);
      assert resp.events[0] == log[from];
      LastIsLatest(p.startLedger, resp.events);
      FirstAtIs(log, from, p.startLedger, resp.events[n - 1].ledger);
    }
  }

  // ----- Runs without kills -----

  /** Polls alone, each answered with a cursor. */
  predicate Undisturbed(actions: seq<Action>) {
    forall a <- actions :: a.Poll? && a.resp.cursor.Some?
  }

  function Fetched(actions: seq<Action>): nat {
    if actions == [] then 0 else |actions[0].resp.events| + Fetched(actions[1..])
  }

  /** Both streams and the process stand at the same place, with all before it delivered once. */
  predicate InStep(log: seq<Event>, w: World, at: nat) {
    && at <= |log| && FetchFrom(log, w.process) == at
    && w.applied == Progress(log[..at], at, at) && w.published == Progress(log[..at], at, at)
  }

  lemma {:induction false} PollKeepsStep(log: seq<Event>, configured: uint32, w: World, a: Action, at: nat)
    requires InStep(log, w, at) && Possible(log, w, a) && a.Poll? && a.resp.cursor.Some?
    ensures InStep(log, Act(log, configured, w, a), at + |a.resp.events|)
  {
    CursorAdvances(log, w.process, a.resp);
    assert log[..at] + log[at..at + |a.resp.events|] == log[..at + |a.resp.events|];
  }

  lemma {:induction false} RunKeepsStep(log: seq<Event>, configured: uint32, w: World, actions: seq<Action>, at: nat)
    requires InStep(log, w, at) && IsRun(log, configured, w, actions) && Undisturbed(actions)
    ensures InStep(log, After(log, configured, w, actions), at + Fetched(actions))
    decreases |actions|
  {
    if actions != [] {
      PollKeepsStep(log, configured, w, actions[0], at);
      RunKeepsStep(log, configured, Act(log, configured, w, actions[0]), actions[1..], at + |actions[0].resp.events|);
    }
  }

  /**
   Polling alone delivers the log event by event, to the database and the subscribers alike: after
   pages of so many events in all, every table is that of a single pass over as many events.
   */
  lemma {:induction false} UndisturbedRun(log: seq<Event>, configured: uint32, latest: uint32, actions: seq<Action>)
    requires BeginsAtStart(log, configured, latest)
    requires IsRun(log, configured, Start(configured, latest), actions) && Undisturbed(actions)
    ensures Fetched(actions) <= |log|
    ensures var w := After(log, configured, Start(configured, latest), actions);
            && w.Database() == Once(log, Fetched(actions)) && w.published.stream == log[..Fetched(actions)]
            && FetchFrom(log, w.process) == Fetched(actions)
  {
    assert log[..0] == [];
    RunKeepsStep(log, configured, Start(configured, latest), actions, 0);
  }

  /** Restarted after such a run whose last cursor was saved, the indexer goes on where it stopped, whatever is configured. */
  lemma {:induction false} RestartGoesOn(log: seq<Event>, configured: uint32, w: World, actions: seq<Action>, at: nat, later: uint32)
    requires InStep(log, w, at) && IsRun(log, configured, w, actions) && Undisturbed(actions)
    requires actions != [] && actions[|actions| - 1].persisted
    ensures FetchFrom(log, Boot(After(log, configured, w, actions).saved, configured, later)) == at + Fetched(actions)
    decreases |actions|
  {
    var w' := Act(log, configured, w, actions[0]);
    PollKeepsStep(log, configured, w, actions[0], at);
    if |actions| > 1 {
      RestartGoesOn(log, configured, w', actions[1..], at + |actions[0].resp.events|, later);
    } else {
      assert After(log, configured, w, actions) == w';
    }
  }
}
