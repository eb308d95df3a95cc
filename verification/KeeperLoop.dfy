/**
 The keeper as concurrent steps. The scanner turns a price tick into a batch of actions and
 enqueues it; the worker attempts a snapshot of the queue, releasing the queue's lock while it
 talks to the RPC; the event feed changes the keeper's trades and orders. Steps interleave freely.
 */
module KeeperLoop {
  import opened Wrappers
  import opened Events
  import opened KeeperState
  import opened Detector
  import opened PendingKeys
  import opened Attempts

  /** Where the worker stands in its tick; items are named by the identity of their objects. */
  datatype Worker =
    | Idle
    | Busy(rest: seq<nat>)
    | Dropping(id: nat, outcome: Outcome, rest: seq<nat>)
    | Forgetting(subject: Subject, rest: seq<nat>)

  /** A scan reads the trades first, then the limit orders, then enqueues what it found. */
  datatype Scanner = Waiting | Halfway(batch: seq<PendingAction>) | Ready(batch: seq<PendingAction>)

  datatype Loop = Loop(
    items: map<nat, Item>,
    attempts: map<nat, nat>,
    pending: map<WaitKey, nat>,
    next: nat,
    worker: Worker,
    sentThisTick: nat,
    scanner: Scanner,
    live: set<Subject>
  )

  datatype Step =
    | ScanTrades(batch: seq<PendingAction>)
    | ScanLimits(batch: seq<PendingAction>)
    | EnqueueBatch
    | StartTick(order: seq<nat>)
    | Try(reply: Reply)
    | Drop
    | Forget
    | EndTick
    | Cancel
    | Appear(subject: Subject)
    | Disappear(subject: Subject)

  const START := Loop(map[], map[], map[], 0, Idle, 0, Waiting, {})

  function BatchOf(s: Scanner): seq<PendingAction> {
    if s.Waiting? then [] else s.batch
  }

  function Remaining(w: Worker): seq<nat> {
    match w
    case Idle => []
    case Busy(rest) => rest
    case Dropping(id, _, rest) => [id] + rest
    case Forgetting(_, rest) => rest
  }

  predicate Distinct(ids: seq<nat>) {
    forall i, j | 0 <= i < j < |ids| :: ids[i] != ids[j]
  }

  ghost predicate Enabled(s: Loop, step: Step) {
    match step
    case ScanTrades(batch) => s.scanner.Waiting? && forall a <- batch :: !a.kind.Limit? && SubjectOf(a) in s.live
    case ScanLimits(batch) => s.scanner.Halfway? && forall a <- batch :: a.kind.Limit? && SubjectOf(a) in s.live
    case EnqueueBatch => s.scanner.Ready?
    case StartTick(order) => s.worker.Idle? && Distinct(order) && forall id :: id in order <==> id in s.pending.Values
    case Try(_) => s.worker.Busy? && s.worker.rest != [] && s.worker.rest[0] in s.items
    case Drop => s.worker.Dropping? && s.worker.id in s.items
    case Forget => s.worker.Forgetting?
    case EndTick => s.worker == Busy([])
    case Cancel => s.worker.Busy?
    case Appear(_) => true
    case Disappear(_) => true
  }

  /** Enqueue, under the lock: an action whose key is taken is dropped, any other gets a new object. */
  function EnqueueNew(s: Loop, a: PendingAction): Loop {
    if KeyFor(a) in s.pending then s
    else s.(items := s.items[s.next := Item(a, 0)], attempts := s.attempts[s.next := 0],
            pending := s.pending[KeyFor(a) := s.next], next := s.next + 1)
  }

  function EnqueueEach(s: Loop, actions: seq<PendingAction>): Loop
    decreases |actions|
  {
    if actions == [] then s else EnqueueNew(EnqueueEach(s, actions[..|actions| - 1]), actions[|actions| - 1])
  }

  function TryItem(maxRetries: int, s: Loop, id: nat, rest: seq<nat>, reply: Reply): Loop
    requires id in s.items
  {
    var o := Decide(maxRetries, s.items[id].retries, reply);
    s.(items := s.items[id := Item(s.items[id].action, o.retries)],
       attempts := s.attempts[id := (if id in s.attempts then s.attempts[id] else 0) + 1],
       sentThisTick := s.sentThisTick + if o.sent then 1 else 0,
       worker := if o.drop then Dropping(id, o, rest) else Busy(rest))
  }

  function DropItem(s: Loop, id: nat, o: Outcome, rest: seq<nat>): Loop
    requires id in s.items
  {
    s.(pending := s.pending - {KeyFor(s.items[id].action)},
       worker := if o.forget then Forgetting(SubjectOf(s.items[id].action), rest) else if o.sent then Idle else Busy(rest))
  }

  function Next(maxRetries: int, s: Loop, step: Step): Loop
    requires Enabled(s, step)
  {
    match step
    case ScanTrades(batch) => s.(scanner := Halfway(batch))
    case ScanLimits(batch) => s.(scanner := Ready(s.scanner.batch + batch))
    case EnqueueBatch => EnqueueEach(s, s.scanner.batch).(scanner := Waiting)
    case StartTick(order) => s.(worker := Busy(order), sentThisTick := 0)
    case Try(reply) => TryItem(maxRetries, s, s.worker.rest[0], s.worker.rest[1..], reply)
    case Drop => DropItem(s, s.worker.id, s.worker.outcome, s.worker.rest)
    case Forget => s.(live := s.live - {s.worker.subject}, worker := Busy(s.worker.rest))
    case EndTick => s.(worker := Idle)
    case Cancel => s.(worker := Idle)
    case Appear(subject) => s.(live := s.live + {subject})
    case Disappear(subject) => s.(live := s.live - {subject})
  }

  ghost predicate IsRun(maxRetries: int, s: Loop, steps: seq<Step>)
    decreases |steps|
  {
    steps == [] || (Enabled(s, steps[0]) && IsRun(maxRetries, Next(maxRetries, s, steps[0]), steps[1..]))
  }

  function After(maxRetries: int, s: Loop, steps: seq<Step>): Loop
    requires IsRun(maxRetries, s, steps)
    decreases |steps|
  {
    if steps == [] then s else After(maxRetries, Next(maxRetries, s, steps[0]), steps[1..])
  }

  // ----- The snapshot stays current -----

  /** Keys lead to objects that carry them. */
  ghost predicate Filed(s: Loop) {
    && (forall id <- s.items :: id < s.next)
    && s.attempts.Keys == s.items.Keys
    && forall k <- s.pending :: s.pending[k] in s.items && KeyFor(s.items[s.pending[k]].action) == k
  }

  predicate StoredUnderItsKey(s: Loop, id: nat) {
    && id in s.items && KeyFor(s.items[id].action) in s.pending
    && s.pending[KeyFor(s.items[id].action)] == id
  }

  /** Every item the worker has yet to deal with is the very object stored under its key. */
  ghost predicate SnapshotIsCurrent(s: Loop) {
    Distinct(Remaining(s.worker)) && forall id <- Remaining(s.worker) :: StoredUnderItsKey(s, id)
  }

  /** At most one attempt per tick returned sent, and then the tick is over or about to be. */
  ghost predicate SentAtMostOnce(s: Loop) {
    && s.sentThisTick <= 1
    && (s.sentThisTick == 1 ==> s.worker.Idle? || (s.worker.Dropping? && s.worker.outcome.sent && !s.worker.outcome.forget))
    && (s.worker.Dropping? && s.worker.outcome.sent ==> s.sentThisTick == 1)
  }

  ghost predicate Sound(s: Loop) {
    Filed(s) && SnapshotIsCurrent(s) && SentAtMostOnce(s)
  }

  lemma {:induction false} EnqueueKeepsOthers(s: Loop, actions: seq<PendingAction>)
    requires Filed(s)
    ensures var s' := EnqueueEach(s, actions);
            && Filed(s')
            && (forall id <- s.items :: id in s'.items && s'.items[id] == s.items[id] && s'.attempts[id] == s.attempts[id])
            && (forall k <- s.pending :: k in s'.pending && s'.pending[k] == s.pending[k])
            && (forall k <- s'.pending | k !in s.pending :: s'.pending[k] >= s.next)
            && s'.worker == s.worker && s'.sentThisTick == s.sentThisTick && s'.live == s.live && s'.next >= s.next
    decreases |actions|
  {
    if actions != [] {
      EnqueueKeepsOthers(s, actions[..|actions| - 1]);
    }
  }

  lemma TryKeepsSound(maxRetries: int, s: Loop, step: Step)
    requires Sound(s) && step.Try? && Enabled(s, step)
    ensures Sound(Next(maxRetries, s, step))
  {
    var s' := Next(maxRetries, s, step);
    var id := s.worker.rest[0];
    assert s.worker.rest == [id] + s.worker.rest[1..];
    assert forall i <- s.items :: s'.items[i].action == s.items[i].action;
    assert forall i <- Remaining(s'.worker) :: i in Remaining(s.worker);
  }

  lemma TailOfDistinct(id: nat, rest: seq<nat>)
    requires Distinct([id] + rest)
    ensures Distinct(rest) && id !in rest
    ensures forall i <- rest :: i in [id] + rest
  {
    var all := [id] + rest;
    assert forall n | 0 <= n < |rest| :: all[n + 1] == rest[n];
    assert all[0] == id;
  }

  /** Dropping removes the attempted object's own entry, never a newer one, and leaves the rest of the snapshot current. */
  lemma DropRemovesItsOwnItem(maxRetries: int, s: Loop, step: Step)
    requires Sound(s) && step.Drop? && Enabled(s, step)
    ensures StoredUnderItsKey(s, s.worker.id)
    ensures Next(maxRetries, s, step).pending == s.pending - {KeyFor(s.items[s.worker.id].action)}
    ensures Sound(Next(maxRetries, s, step))
  {
    var id, rest := s.worker.id, s.worker.rest;
    TailOfDistinct(id, rest);
    assert id in Remaining(s.worker);
    forall i | i in rest
      ensures StoredUnderItsKey(Next(maxRetries, s, step), i)
    {
      assert StoredUnderItsKey(s, i) && StoredUnderItsKey(s, id);
    }
  }

  lemma EnqueueKeepsSound(maxRetries: int, s: Loop, step: Step)
    requires Sound(s) && step.EnqueueBatch? && Enabled(s, step)
    ensures Sound(Next(maxRetries, s, step))
  {
    EnqueueKeepsOthers(s, s.scanner.batch);
  }

  lemma StepKeepsSound(maxRetries: int, s: Loop, step: Step)
    requires Sound(s) && Enabled(s, step)
    ensures Sound(Next(maxRetries, s, step))
  {
    match step
    case Try(_) => TryKeepsSound(maxRetries, s, step);
    case Drop => DropRemovesItsOwnItem(maxRetries, s, step);
    case EnqueueBatch => EnqueueKeepsSound(maxRetries, s, step);
    case StartTick(order) =>
      forall id | id in order
        ensures StoredUnderItsKey(s, id)
      {
        assert id in s.pending.Values;
      }
    case _ =>
  }

  /** In every interleaving, at every moment: snapshots stay current and each tick has at most one attempt that returns sent. */
  lemma {:induction false} RunsAreSound(maxRetries: int, s: Loop, steps: seq<Step>)
    requires Sound(s) && IsRun(maxRetries, s, steps)
    ensures Sound(After(maxRetries, s, steps))
    decreases |steps|
  {
    if steps != [] {
      StepKeepsSound(maxRetries, s, steps[0]);
      RunsAreSound(maxRetries, Next(maxRetries, s, steps[0]), steps[1..]);
    }
  }

  // ----- An accepted transaction is the end of it -----

  /** The worker is about to drop the object as sent, or nothing leads to the object any more. */
  ghost predicate Finished(s: Loop, id: nat) {
    && id in s.items && id in s.attempts
    && if s.worker.Dropping? && s.worker.id == id then s.worker.outcome.sent && !s.worker.outcome.forget
       else id !in s.pending.Values && id !in Remaining(s.worker)
  }

  lemma FinishedStep(maxRetries: int, s: Loop, step: Step, id: nat)
    requires Sound(s) && Finished(s, id) && Enabled(s, step)
    ensures Finished(Next(maxRetries, s, step), id)
    ensures Next(maxRetries, s, step).attempts[id] == s.attempts[id]
  {
    match step
    case Drop => FinishedDrop(maxRetries, s, step, id);
    case EnqueueBatch => FinishedEnqueue(maxRetries, s, step, id);
    case Try(_) => FinishedTry(maxRetries, s, step, id);
    case _ =>
  }

  lemma FinishedDrop(maxRetries: int, s: Loop, step: Step, id: nat)
    requires Sound(s) && Finished(s, id) && Enabled(s, step) && step.Drop?
    ensures Finished(Next(maxRetries, s, step), id)
  {
    var s' := Next(maxRetries, s, step);
    DropRemovesItsOwnItem(maxRetries, s, step);
    forall k | k in s'.pending
      ensures s'.pending[k] != id
    {
      if s.worker.id != id {
        assert s.pending[k] in s.pending.Values;
      }
    }
    if s.worker.id != id {
      assert Remaining(s.worker) == [s.worker.id] + s.worker.rest;
    }
  }

  lemma FinishedEnqueue(maxRetries: int, s: Loop, step: Step, id: nat)
    requires Sound(s) && Finished(s, id) && Enabled(s, step) && step.EnqueueBatch?
    ensures Finished(Next(maxRetries, s, step), id)
    ensures Next(maxRetries, s, step).attempts[id] == s.attempts[id]
  {
    EnqueueKeepsOthers(s, s.scanner.batch);
    var s' := Next(maxRetries, s, step);
    if id !in s.pending.Values {
      forall k | k in s'.pending
        ensures s'.pending[k] != id
      {
        if k in s.pending {
          assert s.pending[k] in s.pending.Values;
        }
      }
    }
  }

  lemma FinishedTry(maxRetries: int, s: Loop, step: Step, id: nat)
    requires Sound(s) && Finished(s, id) && Enabled(s, step) && step.Try?
    ensures Finished(Next(maxRetries, s, step), id)
    ensures Next(maxRetries, s, step).attempts[id] == s.attempts[id]
  {
    var rest := s.worker.rest;
    assert rest == [rest[0]] + rest[1..];
  }

  lemma {:induction false} FinishedForGood(maxRetries: int, s: Loop, steps: seq<Step>, id: nat)
    requires Sound(s) && Finished(s, id) && IsRun(maxRetries, s, steps)
    ensures id in After(maxRetries, s, steps).attempts
    ensures After(maxRetries, s, steps).attempts[id] == s.attempts[id]
    decreases |steps|
  {
    if steps != [] {
      FinishedStep(maxRetries, s, steps[0], id);
      StepKeepsSound(maxRetries, s, steps[0]);
      FinishedForGood(maxRetries, Next(maxRetries, s, steps[0]), steps[1..], id);
    }
  }

  /** Once the network has accepted a transaction, no continuation ever attempts that object again. */
  lemma AcceptedIsFinal(maxRetries: int, s: Loop, reply: Reply, later: seq<Step>)
    requires Sound(s) && Enabled(s, Try(reply)) && Accepted(reply)
    requires IsRun(maxRetries, Next(maxRetries, s, Try(reply)), later)
    ensures var id, end := s.worker.rest[0], After(maxRetries, Next(maxRetries, s, Try(reply)), later);
            && id in s.attempts && id in end.attempts
            && end.attempts[id] == s.attempts[id] + 1
  {
    var id := s.worker.rest[0];
    RepliesDecide(maxRetries, s.items[id].retries, reply);
    StepKeepsSound(maxRetries, s, Try(reply));
    assert Finished(Next(maxRetries, s, Try(reply)), id);
    FinishedForGood(maxRetries, Next(maxRetries, s, Try(reply)), later, id);
  }

  /** The tick is over, or about to be. */
  ghost predicate TickIsOver(s: Loop) {
    s.worker.Idle? || (s.worker.Dropping? && s.worker.outcome.sent && !s.worker.outcome.forget)
  }

  lemma {:induction false} NothingMoreThisTick(maxRetries: int, s: Loop, steps: seq<Step>)
    requires TickIsOver(s) && IsRun(maxRetries, s, steps) && forall step <- steps :: !step.StartTick?
    ensures Tries(steps) == 0
    decreases |steps|
  {
    if steps != [] {
      var step := steps[0];
      assert step in steps && forall later <- steps[1..] :: later in steps;
      if step.EnqueueBatch? {
        EnqueueKeepsWorker(s, s.scanner.batch);
      }
      NothingMoreThisTick(maxRetries, Next(maxRetries, s, step), steps[1..]);
    }
  }

  lemma {:induction false} EnqueueKeepsWorker(s: Loop, actions: seq<PendingAction>)
    ensures EnqueueEach(s, actions).worker == s.worker
    decreases |actions|
  {
    if actions != [] {
      EnqueueKeepsWorker(s, actions[..|actions| - 1]);
    }
  }

  /** Nor is any other item attempted before the next tick begins. */
  lemma AcceptedEndsTheTick(maxRetries: int, s: Loop, reply: Reply, later: seq<Step>)
    requires Enabled(s, Try(reply)) && Accepted(reply)
    requires IsRun(maxRetries, Next(maxRetries, s, Try(reply)), later) && forall step <- later :: !step.StartTick?
    ensures Tries(later) == 0
  {
    RepliesDecide(maxRetries, s.items[s.worker.rest[0]].retries, reply);
    NothingMoreThisTick(maxRetries, Next(maxRetries, s, Try(reply)), later);
  }

  // ----- No item is attempted too often -----

  predicate HandledStep(step: Step) {
    step.Try? ==> Handled(step.reply)
  }

  /** Attempts never exceed the limit; while an item waits, they equal the retries it has used up. */
  ghost predicate AttemptsBounded(maxRetries: int, s: Loop) {
    && (forall id <- s.items :: id in s.attempts && s.attempts[id] <= Weight(maxRetries, 0))
    && forall k <- s.pending :: s.pending[k] in s.items && (
         var id := s.pending[k];
         (s.worker.Dropping? && s.worker.id == id) ||
         (s.attempts[id] == s.items[id].retries && s.attempts[id] < Weight(maxRetries, 0)))
  }

  lemma {:induction false} EnqueueKeepsBounds(maxRetries: int, s: Loop, actions: seq<PendingAction>)
    requires Filed(s) && AttemptsBounded(maxRetries, s)
    ensures AttemptsBounded(maxRetries, EnqueueEach(s, actions))
    decreases |actions|
  {
    if actions != [] {
      EnqueueKeepsBounds(maxRetries, s, actions[..|actions| - 1]);
      EnqueueKeepsOthers(s, actions[..|actions| - 1]);
    }
  }

  lemma TryKeepsBounds(maxRetries: int, s: Loop, step: Step)
    requires Sound(s) && AttemptsBounded(maxRetries, s) && Enabled(s, step) && step.Try? && Handled(step.reply)
    ensures AttemptsBounded(maxRetries, Next(maxRetries, s, step))
  {
    var s' := Next(maxRetries, s, step);
    var id := s.worker.rest[0];
    assert id in Remaining(s.worker);
    assert s.pending[KeyFor(s.items[id].action)] == id;
  }

  lemma StepKeepsBounds(maxRetries: int, s: Loop, step: Step)
    requires Sound(s) && AttemptsBounded(maxRetries, s) && Enabled(s, step) && HandledStep(step)
    ensures AttemptsBounded(maxRetries, Next(maxRetries, s, step))
  {
    match step
    case Try(_) => TryKeepsBounds(maxRetries, s, step);
    case Drop => DropRemovesItsOwnItem(maxRetries, s, step);
    case EnqueueBatch => EnqueueKeepsBounds(maxRetries, s, s.scanner.batch);
    case _ =>
  }

  /** With handled replies, no item is ever attempted more than max(1, maxRetries) times, whatever is enqueued meanwhile. */
  lemma {:induction false} NoItemIsAttemptedTooOften(maxRetries: int, s: Loop, steps: seq<Step>, id: nat)
    requires Sound(s) && AttemptsBounded(maxRetries, s)
    requires IsRun(maxRetries, s, steps) && forall step <- steps :: HandledStep(step)
    requires id in After(maxRetries, s, steps).attempts
    ensures After(maxRetries, s, steps).attempts[id] <= if maxRetries > 1 then maxRetries else 1
    decreases |steps|
  {
    if steps == [] {
      assert id in s.items;
    } else {
      StepKeepsSound(maxRetries, s, steps[0]);
      StepKeepsBounds(maxRetries, s, steps[0]);
      assert forall step <- steps[1..] :: step in steps;
      NoItemIsAttemptedTooOften(maxRetries, Next(maxRetries, s, steps[0]), steps[1..], id);
    }
  }

  /** From the start, whatever happens: sound at every moment, and with handled replies no item is attempted too often. */
  lemma FromTheStart(maxRetries: int, steps: seq<Step>)
    requires IsRun(maxRetries, START, steps)
    ensures Sound(After(maxRetries, START, steps))
    ensures (forall step <- steps :: HandledStep(step)) ==>
              forall id <- After(maxRetries, START, steps).attempts ::
                After(maxRetries, START, steps).attempts[id] <= if maxRetries > 1 then maxRetries else 1
  {
    RunsAreSound(maxRetries, START, steps);
    if forall step <- steps :: HandledStep(step) {
      forall id | id in After(maxRetries, START, steps).attempts
        ensures After(maxRetries, START, steps).attempts[id] <= if maxRetries > 1 then maxRetries else 1
      {
        NoItemIsAttemptedTooOften(maxRetries, START, steps, id);
      }
    }
  }

  // ----- An item that is never handled -----

  /** The object waits under its key and is not being dropped. */
  ghost predicate Stays(s: Loop, id: nat, item: Item) {
    && id in s.items && s.items[id] == item
    && KeyFor(item.action) in s.pending && s.pending[KeyFor(item.action)] == id
    && !(s.worker.Dropping? && s.worker.id == id)
  }

  /** Every attempt at the item ends in an unhandled status. */
  ghost predicate NeverHandled(maxRetries: int, s: Loop, steps: seq<Step>, id: nat)
    requires IsRun(maxRetries, s, steps)
    decreases |steps|
  {
    steps != [] ==>
      && (steps[0].Try? && s.worker.rest[0] == id ==> !Handled(steps[0].reply))
      && NeverHandled(maxRetries, Next(maxRetries, s, steps[0]), steps[1..], id)
  }

  lemma UnhandledStep(maxRetries: int, s: Loop, step: Step, id: nat, item: Item)
    requires Sound(s) && Stays(s, id, item) && Enabled(s, step)
    requires step.Try? && s.worker.rest[0] == id ==> !Handled(step.reply)
    ensures Stays(Next(maxRetries, s, step), id, item)
  {
    match step
    case EnqueueBatch => EnqueueKeepsOthers(s, s.scanner.batch);
    case Drop => DropRemovesItsOwnItem(maxRetries, s, step);
    case Try(reply) =>
      if s.worker.rest[0] == id {
        NoProgressIffUnhandled(maxRetries, item.retries, reply);
      }
    case _ =>
  }

  /** In every continuation in which it is never handled, the item stays in the queue with its retries untouched. */
  lemma {:induction false} UnhandledItemStays(maxRetries: int, s: Loop, steps: seq<Step>, id: nat, item: Item)
    requires Sound(s) && Stays(s, id, item)
    requires IsRun(maxRetries, s, steps) && NeverHandled(maxRetries, s, steps, id)
    ensures Stays(After(maxRetries, s, steps), id, item) && After(maxRetries, s, steps).pending != map[]
    decreases |steps|
  {
    if steps != [] {
      UnhandledStep(maxRetries, s, steps[0], id, item);
      StepKeepsSound(maxRetries, s, steps[0]);
      UnhandledItemStays(maxRetries, Next(maxRetries, s, steps[0]), steps[1..], id, item);
    }
  }

  // ----- The queue drains -----

  /** The waiting items that are not just being dropped. */
  ghost function Active(s: Loop): Queue
    requires Filed(s)
  {
    map k | k in s.pending && !(s.worker.Dropping? && s.worker.id == s.pending[k]) :: s.items[s.pending[k]]
  }

  /** Neither new work nor a shutdown interferes. */
  predicate Draining(step: Step) {
    HandledStep(step) && !step.EnqueueBatch? && !step.Cancel?
  }

  function Tries(steps: seq<Step>): nat
    decreases |steps|
  {
    if steps == [] then 0 else (if steps[0].Try? then 1 else 0) + Tries(steps[1..])
  }

  function Ticks(steps: seq<Step>): nat
    decreases |steps|
  {
    if steps == [] then 0 else (if steps[0].StartTick? then 1 else 0) + Ticks(steps[1..])
  }

  lemma TryIsAnAttempt(maxRetries: int, s: Loop, step: Step)
    requires Sound(s) && Enabled(s, step) && step.Try? && Filed(Next(maxRetries, s, step))
    ensures var key := KeyFor(s.items[s.worker.rest[0]].action);
            && key in Active(s)
            && Active(Next(maxRetries, s, step)) == AttemptOn(maxRetries, Active(s), Attempt(key, step.reply))
  {
    var id := s.worker.rest[0];
    assert id in Remaining(s.worker);
    assert StoredUnderItsKey(s, id);
    var s' := Next(maxRetries, s, step);
    assert forall k <- s.pending | k != KeyFor(s.items[id].action) :: s.pending[k] != id;
  }

  lemma OtherStepsKeepActive(maxRetries: int, s: Loop, step: Step)
    requires Sound(s) && Enabled(s, step) && Draining(step) && !step.Try? && Filed(Next(maxRetries, s, step))
    ensures Active(Next(maxRetries, s, step)) == Active(s)
  {
    if step.Drop? {
      DropRemovesItsOwnItem(maxRetries, s, step);
      var id := s.worker.id;
      assert forall k <- s.pending | k != KeyFor(s.items[id].action) :: s.pending[k] != id;
    }
  }

  /** Every attempt is paid for out of the potential. */
  lemma {:induction false} AttemptsArePaidFor(maxRetries: int, s: Loop, steps: seq<Step>)
    requires Sound(s) && IsRun(maxRetries, s, steps) && forall step <- steps :: Draining(step)
    ensures Sound(After(maxRetries, s, steps))
    ensures Potential(maxRetries, Active(After(maxRetries, s, steps))) + Tries(steps) <= Potential(maxRetries, Active(s))
    decreases |steps|
  {
    if steps != [] {
      var step, s' := steps[0], Next(maxRetries, s, steps[0]);
      assert step in steps;
      StepKeepsSound(maxRetries, s, step);
      assert forall later <- steps[1..] :: later in steps;
      AttemptsArePaidFor(maxRetries, s', steps[1..]);
      if step.Try? {
        TryIsAnAttempt(maxRetries, s, step);
        AttemptLowersPotential(maxRetries, Active(s), Attempt(KeyFor(s.items[s.worker.rest[0]].action), step.reply));
      } else {
        OtherStepsKeepActive(maxRetries, s, step);
      }
    }
  }

  /** A tick that has begun on a non-empty queue and not attempted anything yet. */
  function Owed(s: Loop): nat {
    if s.worker.Busy? && s.worker.rest != [] then 1 else 0
  }

  lemma {:induction false} QueueOnlyShrinks(maxRetries: int, s: Loop, steps: seq<Step>)
    requires IsRun(maxRetries, s, steps) && forall step <- steps :: Draining(step)
    ensures After(maxRetries, s, steps).pending.Keys <= s.pending.Keys
    decreases |steps|
  {
    if steps != [] {
      assert forall later <- steps[1..] :: later in steps;
      assert steps[0] in steps;
      QueueOnlyShrinks(maxRetries, Next(maxRetries, s, steps[0]), steps[1..]);
    }
  }

  /** While something is left in the queue, every tick attempts something. */
  lemma {:induction false} TicksAreNotWasted(maxRetries: int, s: Loop, steps: seq<Step>)
    requires IsRun(maxRetries, s, steps) && forall step <- steps :: Draining(step)
    requires After(maxRetries, s, steps).pending != map[]
    ensures Ticks(steps) + Owed(s) <= Tries(steps) + Owed(After(maxRetries, s, steps))
    decreases |steps|
  {
    if steps != [] {
      var step := steps[0];
      assert step in steps && forall later <- steps[1..] :: later in steps;
      QueueOnlyShrinks(maxRetries, s, steps);
      if step.StartTick? {
        var k :| k in s.pending;
        assert s.pending[k] in s.pending.Values && s.pending[k] in step.order;
      }
      TicksAreNotWasted(maxRetries, Next(maxRetries, s, step), steps[1..]);
    }
  }

  /**
   Left to itself the queue drains: after as many ticks as the potential it started with,
   nothing is waiting once the worker rests.
   */
  lemma QueueDrains(maxRetries: int, s: Loop, steps: seq<Step>)
    requires Sound(s) && s.worker.Idle?
    requires IsRun(maxRetries, s, steps) && forall step <- steps :: Draining(step)
    requires After(maxRetries, s, steps).worker.Idle?
    requires Ticks(steps) >= Potential(maxRetries, Active(s))
    ensures After(maxRetries, s, steps).pending == map[]
  {
    var end := After(maxRetries, s, steps);
    AttemptsArePaidFor(maxRetries, s, steps);
    if end.pending != map[] {
      TicksAreNotWasted(maxRetries, s, steps);
      var k :| k in end.pending;
      assert k in Active(end);
      PotentialIsPositive(maxRetries, Active(end));
    }
  }

  // ----- No action for what the chain has forgotten -----

  ghost predicate InFlight(s: Loop, subject: Subject) {
    exists a <- BatchOf(s.scanner) :: SubjectOf(a) == subject
  }

  /** The keeper does not know the subject and is not about to enqueue anything for it. */
  ghost predicate Quiet(s: Loop, subject: Subject) {
    subject !in s.live && !InFlight(s, subject)
  }

  /** The items waiting for a subject. */
  function WaitingFor(s: Loop, subject: Subject): set<nat> {
    set k <- s.pending | s.pending[k] in s.items && SubjectOf(s.items[s.pending[k]].action) == subject :: s.pending[k]
  }

  lemma {:induction false} EnqueueAddsOnlyItsSubjects(s: Loop, actions: seq<PendingAction>, subject: Subject)
    requires Filed(s) && forall a <- actions :: SubjectOf(a) != subject
    ensures WaitingFor(EnqueueEach(s, actions), subject) <= WaitingFor(s, subject)
    decreases |actions|
  {
    if actions != [] {
      var front := actions[..|actions| - 1];
      EnqueueAddsOnlyItsSubjects(s, front, subject);
      EnqueueKeepsOthers(s, front);
      assert actions[|actions| - 1] in actions;
    }
  }

  lemma QuietStep(maxRetries: int, s: Loop, step: Step, subject: Subject)
    requires Sound(s) && Enabled(s, step) && Quiet(s, subject) && step != Appear(subject)
    ensures Quiet(Next(maxRetries, s, step), subject)
    ensures WaitingFor(Next(maxRetries, s, step), subject) <= WaitingFor(s, subject)
  {
    match step
    case EnqueueBatch => EnqueueAddsOnlyItsSubjects(s, s.scanner.batch, subject); EnqueueKeepsOthers(s, s.scanner.batch);
    case _ =>
  }

  /** Once quiet, a subject stays quiet until it appears again: nothing is detected or newly enqueued for it. */
  lemma {:induction false} QuietRun(maxRetries: int, s: Loop, steps: seq<Step>, subject: Subject)
    requires Sound(s) && Quiet(s, subject)
    requires IsRun(maxRetries, s, steps) && Appear(subject) !in steps
    ensures Quiet(After(maxRetries, s, steps), subject)
    ensures WaitingFor(After(maxRetries, s, steps), subject) <= WaitingFor(s, subject)
    decreases |steps|
  {
    if steps != [] {
      assert steps[0] in steps && forall later <- steps[1..] :: later in steps;
      QuietStep(maxRetries, s, steps[0], subject);
      StepKeepsSound(maxRetries, s, steps[0]);
      QuietRun(maxRetries, Next(maxRetries, s, steps[0]), steps[1..], subject);
    }
  }

  lemma {:induction false} StaysUnknown(maxRetries: int, s: Loop, steps: seq<Step>, subject: Subject)
    requires IsRun(maxRetries, s, steps) && Appear(subject) !in steps && subject !in s.live
    requires Filed(s) && Sound(s)
    ensures subject !in After(maxRetries, s, steps).live
    decreases |steps|
  {
    if steps != [] {
      assert steps[0] in steps && forall later <- steps[1..] :: later in steps;
      StepKeepsSound(maxRetries, s, steps[0]);
      if steps[0].EnqueueBatch? {
        EnqueueKeepsOthers(s, s.scanner.batch);
      }
      StaysUnknown(maxRetries, Next(maxRetries, s, steps[0]), steps[1..], subject);
    }
  }

  /**
   No ghost actions. After the keeper has forgotten a subject the chain reported missing, and
   once the batch then in flight has been enqueued, no continuation without a fresh appearance
   detects or newly enqueues anything for it.
   */
  lemma NoGhostActions(maxRetries: int, s: Loop, untilEnqueued: seq<Step>, later: seq<Step>)
    requires Sound(s) && Enabled(s, Forget)
    requires IsRun(maxRetries, Next(maxRetries, s, Forget), untilEnqueued)
    requires var mid := After(maxRetries, Next(maxRetries, s, Forget), untilEnqueued);
             mid.scanner.Waiting? && IsRun(maxRetries, mid, later)
    requires Appear(s.worker.subject) !in untilEnqueued && Appear(s.worker.subject) !in later
    ensures var subject, mid := s.worker.subject, After(maxRetries, Next(maxRetries, s, Forget), untilEnqueued);
            && Quiet(After(maxRetries, mid, later), subject)
            && WaitingFor(After(maxRetries, mid, later), subject) <= WaitingFor(mid, subject)
  {
    var gone := Next(maxRetries, s, Forget);
    StepKeepsSound(maxRetries, s, Forget);
    RunsAreSound(maxRetries, gone, untilEnqueued);
    StaysUnknown(maxRetries, gone, untilEnqueued, s.worker.subject);
    QuietRun(maxRetries, After(maxRetries, gone, untilEnqueued), later, s.worker.subject);
  }

  /** A simulation that reports the subject missing leads, step by step, to its removal. */
  lemma NotFoundLeadsToForget(maxRetries: int, s: Loop)
    requires Sound(s) && s.worker.Busy? && s.worker.rest != []
    ensures var steps := [Try(SimulationFailed(NotFound)), Drop, Forget];
            && s.worker.rest[0] in s.items
            && IsRun(maxRetries, s, steps)
            && After(maxRetries, s, steps).live == s.live - {SubjectOf(s.items[s.worker.rest[0]].action)}
            && After(maxRetries, s, steps).worker == Busy(s.worker.rest[1..])
            && KeyFor(s.items[s.worker.rest[0]].action) !in After(maxRetries, s, steps).pending
  {
    var id := s.worker.rest[0];
    assert id in Remaining(s.worker);
    assert StoredUnderItsKey(s, id);
    var steps := [Try(SimulationFailed(NotFound)), Drop, Forget];
    assert steps[1..] == [Drop, Forget] && [Drop, Forget][1..] == [Forget] && [Forget][1..] == [];
    var s1 := Next(maxRetries, s, steps[0]);
    var s2 := Next(maxRetries, s1, Drop);
    var s3 := Next(maxRetries, s2, Forget);
    assert IsRun(maxRetries, s3, []);
    assert IsRun(maxRetries, s2, [Forget]) && After(maxRetries, s2, [Forget]) == After(maxRetries, s3, []);
    assert IsRun(maxRetries, s1, [Drop, Forget]) && After(maxRetries, s1, [Drop, Forget]) == After(maxRetries, s2, [Forget]);
  }

  /** The scanner's steps are what the detector does: each action it finds concerns an entry the keeper holds. */
  lemma DetectedActionsAreLive(
    trades: map<Slot, TradeView>, limits: map<Slot, LimitView>, fee: Option<PairFees>, pair: int, price: int, a: PendingAction
  )
    requires (forall k <- trades :: trades[k].key == k) && (forall k <- limits :: limits[k].key == k)
    ensures CalledForByTrade(trades, fee, pair, price, a) ==> SubjectOf(a).OfTrade? && SubjectOf(a).slot in trades
    ensures CalledForByLimit(limits, pair, price, a) ==> SubjectOf(a).OfLimit? && SubjectOf(a).slot in limits
  {
  }

  /** Before the removal the scanner may still see the subject: the drop alone does not make it quiet. */
  lemma DropAloneIsNotEnough(s: Loop, a: PendingAction)
    requires s.worker.Forgetting? && s.worker.subject == SubjectOf(a) && SubjectOf(a) in s.live
    requires s.scanner.Waiting? && !a.kind.Limit?
    ensures Enabled(s, ScanTrades([a])) && InFlight(Next(1, s, ScanTrades([a])), SubjectOf(a))
  {
    assert a in BatchOf(Next(1, s, ScanTrades([a])).scanner);
  }

  /** Seen through its keys, the loop's queue is the one the executor keeps. */
  ghost function QueueOf(s: Loop): Queue
    requires Filed(s)
  {
    map k | k in s.pending :: s.items[s.pending[k]]
  }

  lemma OneMoreRefines(s: Loop, a: PendingAction)
    requires Filed(s)
    ensures Filed(EnqueueNew(s, a)) && QueueOf(EnqueueNew(s, a)) == EnqueueOne(QueueOf(s), a)
  {
  }

  lemma {:induction false} EnqueueRefines(s: Loop, actions: seq<PendingAction>)
    requires Filed(s)
    ensures Filed(EnqueueEach(s, actions))
    ensures QueueOf(EnqueueEach(s, actions)) == EnqueueAll(QueueOf(s), actions)
    decreases |actions|
  {
    if actions != [] {
      var front := actions[..|actions| - 1];
      EnqueueRefines(s, front);
      OneMoreRefines(EnqueueEach(s, front), actions[|actions| - 1]);
    }
  }
}
