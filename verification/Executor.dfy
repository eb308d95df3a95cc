/** The executor's queue of actions and its tick, run without interference. */
module Executor {
  import opened Wrappers
  import opened Events
  import opened KeeperState
  import opened Detector
  import opened PendingKeys
  import opened Attempts

  class PendingItem {
    const action: PendingAction
    var retries: nat

    constructor (action: PendingAction)
      ensures this.action == action && retries == 0
    {
      this.action, retries := action, 0;
    }
  }

  function LimitSlotFor(a: PendingAction): Slot {
    Slot(a.key.trader, a.key.pair, a.limitIndex)
  }

  /** The queue, and the part of the keeper's state that attempts may shrink. */
  datatype Snapshot = Snapshot(queue: Queue, trades: map<Slot, TradeEntry>, limits: map<Slot, LimitEntry>)

  function OutcomeOn(maxRetries: int, queue: Queue, a: Attempt): Outcome
    requires a.key in queue
  {
    Decide(maxRetries, queue[a.key].retries, a.reply)
  }

  /** An attempt updates its item, and a subject the chain no longer knows is forgotten. */
  function AfterAttempt(maxRetries: int, s: Snapshot, a: Attempt): Snapshot {
    if a.key !in s.queue then s
    else
      var action, forget := s.queue[a.key].action, OutcomeOn(maxRetries, s.queue, a).forget;
      Snapshot(AttemptOn(maxRetries, s.queue, a),
               if forget && !action.kind.Limit? then s.trades - {action.key} else s.trades,
               if forget && action.kind.Limit? then s.limits - {LimitSlotFor(action)} else s.limits)
  }

  function AfterAttempts(maxRetries: int, s: Snapshot, log: seq<Attempt>): Snapshot
    decreases |log|
  {
    if log == [] then s else AfterAttempt(maxRetries, AfterAttempts(maxRetries, s, log[..|log| - 1]), log[|log| - 1])
  }

  function KeysIn(log: seq<Attempt>): set<WaitKey> {
    set a <- log :: a.key
  }

  predicate SentLast(maxRetries: int, queue: Queue, log: seq<Attempt>) {
    log != [] && log[|log| - 1].key in queue && OutcomeOn(maxRetries, queue, log[|log| - 1]).sent
  }

  /** Every attempted item was waiting, none was attempted twice, and only the last attempt may have been sent. */
  ghost predicate IsTick(maxRetries: int, queue: Queue, log: seq<Attempt>)
    decreases |log|
  {
    log == [] ||
    var earlier, last := log[..|log| - 1], log[|log| - 1];
    && IsTick(maxRetries, queue, earlier) && !SentLast(maxRetries, queue, earlier)
    && last.key in queue && last.key !in KeysIn(earlier)
  }

  /** Midway through a tick: the items still to do are as the tick found them. */
  ghost predicate Ticking(maxRetries: int, before: Snapshot, now: Snapshot, log: seq<Attempt>, todo: set<WaitKey>) {
    && now == AfterAttempts(maxRetries, before, log)
    && IsTick(maxRetries, before.queue, log) && !SentLast(maxRetries, before.queue, log)
    && todo <= before.queue.Keys && KeysIn(log) == before.queue.Keys - todo
    && forall k <- todo :: k in now.queue && now.queue[k] == before.queue[k]
  }

  lemma TickGrows(maxRetries: int, before: Snapshot, now: Snapshot, log: seq<Attempt>, todo: set<WaitKey>, a: Attempt)
    requires Ticking(maxRetries, before, now, log, todo) && a.key in todo
    ensures AfterAttempts(maxRetries, before, log + [a]) == AfterAttempt(maxRetries, now, a)
    ensures IsTick(maxRetries, before.queue, log + [a])
    ensures SentLast(maxRetries, before.queue, log + [a]) <==> OutcomeOn(maxRetries, now.queue, a).sent
    ensures KeysIn(log + [a]) == before.queue.Keys - (todo - {a.key})
  {
    assert (log + [a])[..|log|] == log;
    assert KeysIn(log + [a]) == KeysIn(log) + {a.key};
  }

  lemma OthersStillWait(maxRetries: int, before: Snapshot, now: Snapshot, log: seq<Attempt>, todo: set<WaitKey>, a: Attempt)
    requires Ticking(maxRetries, before, now, log, todo) && a.key in todo
    requires !OutcomeOn(maxRetries, now.queue, a).sent
    ensures Ticking(maxRetries, before, AfterAttempt(maxRetries, now, a), log + [a], todo - {a.key})
  {
    TickGrows(maxRetries, before, now, log, todo, a);
  }

  lemma RemoveUpdated<K, V>(m: map<K, V>, k: K, v: V)
    ensures m[k := v] - {k} == m - {k}
  {
  }

  /** A tick makes no more attempts than items were waiting, so a context that outlives those outlives the tick. */
  lemma {:induction false} TickIsShort(maxRetries: int, queue: Queue, log: seq<Attempt>)
    requires IsTick(maxRetries, queue, log)
    ensures KeysIn(log) <= queue.Keys && |log| == |KeysIn(log)| <= |queue|
    decreases |log|
  {
    if log != [] {
      var earlier, last := log[..|log| - 1], log[|log| - 1];
      TickIsShort(maxRetries, queue, earlier);
      assert log == earlier + [last];
      assert KeysIn(log) == KeysIn(earlier) + {last.key};
    }
    SubsetSize(KeysIn(log), queue.Keys);
  }

  lemma SubsetSize<K>(a: set<K>, b: set<K>)
    requires a <= b
    ensures |a| <= |b|
  {
    assert b == a + (b - a);
  }

  lemma AfterNotFound(maxRetries: int, s: Snapshot, a: PendingAction)
    requires KeyFor(a) in s.queue && s.queue[KeyFor(a)].action == a
    ensures AfterAttempt(maxRetries, s, Attempt(KeyFor(a), SimulationFailed(NotFound)))
         == Snapshot(s.queue - {KeyFor(a)},
                     if a.kind.Limit? then s.trades else s.trades - {a.key},
                     if a.kind.Limit? then s.limits - {LimitSlotFor(a)} else s.limits)
  {
  }

  lemma OnlyTheQueueChanges(maxRetries: int, s: Snapshot, a: PendingAction, reply: Reply)
    requires KeyFor(a) in s.queue && s.queue[KeyFor(a)].action == a && reply != SimulationFailed(NotFound)
    ensures var k, o := KeyFor(a), Decide(maxRetries, s.queue[KeyFor(a)].retries, reply);
            AfterAttempt(maxRetries, s, Attempt(k, reply)) ==
            Snapshot(if o.drop then s.queue - {k} else s.queue[k := Item(a, o.retries)], s.trades, s.limits)
  {
  }

  class Executor {
    const maxRetries: int
    const state: TradeState
    var pending: map<WaitKey, PendingItem>

    constructor (maxRetries: int, state: TradeState)
      requires state.Valid()
      ensures Valid() && this.maxRetries == maxRetries && this.state == state && pending == map[]
    {
      this.maxRetries, this.state, pending := maxRetries, state, map[];
    }

    /** Items wait under the keys of their actions, so no item waits twice. */
    ghost predicate Valid()
      reads this`pending, state`trades, state`limits
    {
      state.Valid() && forall k <- pending :: KeyFor(pending[k].action) == k
    }

    ghost function Contents(): Queue
      reads this`pending, pending.Values
    {
      map k | k in pending :: Item(pending[k].action, pending[k].retries)
    }

    method Enqueue(actions: seq<PendingAction>)
      requires Valid()
      modifies this`pending
      ensures Valid()
      ensures Contents() == EnqueueAll(old(Contents()), actions)
      ensures forall k <- old(pending) :: k in pending && pending[k] == old(pending[k])
    {
      assert actions[..0] == [];
      for i := 0 to |actions|
        invariant Valid()
        invariant Contents() == EnqueueAll(old(Contents()), actions[..i])
        invariant forall k <- old(pending) :: k in pending && pending[k] == old(pending[k])
      {
        assert actions[..i + 1][..i] == actions[..i];
        EnqueueAction(actions[i]);
      }
      assert actions[..|actions|] == actions;
    }

    /** An action already waiting is left as it is, with the retries it has used up. */
    method EnqueueAction(a: PendingAction)
      requires Valid()
      modifies this`pending
      ensures Valid()
      ensures Contents() == EnqueueOne(old(Contents()), a)
      ensures forall k <- old(pending) :: k in pending && pending[k] == old(pending[k])
    {
      var k := KeyFor(a);
      if k !in pending {
        var item := new PendingItem(a);
        pending := pending[k := item];
      }
    }

    ghost predicate Waiting(item: PendingItem)
      reads this`pending
    {
      KeyFor(item.action) in pending && pending[KeyFor(item.action)] == item
    }

    method DropItem(item: PendingItem)
      requires Valid()
      modifies this`pending
      ensures Valid() && pending == old(pending) - {KeyFor(item.action)}
      ensures Contents() == old(Contents()) - {KeyFor(item.action)}
    {
      pending := pending - {KeyFor(item.action)};
    }

    method CountRetry(item: PendingItem)
      requires Valid() && Waiting(item)
      modifies item`retries
      ensures Valid() && item.retries == old(item.retries) + 1
      ensures Contents() == old(Contents())[KeyFor(item.action) := Item(item.action, item.retries)]
    {
      assert forall k <- pending | pending[k] == item :: k == KeyFor(item.action);
      item.retries := item.retries + 1;
    }

    method RetryLater(item: PendingItem)
      requires Valid() && Waiting(item)
      modifies this`pending, item`retries
      ensures Valid() && item.retries == old(item.retries) + 1 && pending.Values <= old(pending.Values)
      ensures var k := KeyFor(item.action);
              Contents() == if item.retries >= maxRetries then old(Contents()) - {k}
                            else old(Contents())[k := Item(item.action, item.retries)]
    {
      CountRetry(item);
      if item.retries >= maxRetries {
        DropItem(item);
      }
    }

    /** The last retry is still counted on an item that leaves the queue. */
    method DropRetried(item: PendingItem)
      requires Valid() && Waiting(item)
      modifies this`pending, item`retries
      ensures Valid() && pending.Values <= old(pending.Values)
      ensures Contents() == old(Contents()) - {KeyFor(item.action)}
    {
      ghost var before := Contents();
      CountRetry(item);
      RemoveUpdated(before, KeyFor(item.action), Item(item.action, item.retries));
      DropItem(item);
    }

    /** A trade or order the chain no longer knows leaves the keeper's state as well. */
    method ForgetSubject(a: PendingAction)
      requires state.Valid()
      modifies state`trades, state`limits
      ensures state.Valid()
      ensures state.trades == if a.kind.Limit? then old(state.trades) else old(state.trades) - {a.key}
      ensures state.limits == if a.kind.Limit? then old(state.limits) - {LimitSlotFor(a)} else old(state.limits)
    {
      if a.kind.Limit? {
        state.RemoveLimit(LimitSlotFor(a));
      } else {
        state.Remove(a.key);
      }
    }

    method SubjectGone(item: PendingItem)
      requires Valid() && Waiting(item)
      modifies this`pending, item`retries, state`trades, state`limits
      ensures Valid() && pending.Values <= old(pending.Values)
      ensures Snap() == AfterAttempt(maxRetries, old(Snap()), Attempt(KeyFor(item.action), SimulationFailed(NotFound)))
    {
      AfterNotFound(maxRetries, Snap(), item.action);
      DropRetried(item);
      ghost var left := Contents();
      ForgetSubject(item.action);
      assert Contents() == left;
    }

    method SimulationRefused(item: PendingItem, refusal: Refusal)
      requires Valid() && Waiting(item)
      modifies this`pending, item`retries, state`trades, state`limits
      ensures Valid() && pending.Values <= old(pending.Values)
      ensures Snap() == AfterAttempt(maxRetries, old(Snap()), Attempt(KeyFor(item.action), SimulationFailed(refusal)))
    {
      match refusal
      case NotFound => SubjectGone(item);
      case PriceMismatch => DropRetried(item);
      case NotYet => RetryLater(item);
    }

    ghost function Snap(): Snapshot
      reads this`pending, pending.Values, state`trades, state`limits
    {
      Snapshot(Contents(), state.trades, state.limits)
    }

    /** One attempt at a waiting item, with the RPC's reply. */
    method TryExecute(item: PendingItem, reply: Reply) returns (sent: bool)
      requires Valid() && Waiting(item)
      modifies this`pending, item`retries, state`trades, state`limits
      ensures Valid() && pending.Values <= old(pending.Values)
      ensures Snap() == AfterAttempt(maxRetries, old(Snap()), Attempt(KeyFor(item.action), reply))
      ensures sent == OutcomeOn(maxRetries, old(Contents()), Attempt(KeyFor(item.action), reply)).sent
      ensures (sent <==> Accepted(reply)) && (sent ==> KeyFor(item.action) !in pending)
    {
      if reply != SimulationFailed(NotFound) {
        OnlyTheQueueChanges(maxRetries, Snap(), item.action, reply);
      }
      match reply
      case BuildFailed =>
        DropItem(item);
        return false;
      case SimulateUnavailable =>
        RetryLater(item);
        return false;
      case SimulationFailed(refusal) =>
        SimulationRefused(item, refusal);
        return false;
      case PrepareFailed =>
        DropItem(item);
        return false;
      case SendUnavailable =>
        RetryLater(item);
        return false;
      case Sent(status) =>
        if status.Pending? || status.TryAgainLater? || status.Duplicate? {
          DropItem(item);
          return true;
        } else if status.Error? {
          RetryLater(item);
        }
        return false;
    }

    /** One step of a tick: an attempt at an item the tick has yet to deal with. */
    method TryNext(item: PendingItem, reply: Reply, ghost before: Snapshot, ghost log: seq<Attempt>, ghost todo: set<WaitKey>)
      returns (sent: bool)
      requires Valid() && Waiting(item) && KeyFor(item.action) in todo
      requires Ticking(maxRetries, before, Snap(), log, todo)
      modifies this`pending, item`retries, state`trades, state`limits
      ensures Valid() && pending.Values <= old(pending.Values)
      ensures var log' := log + [Attempt(KeyFor(item.action), reply)];
              && Snap() == AfterAttempts(maxRetries, before, log')
              && IsTick(maxRetries, before.queue, log')
              && (sent <==> SentLast(maxRetries, before.queue, log'))
              && (!sent ==> Ticking(maxRetries, before, Snap(), log', todo - {KeyFor(item.action)}))
    {
      ghost var attempt := Attempt(KeyFor(item.action), reply);
      TickGrows(maxRetries, before, Snap(), log, todo, attempt);
      if !OutcomeOn(maxRetries, Contents(), attempt).sent {
        OthersStillWait(maxRetries, before, Snap(), log, todo, attempt);
      }
      sent := TryExecute(item, reply);
    }

    /**
     One tick: attempt the waiting items, in any order, until one is sent, none is left or the
     context is cancelled. `rpc` is whatever the RPC would answer.
     */
    method ProcessPending(rpc: PendingAction -> Reply, cancelAfter: nat) returns (log: seq<Attempt>, sent: bool)
      requires Valid()
      modifies this`pending, pending.Values, state`trades, state`limits
      ensures Valid()
      ensures IsTick(maxRetries, old(Contents()), log) && (sent <==> SentLast(maxRetries, old(Contents()), log))
      ensures Snap() == AfterAttempts(maxRetries, old(Snap()), log)
      ensures !sent && |log| < cancelAfter ==> KeysIn(log) == old(pending).Keys
    {
      log, sent := [], false;
      var todo := pending.Keys;
      ghost var before := Snap();
      while todo != {}
        invariant Valid() && !sent && pending.Values <= old(pending.Values)
        invariant Ticking(maxRetries, before, Snap(), log, todo)
        decreases todo
      {
        if |log| == cancelAfter {
          return;
        }
        var k :| k in todo;
        var reply := rpc(pending[k].action);
        sent := TryNext(pending[k], reply, before, log, todo);
        todo := todo - {k};
        log := log + [Attempt(k, reply)];
        if sent {
          return;
        }
      }
    }
  }
}
