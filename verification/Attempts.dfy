/** What one attempt to execute a queued action does, and why attempts cannot go on forever. */
module Attempts {
  import opened Wrappers
  import opened Detector
  import opened PendingKeys

  datatype Item = Item(action: PendingAction, retries: nat)

  datatype Status = Pending | TryAgainLater | Duplicate | Error | Unhandled(text: string)

  /** What a failed simulation says about the action. */
  datatype Refusal = NotFound | PriceMismatch | NotYet

  predicate Contains(s: string, part: string) {
    part <= s || (s != [] && Contains(s[1..], part))
  }

  /** The part occurs somewhere in the text. */
  lemma {:induction false} ContainsIff(s: string, part: string)
    ensures Contains(s, part) <==> exists i | 0 <= i <= |s| :: part <= s[i..]
  {
    if s == [] {
      assert s[0..] == s;
    } else {
      ContainsIff(s[1..], part);
      if part <= s {
        assert s[0..] == s;
      }
      forall i | 0 <= i <= |s[1..]|
        ensures s[1..][i..] == s[i + 1..]
      {
      }
      if exists i | 0 <= i <= |s| :: part <= s[i..] {
        var i :| 0 <= i <= |s| && part <= s[i..];
        if i == 0 {
          assert s[0..] == s;
        } else {
          assert s[1..][i - 1..] == s[i..];
        }
      }
    }
  }

  predicate Mentions(error: string, name: string, code: string) {
    error != "" && (Contains(error, name) || Contains(error, code))
  }

  /** The contract's errors are recognised by name or by number, a missing trade or order first. */
  function Classify(error: string): Refusal {
    if Mentions(error, "TradeNotFound", "#17") || Mentions(error, "LimitNotFound", "#28") then NotFound
    else if Mentions(error, "PriceMismatch", "#21") then PriceMismatch
    else NotYet
  }

  /** How far an attempt got, and what the RPC answered there; a simulation's error is already classified. */
  datatype Reply =
    | BuildFailed
    | SimulateUnavailable
    | SimulationFailed(refusal: Refusal)
    | PrepareFailed
    | SendUnavailable
    | Sent(status: Status)

  /** drop: leave the queue; forget: also remove the trade or order from the keeper's state. */
  datatype Outcome = Outcome(retries: nat, drop: bool, sent: bool, forget: bool)

  function Retried(maxRetries: int, retries: nat): Outcome {
    Outcome(retries + 1, retries + 1 >= maxRetries, false, false)
  }

  function Decide(maxRetries: int, retries: nat, reply: Reply): Outcome {
    match reply
    case BuildFailed => Outcome(retries, true, false, false)
    case SimulateUnavailable => Retried(maxRetries, retries)
    case SimulationFailed(NotFound) => Outcome(retries + 1, true, false, true)
    case SimulationFailed(PriceMismatch) => Outcome(retries + 1, true, false, false)
    case SimulationFailed(NotYet) => Retried(maxRetries, retries)
    case PrepareFailed => Outcome(retries, true, false, false)
    case SendUnavailable => Retried(maxRetries, retries)
    case Sent(Pending) => Outcome(retries, true, true, false)
    case Sent(TryAgainLater) => Outcome(retries, true, true, false)
    case Sent(Duplicate) => Outcome(retries, true, true, false)
    case Sent(Error) => Retried(maxRetries, retries)
    case Sent(Unhandled(_)) => Outcome(retries, false, false, false)
  }

  predicate Handled(reply: Reply) {
    reply.Sent? ==> !reply.status.Unhandled?
  }

  /** The attempts an item may still cost. */
  function Weight(maxRetries: int, retries: nat): nat {
    if maxRetries - retries > 1 then maxRetries - retries else 1
  }

  /** The network has taken the transaction, or had it already. */
  predicate Accepted(reply: Reply) {
    reply == Sent(Pending) || reply == Sent(TryAgainLater) || reply == Sent(Duplicate)
  }

  /** Trying again may help. */
  predicate Retryable(reply: Reply) {
    reply == SimulateUnavailable || reply == SimulationFailed(NotYet) || reply == SendUnavailable || reply == Sent(Error)
  }

  /** Trying the same action again is pointless. */
  predicate Hopeless(reply: Reply) {
    || reply == BuildFailed || reply == PrepareFailed
    || reply == SimulationFailed(NotFound) || reply == SimulationFailed(PriceMismatch)
  }

  /**
   What a reply leads to. An attempt reports sent exactly if the transaction was accepted, and then the
   item leaves the queue; it also leaves it if there is no hope, or when a retryable reply uses up the limit.
   */
  lemma RepliesDecide(maxRetries: int, retries: nat, reply: Reply)
    ensures var o := Decide(maxRetries, retries, reply);
            && (o.sent <==> Accepted(reply))
            && (o.forget <==> reply == SimulationFailed(NotFound))
            && (o.drop <==> Accepted(reply) || Hopeless(reply) || (Retryable(reply) && retries + 1 >= maxRetries))
            && (Retryable(reply) ==> o.retries == retries + 1)
            && (Accepted(reply) || !Handled(reply) ==> o.retries == retries)
    ensures Handled(reply) <==> Accepted(reply) || Retryable(reply) || Hopeless(reply)
  {
  }

  // ----- Error texts -----

  ghost predicate Occurs(part: string, text: string) {
    exists i | 0 <= i <= |text| :: part <= text[i..]
  }

  ghost predicate SaysMissing(error: string) {
    Occurs("TradeNotFound", error) || Occurs("#17", error) || Occurs("LimitNotFound", error) || Occurs("#28", error)
  }

  lemma MentionsIff(error: string, name: string, code: string)
    requires name != [] && code != []
    ensures Mentions(error, name, code) <==> Occurs(name, error) || Occurs(code, error)
  {
    ContainsIff(error, name);
    ContainsIff(error, code);
  }

  /** The trade or order is forgotten exactly if the text names a missing one, by name or by number. */
  lemma ForgottenIff(maxRetries: int, retries: nat, error: string)
    ensures Decide(maxRetries, retries, SimulationFailed(Classify(error))).forget <==> SaysMissing(error)
    ensures Classify(error) == PriceMismatch <==> !SaysMissing(error) && (Occurs("PriceMismatch", error) || Occurs("#21", error))
  {
    MentionsIff(error, "TradeNotFound", "#17");
    MentionsIff(error, "LimitNotFound", "#28");
    MentionsIff(error, "PriceMismatch", "#21");
  }

  /** Numbers are matched as text: an error numbered 170 passes for a missing trade. */
  lemma LongerNumberIsMistaken(prefix: string, suffix: string)
    ensures Classify(prefix + "#170" + suffix) == NotFound
  {
    var error := prefix + "#170" + suffix;
    assert error[|prefix|..] == "#170" + suffix;
    assert "#17" <= error[|prefix|..];
    MentionsIff(error, "TradeNotFound", "#17");
  }

  /** Every attempt either ends the item or makes it lighter. */
  lemma AttemptsWearDown(maxRetries: int, retries: nat, reply: Reply)
    requires Handled(reply)
    ensures var o := Decide(maxRetries, retries, reply);
            o.drop || Weight(maxRetries, o.retries) < Weight(maxRetries, retries)
  {
  }

  /** An unhandled status is the one way to make no progress at all. */
  lemma NoProgressIffUnhandled(maxRetries: int, retries: nat, reply: Reply)
    ensures Decide(maxRetries, retries, reply) == Outcome(retries, false, false, false) <==> !Handled(reply)
  {
  }

  type Queue = map<WaitKey, Item>

  function EnqueueOne(queue: Queue, a: PendingAction): Queue {
    if KeyFor(a) in queue then queue else queue[KeyFor(a) := Item(a, 0)]
  }

  function EnqueueAll(queue: Queue, actions: seq<PendingAction>): Queue
    decreases |actions|
  {
    if actions == [] then queue
    else EnqueueOne(EnqueueAll(queue, actions[..|actions| - 1]), actions[|actions| - 1])
  }

  datatype Attempt = Attempt(key: WaitKey, reply: Reply)

  function AttemptOn(maxRetries: int, queue: Queue, a: Attempt): Queue {
    if a.key !in queue then queue
    else
      var o := Decide(maxRetries, queue[a.key].retries, a.reply);
      if o.drop then queue - {a.key} else queue[a.key := Item(queue[a.key].action, o.retries)]
  }

  function AttemptAll(maxRetries: int, queue: Queue, log: seq<Attempt>): Queue
    decreases |log|
  {
    if log == [] then queue
    else AttemptOn(maxRetries, AttemptAll(maxRetries, queue, log[..|log| - 1]), log[|log| - 1])
  }

  /** The attempts the whole queue may still cost. */
  ghost function Potential(maxRetries: int, queue: Queue): nat
    decreases |queue|
  {
    if queue == map[] then 0
    else
      var key :| key in queue;
      Weight(maxRetries, queue[key].retries) + Potential(maxRetries, queue - {key})
  }

  /** The sum does not depend on the order of summation. */
  lemma {:induction false} PotentialSplits(maxRetries: int, queue: Queue, key: WaitKey)
    requires key in queue
    ensures Potential(maxRetries, queue) == Weight(maxRetries, queue[key].retries) + Potential(maxRetries, queue - {key})
    decreases |queue|
  {
    var first :| first in queue &&
      Potential(maxRetries, queue) == Weight(maxRetries, queue[first].retries) + Potential(maxRetries, queue - {first});
    if first != key {
      PotentialSplits(maxRetries, queue - {first}, key);
      PotentialSplits(maxRetries, queue - {key}, first);
      assert queue - {first} - {key} == queue - {key} - {first};
    }
  }

  lemma PotentialIsPositive(maxRetries: int, queue: Queue)
    requires queue != map[]
    ensures Potential(maxRetries, queue) > 0
  {
    var key :| key in queue;
    PotentialSplits(maxRetries, queue, key);
  }

  /** Every attempt strictly lowers the queue's potential. */
  lemma AttemptLowersPotential(maxRetries: int, queue: Queue, a: Attempt)
    requires a.key in queue && Handled(a.reply)
    ensures Potential(maxRetries, AttemptOn(maxRetries, queue, a)) < Potential(maxRetries, queue)
  {
    AttemptsWearDown(maxRetries, queue[a.key].retries, a.reply);
    PotentialSplits(maxRetries, queue, a.key);
    var after := AttemptOn(maxRetries, queue, a);
    if a.key in after {
      PotentialSplits(maxRetries, after, a.key);
      assert after - {a.key} == queue - {a.key};
    }
  }

  // ----- What becomes of a batch, and of one item -----

  function KeysOf(actions: seq<PendingAction>): set<WaitKey> {
    set a <- actions :: KeyFor(a)
  }

  /**
   After a batch has been enqueued, what waited still waits as it did, everything in the batch waits as
   well, and nothing else does; a new item has used no retries and carries an action of the batch.
   */
  lemma {:induction false} BatchWaits(queue: Queue, actions: seq<PendingAction>)
    ensures var after := EnqueueAll(queue, actions);
            && after.Keys == queue.Keys + KeysOf(actions)
            && (forall k <- queue :: after[k] == queue[k])
            && (forall k <- after | k !in queue :: after[k].retries == 0 && after[k].action in actions && KeyFor(after[k].action) == k)
    decreases |actions|
  {
    if actions != [] {
      var front, last := actions[..|actions| - 1], actions[|actions| - 1];
      BatchWaits(queue, front);
      assert actions == front + [last];
      assert KeysOf(actions) == KeysOf(front) + {KeyFor(last)};
    }
  }

  /** A single waiting item that meets nothing but retryable replies waits until it has used up its retries, and no longer. */
  lemma {:induction false} RetriedToTheLimit(maxRetries: int, a: PendingAction, log: seq<Attempt>)
    requires forall attempt <- log :: attempt.key == KeyFor(a) && Retryable(attempt.reply)
    ensures AttemptAll(maxRetries, map[KeyFor(a) := Item(a, 0)], log) ==
            if |log| >= Weight(maxRetries, 0) then map[] else map[KeyFor(a) := Item(a, |log|)]
    decreases |log|
  {
    if log != [] {
      var front, last := log[..|log| - 1], log[|log| - 1];
      assert last in log && forall attempt <- front :: attempt in log;
      RetriedToTheLimit(maxRetries, a, front);
      RepliesDecide(maxRetries, |front|, last.reply);
      assert map[KeyFor(a) := Item(a, |front|)] - {KeyFor(a)} == map[];
      assert map[KeyFor(a) := Item(a, |front|)][KeyFor(a) := Item(a, |log|)] == map[KeyFor(a) := Item(a, |log|)];
    }
  }
}
