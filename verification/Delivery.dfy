/**
 `sync-producer.service.ts`, the dead-letter half of `sync-consumer.service.ts`, and the queues
 between them. A queue is modelled by what lies in it; delivery order is left open. A message a
 worker holds without having acknowledged it still belongs to the broker.
 */
module Delivery {
  import opened Schema
  import opened Operations
  import opened Tables
  import SyncConsumer

  const MAX_RETRIES := 3

  /** One element of a message: a sale with its `_retryAttempt`, or something unusable. */
  datatype Entry = Garbage | Entry(p: Payload, attempt: nat)

  type Message = seq<Entry>

  datatype Place = Main | AtWorker(done: nat) | DeadLetter | Retry5s | Retry30s | Retry120s

  datatype Parked = Parked(place: Place, msg: Message)

  /**
   How a publish ends: confirmed; refused; or timed out, when the publisher is told that it failed
   and the broker takes the message all the same. A queue has no order here and may hand a message
   out arbitrarily late, so a late arrival is modelled as an arrival.
   */
  datatype Outcome = Confirmed | Refused | TimedOut

  predicate Arrives(outcome: Outcome)
  {
    !outcome.Refused?
  }

  /** Where a sale was sent to, or that its failure was recorded for good. */
  datatype Stop = Sent(queue: Place) | Terminal

  datatype Event = Event(p: Payload, stop: Stop)

  /** The database, everything the broker holds, and the history of dead-letter decisions. */
  datatype Net = Net(db: Db, msgs: seq<Parked>, log: seq<Event>)

  function QueueFor(attempt: nat): Place
  {
    if attempt == 1 then Retry5s else if attempt == 2 then Retry30s else Retry120s
  }

  /** What the dead-letter consumer does with one element; `up` says whether the publish arrives. */
  function Dispatch(net: Net, e: Entry, up: bool): Net
  {
    match e
    case Garbage => net
    case Entry(p, a) =>
      if a + 1 <= MAX_RETRIES then
        if up then
          net.(msgs := net.msgs + [Parked(QueueFor(a + 1), [Entry(p, a + 1)])],
               log := net.log + [Event(p, Sent(QueueFor(a + 1)))])
        else net
      else
        net.(db := RecordTerminal(net.db, p.device, p.uuid), log := net.log + [Event(p, Terminal)])
  }

  /** How the publish of element `k` ends; the ones not listed are confirmed. */
  function OutcomeAt(outcomes: seq<Outcome>, k: nat): Outcome
  {
    if k < |outcomes| then outcomes[k] else Confirmed
  }

  predicate Up(outcomes: seq<Outcome>, k: nat)
  {
    Arrives(OutcomeAt(outcomes, k))
  }

  function DispatchAll(net: Net, msg: Message, outcomes: seq<Outcome>): Net
  {
    if |msg| == 0 then net
    else Dispatch(DispatchAll(net, msg[..|msg| - 1], outcomes), msg[|msg| - 1], Up(outcomes, |msg| - 1))
  }

  class Broker {
    var msgs: seq<Parked>

    constructor ()
      ensures msgs == []
    {
      msgs := [];
    }

    /** Publisher confirm: success means the message is in the queue, failure only that it may not be. */
    method SendToQueue(queue: Place, msg: Message, outcome: Outcome) returns (ok: bool)
      modifies this
      ensures ok <==> outcome.Confirmed?
      ensures ok ==> msgs == old(msgs) + [Parked(queue, msg)]
      ensures msgs == if Arrives(outcome) then old(msgs) + [Parked(queue, msg)] else old(msgs)
    {
      if outcome != Refused {
        msgs := msgs + [Parked(queue, msg)];
      }
      return outcome == Confirmed;
    }

    /** A failed publish to a retry queue is logged and otherwise ignored. */
    method PublishToRetry(msg: Message, attempt: nat, outcome: Outcome)
      modifies this
      ensures msgs == if Arrives(outcome) then old(msgs) + [Parked(QueueFor(attempt), msg)] else old(msgs)
    {
      var queue := if attempt == 1 then Retry5s else if attempt == 2 then Retry30s else Retry120s;
      var _ := SendToQueue(queue, msg, outcome);
    }
  }

  /** A dead-letter message splits into single sales, each retried or recorded for good. */
  method HandleDlqMessage(db: Database, broker: Broker, msg: Message, outcomes: seq<Outcome>) returns (ghost log: seq<Event>)
    modifies db`failures, broker
    ensures Net(db.View(), broker.msgs, log) == DispatchAll(Net(old(db.View()), old(broker.msgs), []), msg, outcomes)
  {
    ghost var net0 := Net(db.View(), broker.msgs, []);
    log := [];
    var k := 0;
    while k < |msg|
      invariant 0 <= k <= |msg|
      invariant Net(db.View(), broker.msgs, log) == DispatchAll(net0, msg[..k], outcomes)
    {
      assert msg[..k + 1][..k] == msg[..k];
      match msg[k] {
        case Garbage =>
        case Entry(p, a) =>
          var attempt := a + 1;
          if attempt <= MAX_RETRIES {
            var outcome := OutcomeAt(outcomes, k);
            broker.PublishToRetry([Entry(p, attempt)], attempt, outcome);
            if Arrives(outcome) {
              log := log + [Event(p, Sent(QueueFor(attempt)))];
            }
          } else {
            SyncConsumer.RecordTerminalFailure(db, p.device, p.uuid);
            log := log + [Event(p, Terminal)];
          }
      }
      k := k + 1;
    }
    assert msg[..k] == msg;
  }

  // ---- The whole network ----

  datatype Move =
    | Submit(batch: seq<Payload>, outcome: Outcome)      // the controller publishes a validated batch
    | Deliver(i: nat)                                    // a worker takes a message
    | Work(i: nat, failed: Option<FailureNote>)          // and handles its next sale
    | Ack(i: nat)                                        // after the last sale
    | Crash(i: nat)                                      // unacknowledged, back to the main queue
    | Reject(i: nat)                                     // refused, to the dead-letter queue
    | Dead(i: nat, outcomes: seq<Outcome>)               // dead-letter consumer, acknowledged
    | DeadCrash(i: nat, k: nat, outcomes: seq<Outcome>)  // died after k elements, not acknowledged
    | Expire(i: nat)                                     // retry delay over, back to the main queue
    | Elsewhere(s: Step)                                 // anything else the database undergoes

  function Remove(msgs: seq<Parked>, i: nat): seq<Parked>
    requires i < |msgs|
  {
    msgs[..i] + msgs[i + 1..]
  }

  function Fresh(batch: seq<Payload>): (msg: Message)
    ensures |msg| == |batch|
    ensures forall k | 0 <= k < |batch| :: msg[k] == Entry(batch[k], 0)
  {
    seq(|batch|, k requires 0 <= k < |batch| => Entry(batch[k], 0))
  }

  /**
   One sale at the worker: handled, or noted as failed for a reason that was found out some time
   before, be it an abort of the infrastructure or a conflict that is not one any more.
   */
  function WorkOne(db: Db, e: Entry, failed: Option<FailureNote>): Db
  {
    match e
    case Garbage => db
    case Entry(p, _) =>
      if failed.Some? then RecordFailure(db, p, failed.value) else HandleOne(db, p)
  }

  predicate IsRetry(place: Place)
  {
    place.Retry5s? || place.Retry30s? || place.Retry120s?
  }

  predicate Enabled(net: Net, m: Move)
  {
    match m
    case Submit(_, _) => true
    case Deliver(i) => i < |net.msgs| && net.msgs[i].place == Main
    case Work(i, _) => i < |net.msgs| && net.msgs[i].place.AtWorker? && net.msgs[i].place.done < |net.msgs[i].msg|
    case Ack(i) => i < |net.msgs| && net.msgs[i].place.AtWorker? && net.msgs[i].place.done == |net.msgs[i].msg|
    case Crash(i) => i < |net.msgs| && net.msgs[i].place.AtWorker?
    case Reject(i) => i < |net.msgs| && net.msgs[i].place.AtWorker?
    case Dead(i, _) => i < |net.msgs| && net.msgs[i].place == DeadLetter
    case DeadCrash(i, k, _) => i < |net.msgs| && net.msgs[i].place == DeadLetter && k <= |net.msgs[i].msg|
    case Expire(i) => i < |net.msgs| && IsRetry(net.msgs[i].place)
    case Elsewhere(_) => true
  }

  function Relocate(net: Net, i: nat, place: Place): Net
    requires i < |net.msgs|
  {
    net.(msgs := net.msgs[i := net.msgs[i].(place := place)])
  }

  function Next(net: Net, m: Move): Net
    requires Enabled(net, m)
  {
    match m
    case Submit(batch, outcome) =>
      if Arrives(outcome) then net.(msgs := net.msgs + [Parked(Main, Fresh(batch))]) else net
    case Deliver(i) => Relocate(net, i, AtWorker(0))
    case Work(i, failed) =>
      var at := net.msgs[i];
      Relocate(net, i, AtWorker(at.place.done + 1)).(db := WorkOne(net.db, at.msg[at.place.done], failed))
    case Ack(i) => net.(msgs := Remove(net.msgs, i))
    case Crash(i) => Relocate(net, i, Main)
    case Reject(i) => Relocate(net, i, DeadLetter)
    case Dead(i, outcomes) => DispatchAll(net.(msgs := Remove(net.msgs, i)), net.msgs[i].msg, outcomes)
    case DeadCrash(i, k, outcomes) => DispatchAll(net, net.msgs[i].msg[..k], outcomes)
    case Expire(i) => Relocate(net, i, Main)
    case Elsewhere(s) => net.(db := Apply(net.db, s))
  }

  /** A run of moves, each enabled where it happens. */
  ghost predicate IsRun(net: Net, moves: seq<Move>)
    decreases |moves|, 0
  {
    if |moves| == 0 then true
    else
      var init := moves[..|moves| - 1];
      IsRun(net, init) && Enabled(Exec(net, init), moves[|moves| - 1])
  }

  ghost function Exec(net: Net, moves: seq<Move>): Net
    requires IsRun(net, moves)
    decreases |moves|, 1
  {
    if |moves| == 0 then net
    else Next(Exec(net, moves[..|moves| - 1]), moves[|moves| - 1])
  }
}
