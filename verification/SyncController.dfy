/**
 `sync.controller.ts`: the endpoint that validates a batch and hands it to the queue.
 */
module SyncController {
  import opened Schema
  import opened Tables
  import opened SyncService
  import opened Delivery

  datatype Response = Accepted(count: nat) | PayloadMismatch | BrokerUnavailable

  /**
   The batch is published as one message or not at all, and not when any element mismatches. A
   client told that the broker is unavailable cannot know which: after a timeout the whole batch
   may still arrive.
   */
  method SyncTransactions(db: Database, broker: Broker, device: DeviceId, batch: seq<Payload>, outcome: Outcome)
    returns (response: Response)
    requires UniqueUuids(db.txs)
    modifies broker
    ensures response == PayloadMismatch <==> exists i | 0 <= i < |batch| :: HashMismatch(db.txs, device, batch[i])
    ensures response != PayloadMismatch ==>
              response == if outcome.Confirmed? then Accepted(|batch|) else BrokerUnavailable
    ensures response == PayloadMismatch ==> broker.msgs == old(broker.msgs)
    ensures response != PayloadMismatch && Arrives(outcome) ==>
              exists sent: seq<Payload> | |sent| == |batch| ::
                (forall i | 0 <= i < |batch| ::
                  sent[i] == batch[i].(device := device, hash := Some(Sha256(batch[i].items, batch[i].payment)))) &&
                broker.msgs == old(broker.msgs) + [Parked(Main, Fresh(sent))]
    ensures outcome.Refused? ==> broker.msgs == old(broker.msgs)
  {
    var stamped := ValidateBatch(db, device, batch);
    if stamped == None {
      return PayloadMismatch;
    }
    var sent := seq(|batch|, i requires 0 <= i < |batch| => stamped.value[i].(device := device));
    var ok := broker.SendToQueue(Main, Fresh(sent), outcome);
    if !ok {
      return BrokerUnavailable;
    }
    return Accepted(|batch|);
  }
}
