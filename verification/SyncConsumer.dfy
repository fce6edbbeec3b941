/**
 `sync-consumer.service.ts`: the worker that turns queued offline sales into rows.
 */
module SyncConsumer {
  import opened Schema
  import opened Ledger
  import opened Operations
  import opened Tables

  method ValidateArithmetic(p: Payload) returns (ok: bool)
    ensures ok <==> ArithmeticHolds(p)
  {
    var calculatedSubtotal := 0;
    var k := 0;
    while k < |p.items|
      invariant 0 <= k <= |p.items|
      invariant LinesAddUp(p.items[..k])
      invariant calculatedSubtotal == SubtotalSum(p.items[..k])
    {
      var item := p.items[k];
      if item.quantity * item.unitPrice != item.subtotal {
        return false;
      }
      calculatedSubtotal := calculatedSubtotal + item.subtotal;
      assert p.items[..k + 1] == p.items[..k] + [item];
      assert p.items[..k + 1][..k] == p.items[..k];
      k := k + 1;
    }
    assert p.items[..k] == p.items;
    ok := calculatedSubtotal == p.subtotal && calculatedSubtotal == p.total;
  }

  /** Row by row, each row read under a lock; the first line that cannot be served decides. */
  method CheckStockAvailability(db: Database, items: seq<Item>) returns (conflict: bool)
    ensures conflict <==> StockConflict(db.View(), items)
  {
    var k := 0;
    while k < |items|
      invariant 0 <= k <= |items|
      invariant forall i | 0 <= i < k :: !LineConflicts(db.View(), items[i])
    {
      var item := items[k];
      if item.product !in db.stock || item.product !in db.active {
        assert LineConflicts(db.View(), items[k]);
        return true;
      }
      if !db.active[item.product] || db.stock[item.product] < item.quantity {
        assert LineConflicts(db.View(), items[k]);
        return true;
      }
      k := k + 1;
    }
    return false;
  }

  /** All or nothing: header, details, payment and, without a conflict, the deduction. */
  method ProcessTransaction(db: Database, p: Payload) returns (error: Option<Error>)
    modifies db
    ensures
      match Operations.ProcessTransaction(old(db.View()), p)
      case Success(after) => error == None && db.View() == after
      case Failure(e) => error == Some(e) && db.View() == old(db.View())
  {
    var saved := db.View();
    var addsUp := ValidateArithmetic(p);
    if !addsUp {
      return Some(ArithmeticError);
    }
    var conflict := CheckStockAvailability(db, p.items);
    if p.device !in db.devices {
      return Some(DeviceNotFound);
    }
    if UuidTaken(db.txs, p.uuid) {
      return Some(UniqueViolation);
    }
    var t := |db.txs|;
    db.txs := db.txs + [SaleHeader(p, conflict)];
    if !ProductsKnown(db.stock, p.items) {
      db.Rollback(saved);
      return Some(ForeignKeyViolation);
    }
    db.payments := db.payments + [Payment(t, p.payment.amount, p.payment.payMethod, p.payment.details, VERIFIED)];
    if !conflict {
      var ok := db.MoveStock(p.items, t, SALE, Out);
      assert ok;
    }
    return None;
  }

  method HandleFailure(db: Database, p: Payload, error: Error)
    modifies db`failures
    ensures db.View() == RecordFailure(old(db.View()), p, NoteFor(error))
  {
    if p.device in db.devices {
      db.failures := db.failures + [QueueRow(p.device, p.uuid, NoteFor(error))];
    }
  }

  /** The message handler: sale by sale, a failure never stops the batch, then acknowledge. */
  method HandleSyncTransactionBatch(db: Database, batch: seq<Payload>) returns (acked: bool)
    modifies db
    ensures acked
    ensures db.View() == HandleBatch(old(db.View()), batch)
  {
    ghost var db0 := db.View();
    var k := 0;
    while k < |batch|
      invariant 0 <= k <= |batch|
      invariant db.View() == HandleBatch(db0, batch[..k])
    {
      var data := batch[k];
      assert batch[..k + 1][..k] == batch[..k];
      if !Stored(db.txs, data.device, data.uuid) {
        var error := ProcessTransaction(db, data);
        if error.Some? {
          HandleFailure(db, data, error.value);
        }
      }
      k := k + 1;
    }
    assert batch[..k] == batch;
    return true;
  }

  /** `recordTerminalFailure`. */
  method RecordTerminalFailure(db: Database, device: DeviceId, uuid: Uuid)
    modifies db`failures
    ensures db.View() == RecordTerminal(old(db.View()), device, uuid)
  {
    var entry := FindFailure(db.failures, device, uuid);
    match entry
    case Some(i) =>
      db.failures := db.failures[i := db.failures[i].(note := ExceededRetries)];
    case None =>
      if device in db.devices {
        db.failures := db.failures + [QueueRow(device, uuid, ExceededRetries)];
      }
  }
}
