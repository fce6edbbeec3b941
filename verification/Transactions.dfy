/**
 `transactions.service.ts`: voiding, conflict resolution and the immutable correction.
 */
module Transactions {
  import opened Schema
  import opened Ledger
  import opened Operations
  import opened Tables

  method VoidTransaction(db: Database, key: Key) returns (error: Option<Error>)
    modifies db`txs
    ensures
      match Operations.VoidTransaction(old(db.View()), key)
      case Success(after) => error == None && db.View() == after
      case Failure(e) => error == Some(e) && db.View() == old(db.View())
    ensures error == None <==>
              FindOne(old(db.txs), key).Some? && old(db.txs)[FindOne(old(db.txs), key).value].status == PENDING
    ensures error == None ==>
      var t := FindOne(old(db.txs), key).value;
      && |db.txs| == |old(db.txs)| && db.txs[t].status == VOIDED && db.txs[t].sync == old(db.txs)[t].sync
      && forall s | 0 <= s < |db.txs| && s != t :: db.txs[s] == old(db.txs)[s]
  {
    var found := FindOne(db.txs, key);
    if found == None {
      return Some(NotFound);
    }
    var t := found.value;
    if db.txs[t].status == VOIDED {
      return Some(AlreadyVoided);
    }
    if db.txs[t].status != PENDING {
      return Some(NotPending);
    }
    db.txs := db.txs[t := db.txs[t].(status := VOIDED, voidReason := Some(ByOwner))];
    return None;
  }

  method ResolveConflict(db: Database, key: Key, action: Action) returns (error: Option<Error>)
    modifies db
    ensures
      match Operations.ResolveConflict(old(db.View()), key, action)
      case Success(after) => error == None && db.View() == after
      case Failure(e) => error == Some(e) && db.View() == old(db.View())
  {
    var found := FindOne(db.txs, key);
    if found == None {
      return Some(NotFound);
    }
    var t := found.value;
    if db.txs[t].sync != SYNC_CONFLICT {
      return Some(NotInConflict);
    }
    if action == CONFIRM {
      var saved := db.View();
      var ok := db.MoveStock(db.txs[t].items, t, SALE, Out);
      if !ok {
        db.Rollback(saved);
        return Some(RecordNotFound);
      }
      db.txs := db.txs[t := db.txs[t].(status := CONFIRMED, sync := SYNCED, confirmedAt := true)];
    } else {
      db.txs := db.txs[t := db.txs[t].(status := VOIDED, sync := SYNCED, voidReason := Some(ByConflictResolution))];
    }
    return None;
  }

  /** The replacement keeps the old payment's method and status and takes the new total. */
  method ClonePayment(db: Database, oldId: TxId, newId: TxId, total: int)
    modifies db`payments
    ensures db.payments == old(db.payments) + ClonedPayment(old(db.payments), oldId, newId, total)
  {
    var payment := FindPayment(db.payments, oldId);
    if payment.Some? {
      db.payments := db.payments + [db.payments[payment.value].(tx := newId, amount := total)];
    } else {
      assert db.payments + [] == db.payments;
    }
  }

  method MarkOldAsVoidedAndBridge(db: Database, oldId: TxId, newId: TxId)
    requires oldId < |db.txs|
    modifies db`txs, db`corrections
    ensures db.txs == old(db.txs)[oldId := old(db.txs)[oldId].(status := VOIDED, voidReason := Some(ByCorrection(newId)))]
    ensures db.corrections == old(db.corrections) + [Correction(oldId, newId)]
  {
    db.txs := db.txs[oldId := db.txs[oldId].(status := VOIDED, voidReason := Some(ByCorrection(newId)))];
    db.corrections := db.corrections + [Correction(oldId, newId)];
  }

  /** The database transaction: revert, re-create, deduct, clone the payment, void, link. */
  method CorrectConfirmed(db: Database, oldId: TxId, dto: CorrectDto) returns (error: Option<Error>)
    requires oldId < |db.txs|
    modifies db
    ensures
      match CorrectionBody(old(db.View()), oldId, dto)
      case Success(after) => error == None && db.View() == after
      case Failure(e) => error == Some(e) && db.View() == old(db.View())
  {
    var saved := db.View();
    var prior := db.txs[oldId];
    var ok := db.MoveStock(prior.items, oldId, CORRECTION, In);
    if !ok {
      db.Rollback(saved);
      return Some(RecordNotFound);
    }
    var newId := |db.txs|;
    db.txs := db.txs + [CorrectedHeader(prior, dto)];
    if !ProductsKnown(db.stock, dto.items) {
      db.Rollback(saved);
      return Some(ForeignKeyViolation);
    }
    ok := db.MoveStock(dto.items, newId, CORRECTION, Out);
    ClonePayment(db, oldId, newId, dto.total);
    MarkOldAsVoidedAndBridge(db, oldId, newId);
    assert db.txs == saved.txs[oldId := db.txs[oldId]] + [CorrectedHeader(prior, dto)];
    return None;
  }

  /** The status is read and checked before the database transaction begins. */
  method CorrectTransaction(db: Database, key: Key, dto: CorrectDto) returns (error: Option<Error>)
    modifies db
    ensures
      match Operations.CorrectTransaction(old(db.View()), key, dto)
      case Success(after) => error == None && db.View() == after
      case Failure(e) => error == Some(e) && db.View() == old(db.View())
  {
    var found := FindOne(db.txs, key);
    if found == None {
      return Some(NotFound);
    }
    if db.txs[found.value].status != CONFIRMED {
      return Some(NotConfirmed);
    }
    error := CorrectConfirmed(db, found.value, dto);
  }
}
