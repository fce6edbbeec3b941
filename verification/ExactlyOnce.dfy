/**
 What one delivery of a sale does, and why delivering it again does nothing: the outcome of a
 payload is one of four, and once it has an outcome no later delivery changes a sale, the
 stock or the ledger, whatever the owner did in between.
 */
module ExactlyOnce {
  import opened Schema
  import opened Ledger
  import opened Operations
  import opened Evolution
  import opened Invariants

  /** Everything except the failure notes. */
  ghost predicate SameSales(a: Db, b: Db)
  {
    a.(failures := []) == b.(failures := [])
  }

  // ---- The four outcomes ----

  datatype Outcome = Skipped | StoredConfirmed | StoredConflict | Rejected

  ghost predicate KnowsDevice(db: Db, p: Payload)
  {
    exists d | d in db.devices :: d == p.device
  }

  /** Some row bears the offline identifier, whichever device it came from. */
  ghost predicate UuidBorne(db: Db, p: Payload)
  {
    exists t | 0 <= t < |db.txs| :: db.txs[t].uuid.Some? && db.txs[t].uuid.value == p.uuid
  }

  ghost predicate SkippedFor(db: Db, p: Payload)
  {
    exists t | 0 <= t < |db.txs| :: db.txs[t].uuid.Some? && db.txs[t].uuid.value == p.uuid && db.txs[t].device == p.device
  }

  ghost predicate SumsAreRight(p: Payload)
  {
    && (forall i | 0 <= i < |p.items| :: p.items[i].subtotal == p.items[i].quantity * p.items[i].unitPrice)
    && p.subtotal == Priced(p.items) && p.total == Priced(p.items)
  }

  ghost predicate NamesUnknownProduct(db: Db, p: Payload)
  {
    exists i | 0 <= i < |p.items| :: p.items[i].product !in db.stock
  }

  /** A payload no state of stock can save. */
  ghost predicate Unacceptable(db: Db, p: Payload)
  {
    !SumsAreRight(p) || !KnowsDevice(db, p) || UuidBorne(db, p) || NamesUnknownProduct(db, p)
  }

  ghost function OutcomeOf(db: Db, p: Payload): Outcome
  {
    if SkippedFor(db, p) then Skipped
    else if Unacceptable(db, p) then Rejected
    else if forall i | 0 <= i < |p.items| ::
              p.items[i].product in db.active && db.active[p.items[i].product] &&
              p.items[i].quantity <= db.stock[p.items[i].product]
    then StoredConfirmed
    else StoredConflict
  }

  /** A new last row holding this sale, its payment beside it, and nothing else changed but stock and ledger. */
  ghost predicate SaleAppended(a: Db, b: Db, p: Payload, status: TransactionStatus, sync: SyncStatus)
  {
    && |b.txs| == |a.txs| + 1 && a.txs <= b.txs
    && b.txs[|a.txs|].uuid == Some(p.uuid) && b.txs[|a.txs|].device == p.device && b.txs[|a.txs|].hash == p.hash
    && b.txs[|a.txs|].items == p.items && b.txs[|a.txs|].total == p.total && b.txs[|a.txs|].subtotal == p.subtotal
    && b.txs[|a.txs|].status == status && b.txs[|a.txs|].sync == sync
    && b.txs[|a.txs|].confirmedAt == (status == CONFIRMED) && b.txs[|a.txs|].voidReason == None
    && |b.payments| == |a.payments| + 1 && a.payments <= b.payments
    && b.payments[|a.payments|].tx == |a.txs| && b.payments[|a.payments|].amount == p.payment.amount
    && b.payments[|a.payments|].payMethod == p.payment.payMethod && b.payments[|a.payments|].details == p.payment.details
    && b.payments[|a.payments|].status == VERIFIED
    && a == b.(txs := a.txs, payments := a.payments, stock := a.stock, ledger := a.ledger)
  }

  ghost predicate OneMoreFailure(a: Db, b: Db, p: Payload)
  {
    && |b.failures| == |a.failures| + 1 && a.failures <= b.failures
    && b.failures[|a.failures|].device == p.device && b.failures[|a.failures|].uuid == p.uuid
    && b.failures[|a.failures|].note ==
         if !SumsAreRight(p) then SyncArithmeticError
         else if UuidBorne(a, p) then SyncUnknownError
         else SyncConstraintViolation
  }

  /** What the handling of one sale may have done, outcome by outcome. */
  ghost predicate Classified(db: Db, after: Db, p: Payload)
  {
    match OutcomeOf(db, p)
    case Skipped => after == db
    case StoredConfirmed =>
      && SaleAppended(db, after, p, CONFIRMED, SYNCED)
      && after.stock.Keys == db.stock.Keys
      && (forall q | q in db.stock :: after.stock[q] == db.stock[q] - ItemQty(p.items, q))
      && after.ledger == db.ledger + MovementRows(p.items, |db.txs|, SALE, Out)
    case StoredConflict =>
      && SaleAppended(db, after, p, PENDING, SYNC_CONFLICT)
      && after.stock == db.stock && after.ledger == db.ledger
    case Rejected =>
      && SameSales(db, after)
      && (p.device in db.devices ==> OneMoreFailure(db, after, p))
      && (p.device !in db.devices ==> after == db)
  }

  /** The arithmetic check accepts exactly the payloads whose lines and totals are the products and sums. */
  lemma ArithmeticMeans(p: Payload)
    ensures ArithmeticHolds(p) <==> SumsAreRight(p)
  {
    if forall i | 0 <= i < |p.items| :: p.items[i].subtotal == p.items[i].quantity * p.items[i].unitPrice {
      PricedIsSubtotal(p.items);
    }
  }

  /** The conditions of the worker in terms of the tables. */
  lemma ConditionsMean(db: Db, p: Payload)
    ensures Stored(db.txs, p.device, p.uuid) <==> SkippedFor(db, p)
    ensures UuidTaken(db.txs, p.uuid) <==> UuidBorne(db, p)
    ensures ProductsKnown(db.stock, p.items) <==> !NamesUnknownProduct(db, p)
    ensures p.device in db.devices <==> KnowsDevice(db, p)
    ensures ArithmeticHolds(p) <==> SumsAreRight(p)
  {
    ArithmeticMeans(p);
    assert forall t | 0 <= t < |db.txs| :: db.txs[t].uuid == Some(p.uuid) <==> db.txs[t].uuid.Some? && db.txs[t].uuid.value == p.uuid;
  }

  /** Which error a refused sale meets: the first in this order that applies. */
  lemma RefusedBecause(db: Db, p: Payload)
    ensures ProcessTransaction(db, p).Failure? <==> Unacceptable(db, p)
    ensures Unacceptable(db, p) ==>
              ProcessTransaction(db, p) == Failure(
                if !SumsAreRight(p) then ArithmeticError
                else if !KnowsDevice(db, p) then DeviceNotFound
                else if UuidBorne(db, p) then UniqueViolation
                else ForeignKeyViolation)
  {
    ConditionsMean(db, p);
  }

  /**
   Total classification of a delivery. In particular a payload naming an unknown product is
   rejected although the stock check had classed it as a conflict, and a rejection touches
   nothing but the failure notes, which gain one row saying why when the device is known.
   */
  lemma Classification(db: Db, p: Payload)
    requires db.active.Keys == db.stock.Keys
    ensures Classified(db, HandleOne(db, p), p)
  {
    ConditionsMean(db, p);
    if OutcomeOf(db, p) == StoredConflict {
      var i :| 0 <= i < |p.items| && !(p.items[i].product in db.active && db.active[p.items[i].product] &&
                                       p.items[i].quantity <= db.stock[p.items[i].product]);
      assert LineConflicts(db, p.items[i]);
    } else if OutcomeOf(db, p) == StoredConfirmed {
      assert !StockConflict(db, p.items);
    }
  }

  lemma {:induction false} BatchKeepsCatalog(db: Db, batch: seq<Payload>)
    requires db.active.Keys == db.stock.Keys
    ensures HandleBatch(db, batch).active.Keys == HandleBatch(db, batch).stock.Keys
  {
    if |batch| > 0 {
      BatchKeepsCatalog(db, batch[..|batch| - 1]);
    }
  }

  /**
   The batch handler fixed from outside: the empty batch changes nothing, and each sale of a batch
   is classified, as it was sent, against what the sales before it have left.
   */
  lemma BatchClassification(db: Db, batch: seq<Payload>, k: nat)
    requires db.active.Keys == db.stock.Keys && k < |batch|
    ensures HandleBatch(db, batch[..0]) == db && HandleBatch(db, batch[..|batch|]) == HandleBatch(db, batch)
    ensures Classified(HandleBatch(db, batch[..k]), HandleBatch(db, batch[..k + 1]), batch[k])
  {
    BatchKeepsCatalog(db, batch[..k]);
    Classification(HandleBatch(db, batch[..k]), batch[k]);
    assert batch[..k + 1][..k] == batch[..k];
    assert batch[..|batch|] == batch;
  }

  /** In particular for one sale alone. */
  lemma BatchOfOne(db: Db, p: Payload)
    requires db.active.Keys == db.stock.Keys
    ensures Classified(db, HandleBatch(db, [p]), p)
  {
    BatchClassification(db, [p], 0);
    assert [p][..1] == [p];
  }

  // ---- Replays ----

  /** Delivering `p` in this state changes no sale. */
  ghost predicate Settled(db: Db, p: Payload)
  {
    UuidTaken(db.txs, p.uuid) || ProcessTransaction(db, p).Failure?
  }

  lemma SettledIsIdle(db: Db, p: Payload)
    requires Settled(db, p)
    ensures SameSales(HandleOne(db, p), db)
  {
  }

  lemma HandledIsSettled(db: Db, p: Payload)
    ensures Settled(HandleOne(db, p), p)
  {
    if !Stored(db.txs, p.device, p.uuid) && ProcessTransaction(db, p).Success? {
      var after := HandleOne(db, p);
      assert after.txs[|db.txs|].uuid == Some(p.uuid);
    }
  }

  lemma HandlingKeepsSettled(db: Db, p: Payload, q: Payload)
    requires Settled(db, p)
    ensures Settled(HandleOne(db, q), p)
  {
    var after := HandleOne(db, q);
    if UuidTaken(db.txs, p.uuid) {
      var t :| 0 <= t < |db.txs| && db.txs[t].uuid == Some(p.uuid);
      assert after.txs[t] == db.txs[t];
    }
  }

  lemma {:induction false} BatchKeepsSettled(db: Db, p: Payload, batch: seq<Payload>)
    requires Settled(db, p)
    ensures Settled(HandleBatch(db, batch), p)
  {
    if |batch| > 0 {
      BatchKeepsSettled(db, p, batch[..|batch| - 1]);
      HandlingKeepsSettled(HandleBatch(db, batch[..|batch| - 1]), p, batch[|batch| - 1]);
    }
  }

  lemma {:induction false} BatchSettles(db: Db, batch: seq<Payload>, k: nat)
    requires k < |batch|
    ensures Settled(HandleBatch(db, batch), batch[k])
  {
    var init := batch[..|batch| - 1];
    if k < |batch| - 1 {
      BatchSettles(db, init, k);
      HandlingKeepsSettled(HandleBatch(db, init), batch[k], batch[|batch| - 1]);
    } else {
      HandledIsSettled(HandleBatch(db, init), batch[k]);
    }
  }

  lemma {:induction false} SettledBatchIsIdle(db: Db, batch: seq<Payload>)
    requires forall p | p in batch :: Settled(db, p)
    ensures SameSales(HandleBatch(db, batch), db)
  {
    if |batch| > 0 {
      var init, last := batch[..|batch| - 1], batch[|batch| - 1];
      SettledBatchIsIdle(db, init);
      assert last in batch;
      BatchKeepsSettled(db, last, init);
      SettledIsIdle(HandleBatch(db, init), last);
    }
  }

  /**
   Redelivery is idempotent: after a batch, any further batch made of payloads that were in it,
   in any order and any number of times, changes no transaction, payment, stock or ledger row.
   */
  lemma ReplayIsIdempotent(db: Db, batch: seq<Payload>, replay: seq<Payload>)
    requires forall p | p in replay :: p in batch
    ensures SameSales(HandleBatch(HandleBatch(db, batch), replay), HandleBatch(db, batch))
  {
    forall p | p in replay
      ensures Settled(HandleBatch(db, batch), p)
    {
      var k :| 0 <= k < |batch| && batch[k] == p;
      BatchSettles(db, batch, k);
    }
    SettledBatchIsIdle(HandleBatch(db, batch), replay);
  }

  /** How sales are cut into batches does not matter. */
  lemma {:induction false} BatchingIsIrrelevant(db: Db, a: seq<Payload>, b: seq<Payload>)
    ensures HandleBatch(db, a + b) == HandleBatch(HandleBatch(db, a), b)
  {
    if |b| == 0 {
      assert a + b == a;
    } else {
      assert (a + b)[..|a + b| - 1] == a + b[..|b| - 1];
      BatchingIsIrrelevant(db, a, b[..|b| - 1]);
    }
  }

  /** Failure notes decide nothing. */
  lemma HandlingIgnoresNotes(a: Db, b: Db, p: Payload)
    requires SameSales(a, b)
    ensures SameSales(HandleOne(a, p), HandleOne(b, p))
  {
    assert b == a.(failures := b.failures);
  }

  lemma {:induction false} BatchIgnoresNotes(a: Db, b: Db, batch: seq<Payload>)
    requires SameSales(a, b)
    ensures SameSales(HandleBatch(a, batch), HandleBatch(b, batch))
  {
    if |batch| > 0 {
      var init := batch[..|batch| - 1];
      BatchIgnoresNotes(a, b, init);
      HandlingIgnoresNotes(HandleBatch(a, init), HandleBatch(b, init), batch[|batch| - 1]);
    }
  }

  /** A worker that dies after `k` sales and sees the whole batch again. */
  lemma RedeliveryAfterCrash(db: Db, batch: seq<Payload>, k: nat)
    requires k <= |batch|
    ensures SameSales(HandleBatch(HandleBatch(db, batch[..k]), batch), HandleBatch(db, batch))
  {
    var done, rest := batch[..k], batch[k..];
    var mid := HandleBatch(db, done);
    assert batch == done + rest;
    BatchingIsIrrelevant(db, done, rest);
    BatchingIsIrrelevant(mid, done, rest);
    ReplayIsIdempotent(db, done, done);
    BatchIgnoresNotes(HandleBatch(mid, done), mid, rest);
  }

  /** The database after deliveries of one batch that were each cut short after some sales. */
  ghost function CutShort(db: Db, batch: seq<Payload>, cuts: seq<nat>): Db
    requires forall i | 0 <= i < |cuts| :: cuts[i] <= |batch|
  {
    if |cuts| == 0 then db
    else HandleBatch(CutShort(db, batch, cuts[..|cuts| - 1]), batch[..cuts[|cuts| - 1]])
  }

  /**
   At-least-once delivery: however many deliveries of a batch crash, wherever each of them does,
   the one that completes leaves the sales of a single undisturbed delivery.
   */
  lemma {:induction false} CrashesAreInvisible(db: Db, batch: seq<Payload>, cuts: seq<nat>)
    requires forall i | 0 <= i < |cuts| :: cuts[i] <= |batch|
    ensures SameSales(HandleBatch(CutShort(db, batch, cuts), batch), HandleBatch(db, batch))
  {
    if |cuts| > 0 {
      CrashesAreInvisible(db, batch, cuts[..|cuts| - 1]);
      RedeliveryAfterCrash(CutShort(db, batch, cuts[..|cuts| - 1]), batch, cuts[|cuts| - 1]);
    }
  }

  // ---- Over whole runs ----

  /**
   Once an offline identifier is stored it is never processed again: after any further run
   (voids, corrections, conflict resolutions, reconciliations, other deliveries) delivering any
   payload with that identifier changes no sale, even from another device or with other lines.
   */
  lemma NeverReapplied(db: Db, later: seq<Step>, p: Payload)
    requires UuidTaken(db.txs, p.uuid)
    ensures Apply(Run(db, later), Sync(p)) == Run(db, later)
    ensures SameSales(HandleOne(Run(db, later), p), Run(db, later))
  {
    var now := Run(db, later);
    RunEvolves(db, later);
    var t :| 0 <= t < |db.txs| && db.txs[t].uuid == Some(p.uuid);
    assert TxEvolves(db.txs[t], now.txs[t]);
    assert UuidTaken(now.txs, p.uuid);
  }

  /**
   Exactly-once effect. In every reachable state an offline identifier has at most one
   transaction; that transaction has exactly one payment; and the SALE rows written for it are
   one row per line when it was ever confirmed and none otherwise.
   */
  lemma ExactlyOnceEffect(db: Db, steps: seq<Step>, t: TxId)
    requires Initial(db) && t < |Run(db, steps).txs| && Run(db, steps).txs[t].uuid.Some?
    ensures
      var now := Run(db, steps);
      && (forall s: TxId | s < |now.txs| :: now.txs[s].uuid == now.txs[t].uuid ==> s == t)
      && (forall i | 0 <= i < |now.payments| :: now.payments[i].tx == t <==> i == t)
      && t < |now.payments|
      && SaleRows(RowsOf(now.ledger, Some(t))) ==
           if now.txs[t].confirmedAt then MovementRows(now.txs[t].items, t, SALE, Out) else []
  {
    RunKeeps(db, steps);
    ExpectedSaleRows(t, Run(db, steps).txs[t]);
  }

  lemma ExpectedSaleRows(t: TxId, tx: Transaction)
    requires tx.uuid.Some?
    ensures SaleRows(ExpectedRows(t, tx)) == if tx.confirmedAt then MovementRows(tx.items, t, SALE, Out) else []
  {
    var sale := if tx.confirmedAt then MovementRows(tx.items, t, SALE, Out) else [];
    var back := if Corrected(tx) then MovementRows(tx.items, t, CORRECTION, In) else [];
    SaleRowsAppend(sale, back);
    SaleRowsAll(sale);
    SaleRowsNone(back);
    assert sale + [] == sale;
  }

  /** The SALE rows of a list of ledger rows. */
  ghost function SaleRows(rows: seq<StockRow>): seq<StockRow>
  {
    if |rows| == 0 then []
    else
      var last := rows[|rows| - 1];
      SaleRows(rows[..|rows| - 1]) + if last.movement == SALE then [last] else []
  }

  lemma {:induction false} SaleRowsAppend(a: seq<StockRow>, b: seq<StockRow>)
    ensures SaleRows(a + b) == SaleRows(a) + SaleRows(b)
  {
    if |b| == 0 {
      assert a + b == a;
    } else {
      assert (a + b)[..|a + b| - 1] == a + b[..|b| - 1];
      SaleRowsAppend(a, b[..|b| - 1]);
    }
  }

  lemma {:induction false} SaleRowsAll(rows: seq<StockRow>)
    requires forall i | 0 <= i < |rows| :: rows[i].movement == SALE
    ensures SaleRows(rows) == rows
  {
    if |rows| > 0 {
      SaleRowsAll(rows[..|rows| - 1]);
    }
  }

  lemma {:induction false} SaleRowsNone(rows: seq<StockRow>)
    requires forall i | 0 <= i < |rows| :: rows[i].movement != SALE
    ensures SaleRows(rows) == []
  {
    if |rows| > 0 {
      SaleRowsNone(rows[..|rows| - 1]);
    }
  }

  /** The first stored payload wins: whatever follows, its row keeps its lines, total and hash. */
  lemma FirstPayloadWins(db: Db, p: Payload, later: seq<Step>)
    requires ProcessTransaction(db, p).Success?
    ensures
      var now := Run(Apply(db, Sync(p)), later);
      var t := |db.txs|;
      && t < |now.txs| && now.txs[t].uuid == Some(p.uuid) && now.txs[t].device == p.device
      && now.txs[t].items == p.items && now.txs[t].total == p.total && now.txs[t].hash == p.hash
  {
    var stored := Apply(db, Sync(p));
    RunEvolves(stored, later);
    assert TxEvolves(stored.txs[|db.txs|], Run(stored, later).txs[|db.txs|]);
  }

  /** Every stored synced sale adds up, in every reachable state. */
  lemma StoredSalesAddUp(db: Db, steps: seq<Step>, t: TxId)
    requires Initial(db) && t < |Run(db, steps).txs| && Run(db, steps).txs[t].uuid.Some?
    ensures
      var tx := Run(db, steps).txs[t];
      tx.total == tx.subtotal == Priced(tx.items)
  {
    RunKeeps(db, steps);
    var now := Run(db, steps);
    assert RowOk(now.devices, now.stock, now.txs[t]);
    PricedIsSubtotal(now.txs[t].items);
  }

  ghost function Priced(items: seq<Item>): int
  {
    if |items| == 0 then 0
    else Priced(items[..|items| - 1]) + items[|items| - 1].quantity * items[|items| - 1].unitPrice
  }

  lemma {:induction false} PricedIsSubtotal(items: seq<Item>)
    requires LinesAddUp(items)
    ensures Priced(items) == SubtotalSum(items)
  {
    if |items| > 0 {
      PricedIsSubtotal(items[..|items| - 1]);
    }
  }
}
