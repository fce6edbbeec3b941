/**
 The owner operations read and check a row before their database transaction and take no lock.
 Here each write is applied to a database in which the check may no longer hold. For each write
 one condition on the row says exactly when the whole invariant of reachable states survives
 (`VoidKeepsIff` to `OpenKeepsIff`); the other lemmas say what breaks: conservation per product,
 the single deduction, the single edge out of a row, the single history.
 */
module Races {
  import opened Schema
  import opened Ledger
  import opened Operations
  import opened Invariants
  import opened Conservation
  import opened Evolution
  import opened ExactlyOnce
  import opened Chains

  lemma {:induction false} SoldUpdate(txs: seq<Transaction>, t: TxId, tx: Transaction, p: ProductId)
    requires t < |txs|
    ensures Sold(txs[t := tx], p) == Sold(txs, p)
              - (if GoodsLeft(txs[t]) then ItemQty(txs[t].items, p) else 0)
              + (if GoodsLeft(tx) then ItemQty(tx.items, p) else 0)
  {
    var n := |txs| - 1;
    if t < n {
      assert txs[t := tx][..n] == txs[..n][t := tx];
      SoldUpdate(txs[..n], t, tx, p);
    } else {
      assert txs[t := tx][..n] == txs[..n];
    }
  }

  lemma SoldAfterCorrection(txs: seq<Transaction>, t: TxId, dto: CorrectDto, p: ProductId)
    requires t < |txs|
    ensures Sold(WithReplacement(txs, t, dto), p) == Sold(txs, p) + ItemQty(dto.items, p)
              - (if GoodsLeft(txs[t]) then ItemQty(txs[t].items, p) else 0)
  {
    var voided := Superseded(txs[t], |txs|);
    SoldUpdate(txs, t, voided, p);
    assert WithReplacement(txs, t, dto)[..|txs|] == txs[t := voided];
  }

  // ---- Voiding, resolving, adjusting ----

  /** A late void breaks conservation exactly when the goods have left in the meantime. */
  lemma RacedVoid(opening: map<ProductId, int>, db: Db, t: TxId, p: ProductId)
    requires Conserved(opening, db, p) && t < |db.txs|
    ensures Conserved(opening, VoidBody(db, t), p) <==> (!GoodsLeft(db.txs[t]) || ItemQty(db.txs[t].items, p) == 0)
  {
    SoldUpdate(db.txs, t, VoidBody(db, t).txs[t], p);
  }

  /** So does a late resolution, whether it voids the sale or confirms it once more. */
  lemma RacedResolve(opening: map<ProductId, int>, db: Db, t: TxId, action: Action, p: ProductId)
    requires Conserved(opening, db, p) && t < |db.txs| && ResolveBody(db, t, action).Success?
    ensures Conserved(opening, ResolveBody(db, t, action).value, p) <==>
              (!GoodsLeft(db.txs[t]) || ItemQty(db.txs[t].items, p) == 0)
  {
    var after := ResolveBody(db, t, action).value;
    SoldUpdate(db.txs, t, after.txs[t], p);
    RowsOfAppend(db.ledger, MovementRows(db.txs[t].items, t, SALE, Out), Some(t), None);
  }

  lemma ConfirmedRowsMove(ledger: seq<StockRow>, items: seq<Item>, t: TxId, p: ProductId)
    ensures LedgerSum(RowsOf(ledger + MovementRows(items, t, SALE, Out), Some(t)), p) ==
              LedgerSum(RowsOf(ledger, Some(t)), p) - ItemQty(items, p)
  {
    var rows := MovementRows(items, t, SALE, Out);
    RowsOfAppend(ledger, rows, Some(t), Some(t));
    LedgerSumAppend(RowsOf(ledger, Some(t)), rows, p);
    MovementRowsSum(items, t, SALE, Out, p);
  }

  lemma ConfirmedOnceMore(db: Db, t: TxId, p: ProductId)
    requires t < |db.txs| && ProductsKnown(db.stock, db.txs[t].items) && p in db.stock
    ensures ResolveBody(db, t, CONFIRM).Success?
    ensures
      var after := ResolveBody(db, t, CONFIRM).value;
      && after.stock.Keys == db.stock.Keys && |after.txs| == |db.txs| && after.txs[t].items == db.txs[t].items
      && after.stock[p] == db.stock[p] - ItemQty(db.txs[t].items, p)
      && NetMovement(after, t, p) == NetMovement(db, t, p) - ItemQty(db.txs[t].items, p)
  {
    ConfirmedRowsMove(db.ledger, db.txs[t].items, t, p);
  }

  /**
   Two confirmations that both pass the check deduct the sale twice, in stock and in the ledger;
   `DeductedOnceIff` has the exact condition.
   */
  lemma TwiceConfirmed(db: Db, t: TxId, p: ProductId)
    requires t < |db.txs| && ProductsKnown(db.stock, db.txs[t].items) && p in db.stock
    ensures ResolveBody(db, t, CONFIRM).Success? && ResolveBody(ResolveBody(db, t, CONFIRM).value, t, CONFIRM).Success?
    ensures
      var after := ResolveBody(ResolveBody(db, t, CONFIRM).value, t, CONFIRM).value;
      && after.stock[p] == db.stock[p] - 2 * ItemQty(db.txs[t].items, p)
      && NetMovement(after, t, p) == NetMovement(db, t, p) - 2 * ItemQty(db.txs[t].items, p)
  {
    ConfirmedOnceMore(db, t, p);
    ConfirmedOnceMore(ResolveBody(db, t, CONFIRM).value, t, p);
  }

  /**
   A late adjustment never breaks conservation; what it can break is its own guard: two that both
   passed it leave non-negative stock exactly when their sum would have passed it.
   */
  lemma TwiceAdjusted(opening: map<ProductId, int>, db: Db, id: ProductId, first: int, second: int)
    requires Conserved(opening, db, id)
    requires AdjustStock(db, id, first).Success? && AdjustStock(db, id, second).Success?
    ensures
      var after := AdjustBody(AdjustStock(db, id, first).value, id, second);
      && Conserved(opening, after, id)
      && (after.stock[id] >= 0 <==> AdjustStock(db, id, first + second).Success?)
  {
    var row1, row2 := StockRow(id, None, ADJUSTMENT, first), StockRow(id, None, ADJUSTMENT, second);
    RowsOfOne(db.ledger, row1, None);
    RowsOfOne(db.ledger + [row1], row2, None);
    LedgerSumOne(RowsOf(db.ledger, None), row1, id);
    LedgerSumOne(RowsOf(db.ledger, None) + [row1], row2, id);
  }

  // ---- Reconciliation ----

  /** A late opening keeps one open case per payment exactly when none was opened meanwhile. */
  lemma RacedOpening(db: Db, pay: PaymentId)
    requires CaseInv(db.payments, db.cases) && pay < |db.payments|
    ensures CaseInv(db.payments, db.cases + [Case(pay, OPEN)]) <==> !HasOpenCase(db.cases, pay)
  {
    var after := db.cases + [Case(pay, OPEN)];
    if HasOpenCase(db.cases, pay) {
      var c :| 0 <= c < |db.cases| && db.cases[c].payment == pay && db.cases[c].status == OPEN;
      assert after[c].payment == after[|db.cases|].payment && after[c].status == OPEN && after[|db.cases|].status == OPEN;
    }
  }

  /**
   Closing a case as invalid judges the sale by the status read before. If the sale was corrected
   meanwhile, its row then reads as if the goods had left although they came back.
   */
  lemma RacedClosing(opening: map<ProductId, int>, db: Db, t: TxId, p: ProductId)
    requires Inv(opening, db) && t < |db.txs| && p in db.stock
    ensures
      var tx := db.txs[t].(status := VOIDED, voidReason := Some(ByInvalidPayment));
      Conserved(opening, db.(txs := db.txs[t := tx]), p) <==> (!Corrected(db.txs[t]) || ItemQty(db.txs[t].items, p) == 0)
  {
    InvConserves(opening, db, p);
    assert RowOk(db.devices, db.stock, db.txs[t]);
    SoldUpdate(db.txs, t, db.txs[t].(status := VOIDED, voidReason := Some(ByInvalidPayment)), p);
  }

  // ---- The whole invariant ----

  /** A late void keeps the invariant exactly when the sale has never been confirmed. */
  lemma VoidKeepsIff(opening: map<ProductId, int>, db: Db, t: TxId)
    requires Inv(opening, db) && t < |db.txs|
    ensures Inv(opening, VoidBody(db, t)) <==> !db.txs[t].confirmedAt
  {
    var tx := db.txs[t].(status := VOIDED, voidReason := Some(ByOwner));
    assert RowOk(db.devices, db.stock, db.txs[t]);
    if db.txs[t].confirmedAt {
      BadRowBreaks(opening, VoidBody(db, t), t);
    } else {
      RowChangeKeeps(opening, db, t, tx);
    }
  }

  lemma BadRowBreaks(opening: map<ProductId, int>, db: Db, t: TxId)
    requires t < |db.txs| && !StatusOk(db.txs[t])
    ensures !Inv(opening, db)
  {
    assert !RowOk(db.devices, db.stock, db.txs[t]);
  }

  /** Voiding a conflict late keeps the invariant exactly when the sale has never been confirmed. */
  lemma ResolveVoidKeepsIff(opening: map<ProductId, int>, db: Db, t: TxId)
    requires Inv(opening, db) && t < |db.txs|
    ensures Inv(opening, ResolveBody(db, t, VOID).value) <==> !db.txs[t].confirmedAt
  {
    var tx := db.txs[t].(status := VOIDED, sync := SYNCED, voidReason := Some(ByConflictResolution));
    assert RowOk(db.devices, db.stock, db.txs[t]);
    if db.txs[t].confirmedAt {
      BadRowBreaks(opening, ResolveBody(db, t, VOID).value, t);
    } else {
      RowChangeKeeps(opening, db, t, tx);
    }
  }

  /** Writing rows nobody calls for breaks the ledger part. */
  lemma SurplusRowsBreak(txs: seq<Transaction>, txs': seq<Transaction>, ledger: seq<StockRow>, rows: seq<StockRow>, t: TxId)
    requires LedgerInv(txs, ledger) && t < |txs| && t < |txs'|
    requires AllBy(rows, Some(t)) && rows != [] && ExpectedRows(t, txs'[t]) == ExpectedRows(t, txs[t])
    ensures !LedgerInv(txs', ledger + rows)
  {
    RowsOfAppend(ledger, rows, Some(t), Some(t));
    assert RowsOf(ledger + rows, Some(t)) != ExpectedRows(t, txs'[t]);
  }

  /**
   Confirming late keeps the invariant exactly when the sale has never been confirmed, or has no
   lines and was not corrected: otherwise its rows are written once more, or a superseded version
   comes back to life.
   */
  lemma ResolveConfirmKeepsIff(opening: map<ProductId, int>, db: Db, t: TxId)
    requires Inv(opening, db) && t < |db.txs| && ResolveBody(db, t, CONFIRM).Success?
    ensures Inv(opening, ResolveBody(db, t, CONFIRM).value) <==>
              !db.txs[t].confirmedAt || (db.txs[t].items == [] && !Corrected(db.txs[t]))
  {
    var after := ResolveBody(db, t, CONFIRM).value;
    if !db.txs[t].confirmedAt {
      ConfirmKeeps(opening, db, t);
    } else if Corrected(db.txs[t]) {
      BadRowBreaks(opening, after, t);
    } else if db.txs[t].items == [] {
      NothingToConfirm(opening, db, t);
    } else {
      SurplusRowsBreak(db.txs, after.txs, db.ledger, MovementRows(db.txs[t].items, t, SALE, Out), t);
    }
  }

  lemma NothingToConfirm(opening: map<ProductId, int>, db: Db, t: TxId)
    requires Inv(opening, db) && t < |db.txs|
    requires db.txs[t].confirmedAt && !Corrected(db.txs[t]) && db.txs[t].items == []
    ensures ResolveBody(db, t, CONFIRM).Success? && Inv(opening, ResolveBody(db, t, CONFIRM).value)
  {
    assert RowOk(db.devices, db.stock, db.txs[t]);
    ConfirmsNoLines(db, t);
    ConfirmedRowIsOk(db.devices, db.stock, t, db.txs[t]);
    RowChangeKeeps(opening, db, t, db.txs[t].(status := CONFIRMED, sync := SYNCED, confirmedAt := true));
  }

  lemma ConfirmsNoLines(db: Db, t: TxId)
    requires t < |db.txs| && db.txs[t].items == []
    ensures ResolveBody(db, t, CONFIRM) ==
              Success(db.(txs := db.txs[t := db.txs[t].(status := CONFIRMED, sync := SYNCED, confirmedAt := true)]))
  {
    assert Shift(db.stock, [], Out) == db.stock;
    assert db.ledger + MovementRows([], t, SALE, Out) == db.ledger;
  }

  lemma ConfirmedRowIsOk(devices: set<DeviceId>, stock: map<ProductId, int>, t: TxId, prior: Transaction)
    requires RowOk(devices, stock, prior) && prior.confirmedAt && !Corrected(prior)
    ensures
      var tx := prior.(status := CONFIRMED, sync := SYNCED, confirmedAt := true);
      RowOk(devices, stock, tx) && ExpectedRows(t, tx) == ExpectedRows(t, prior)
  {
  }

  /** The two ways of resolving together, for the whole invariant and for the stock of each product. */
  lemma ResolveKeepsIff(opening: map<ProductId, int>, db: Db, t: TxId, action: Action)
    requires Inv(opening, db) && t < |db.txs| && ResolveBody(db, t, action).Success?
    ensures Inv(opening, ResolveBody(db, t, action).value) <==>
              !db.txs[t].confirmedAt || (action == CONFIRM && db.txs[t].items == [] && !Corrected(db.txs[t]))
    ensures forall p | p in db.stock ::
              Conserved(opening, ResolveBody(db, t, action).value, p) <==>
                (!GoodsLeft(db.txs[t]) || ItemQty(db.txs[t].items, p) == 0)
  {
    forall p | p in db.stock
      ensures Conserved(opening, ResolveBody(db, t, action).value, p) <==>
                (!GoodsLeft(db.txs[t]) || ItemQty(db.txs[t].items, p) == 0)
    {
      InvConserves(opening, db, p);
      RacedResolve(opening, db, t, action, p);
    }
    if action == VOID {
      ResolveVoidKeepsIff(opening, db, t);
    } else {
      ResolveConfirmKeepsIff(opening, db, t);
    }
  }

  lemma SaleRowsAfter(ledger: seq<StockRow>, t: TxId, tx: Transaction)
    requires tx.uuid.Some? && RowsOf(ledger, Some(t)) == ExpectedRows(t, tx)
    ensures
      var rows := MovementRows(tx.items, t, SALE, Out);
      SaleRows(RowsOf(ledger + rows, Some(t))) == (if tx.confirmedAt then rows else []) + rows
  {
    var rows := MovementRows(tx.items, t, SALE, Out);
    RowsOfAppend(ledger, rows, Some(t), Some(t));
    ExpectedSaleRows(t, tx);
    SaleRowsAppend(ExpectedRows(t, tx), rows);
    SaleRowsAll(rows);
  }

  /** A late confirmation of a synced sale leaves one set of SALE rows exactly when it was the first. */
  lemma DeductedOnceIff(opening: map<ProductId, int>, db: Db, t: TxId)
    requires Inv(opening, db) && t < |db.txs| && db.txs[t].uuid.Some? && ResolveBody(db, t, CONFIRM).Success?
    ensures SaleRows(RowsOf(ResolveBody(db, t, CONFIRM).value.ledger, Some(t))) == MovementRows(db.txs[t].items, t, SALE, Out) <==>
              !db.txs[t].confirmedAt || db.txs[t].items == []
  {
    assert RowsOf(db.ledger, Some(t)) == ExpectedRows(t, db.txs[t]);
    SaleRowsAfter(db.ledger, t, db.txs[t]);
    NoneOrTwice(MovementRows(db.txs[t].items, t, SALE, Out), db.txs[t].confirmedAt);
  }

  lemma NoneOrTwice(rows: seq<StockRow>, before: bool)
    ensures (if before then rows else []) + rows == rows <==> !before || rows == []
  {
    if before && rows != [] {
      assert |rows + rows| != |rows|;
    } else {
      assert [] + rows == rows;
    }
  }

  /** A late correction keeps the invariant exactly when the goods of the sale are with the customer. */
  lemma CorrectKeepsIff(opening: map<ProductId, int>, db: Db, t: TxId, dto: CorrectDto)
    requires Inv(opening, db) && t < |db.txs| && CorrectionBody(db, t, dto).Success?
    ensures Inv(opening, CorrectionBody(db, t, dto).value) <==> GoodsLeft(db.txs[t])
  {
    var after := CorrectionBody(db, t, dto).value;
    assert RowOk(db.devices, db.stock, db.txs[t]);
    if GoodsLeft(db.txs[t]) {
      CorrectKeeps(opening, db, t, dto);
    } else if !db.txs[t].confirmedAt {
      BadRowBreaks(opening, after, t);
    } else {
      SecondEdgeBreaks(db.txs, db.corrections, after.txs, after.corrections, t);
    }
  }

  /** A corrected row cannot point at two replacements. */
  lemma SecondEdgeBreaks(txs: seq<Transaction>, corrections: seq<Correction>,
                         txs': seq<Transaction>, corrections': seq<Correction>, t: TxId)
    requires ChainInv(txs, corrections) && t < |txs| && Corrected(txs[t]) && t < |txs'|
    requires corrections <= corrections' && txs'[t].voidReason != txs[t].voidReason
    ensures !ChainInv(txs', corrections')
  {
    var i :| 0 <= i < |corrections| && corrections[i] == Correction(t, txs[t].voidReason.value.newId);
    assert !EdgeOk(txs', corrections'[i]);
  }

  /** An adjustment keeps the invariant however late it comes. */
  lemma AdjustKeepsAlways(opening: map<ProductId, int>, db: Db, id: ProductId, quantity: int)
    requires Inv(opening, db) && id in db.stock
    ensures Inv(opening, AdjustBody(db, id, quantity))
  {
    AdjustKeeps(opening, db, id, quantity);
  }

  /** Opening a case late keeps the invariant exactly when no case of the payment is open. */
  lemma OpenKeepsIff(opening: map<ProductId, int>, db: Db, pay: PaymentId)
    requires Inv(opening, db) && pay < |db.payments|
    ensures Inv(opening, db.(cases := db.cases + [Case(pay, OPEN)])) <==> !HasOpenCase(db.cases, pay)
  {
    RacedOpening(db, pay);
  }

  /** Fit to be voided for an invalid payment: in conflict, or confirmed at some time, and not corrected. */
  ghost predicate MayBeInvalidated(tx: Transaction)
  {
    !Corrected(tx) && (tx.sync == SYNC_CONFLICT || tx.confirmedAt)
  }

  lemma InvalidateKeepsIff(opening: map<ProductId, int>, db: Db, t: TxId)
    requires Inv(opening, db) && t < |db.txs|
    ensures Inv(opening, db.(txs := VoidForInvalidPayment(db.txs, t, CONFIRMED))) <==> MayBeInvalidated(db.txs[t])
  {
    var tx := db.txs[t].(status := VOIDED, voidReason := Some(ByInvalidPayment));
    var after := db.(txs := db.txs[t := tx]);
    assert RowOk(db.devices, db.stock, db.txs[t]);
    if Corrected(db.txs[t]) {
      SecondEdgeBreaks(db.txs, db.corrections, after.txs, db.corrections, t);
    } else if StatusOk(tx) {
      RowChangeKeeps(opening, db, t, tx);
    } else {
      BadRowBreaks(opening, after, t);
    }
  }

  /**
   A late verdict. The case itself only ever changes once exactly if it was still open or already
   bore this verdict; and the invariant survives exactly if the sale is left alone or may be
   voided.
   */
  lemma CloseKeepsIff(opening: map<ProductId, int>, db: Db, c: CaseId, valid: bool, seen: TransactionStatus)
    requires Inv(opening, db) && c < |db.cases|
    ensures CloseBody(db, c, valid, seen).Success? && db.cases[c].payment < |db.txs|
    ensures
      var after := CloseBody(db, c, valid, seen).value;
      && (CaseEvolves(db.cases[c], after.cases[c]) <==> db.cases[c].status == OPEN || db.cases[c].status == Verdict(valid))
      && (Inv(opening, after) <==> valid || seen == VOIDED || MayBeInvalidated(db.txs[db.cases[c].payment]))
  {
    var after := CloseBody(db, c, valid, seen).value;
    assert CaseInv(after.payments, after.cases) && |after.payments| == |db.payments| by {
      if !valid {
        CaseCloses(db.payments, db.cases, c);
      }
    }
    CasesApart(opening, db.(txs := after.txs), after);
    if !valid && seen != VOIDED {
      InvalidateKeepsIff(opening, db, db.cases[c].payment);
      assert after.txs == VoidForInvalidPayment(db.txs, db.cases[c].payment, CONFIRMED);
    } else {
      assert db.(txs := after.txs) == db;
    }
  }

  /** Whether the rest of the invariant holds does not depend on statuses of payments and cases. */
  lemma CasesApart(opening: map<ProductId, int>, a: Db, b: Db)
    requires b == a.(payments := b.payments, cases := b.cases)
    requires CaseInv(a.payments, a.cases) && CaseInv(b.payments, b.cases)
    requires |a.payments| == |b.payments| && forall i | 0 <= i < |a.payments| :: b.payments[i].tx == a.payments[i].tx
    ensures Inv(opening, a) <==> Inv(opening, b)
  {
    assert PaymentInv(a.txs, a.payments) <==> PaymentInv(b.txs, b.payments) by {
      assert forall i | 0 <= i < |a.payments| :: (a.payments[i].tx == i) == (b.payments[i].tx == i);
    }
  }

  // ---- Correction ----

  /**
   `correctTransaction` reads the status before its database transaction and takes no lock. If
   the row has been voided by the time the body runs, the body still succeeds; conservation then
   survives for a product exactly when the goods were still with the customer (the row was
   voided for an invalid payment) or the old sale did not contain the product.
   */
  lemma RacedCorrection(opening: map<ProductId, int>, db: Db, t: TxId, dto: CorrectDto, p: ProductId)
    requires Conserved(opening, db, p) && t < |db.txs|
    requires CorrectionBody(db, t, dto).Success?
    ensures Conserved(opening, CorrectionBody(db, t, dto).value, p) <==>
              (GoodsLeft(db.txs[t]) || ItemQty(db.txs[t].items, p) == 0)
  {
    SoldAfterCorrection(db.txs, t, dto, p);
    CorrectionWritesNoManualRow(db.ledger, db.txs[t].items, t, dto.items, |db.txs|);
    assert CorrectionBody(db, t, dto).value.txs == WithReplacement(db.txs, t, dto);
  }

  /** Two corrections that both pass the check before either body runs. */
  ghost function BothBodies(db: Db, t: TxId, first: CorrectDto, second: CorrectDto): Result<Db>
    requires t < |db.txs|
  {
    match CorrectionBody(db, t, first)
    case Failure(e) => Failure(e)
    case Success(mid) => CorrectionBody(mid, t, second)
  }

  /**
   Then the sale is corrected twice: two edges leave it, both replacements are CONFIRMED, and
   its quantities come back into stock twice.
   */
  lemma TwiceCorrected(db: Db, t: TxId, first: CorrectDto, second: CorrectDto, p: ProductId)
    requires t < |db.txs| && db.txs[t].status == CONFIRMED && p in db.stock
    requires ProductsKnown(db.stock, db.txs[t].items)
    requires ProductsKnown(db.stock, first.items) && ProductsKnown(db.stock, second.items)
    ensures BothBodies(db, t, first, second).Success?
    ensures
      var db' := BothBodies(db, t, first, second).value;
      var n := |db.txs|;
      && db'.corrections == db.corrections + [Correction(t, n), Correction(t, n + 1)]
      && db'.txs[n].status == CONFIRMED && db'.txs[n + 1].status == CONFIRMED
      && db'.stock[p] == db.stock[p] + 2 * ItemQty(db.txs[t].items, p)
                           - ItemQty(first.items, p) - ItemQty(second.items, p)
  {
    var mid := CorrectionBody(db, t, first).value;
    assert mid.txs[t].items == db.txs[t].items;
    assert mid.corrections + [Correction(t, |mid.txs|)] ==
           db.corrections + [Correction(t, |db.txs|), Correction(t, |db.txs| + 1)];
  }

  ghost predicate Within(corrections: seq<Correction>, n: nat)
  {
    Ascending(corrections) && forall i | 0 <= i < |corrections| :: corrections[i].newId < n
  }

  /** An edge leads out of a row exactly if the row says it was corrected. */
  lemma HasNextIffCorrected(txs: seq<Transaction>, corrections: seq<Correction>, t: TxId)
    requires ChainInv(txs, corrections) && t < |txs|
    ensures HasNext(corrections, t) <==> Corrected(txs[t])
    ensures Within(corrections, |txs|)
  {
    forall i | 0 <= i < |corrections|
      ensures corrections[i].oldId < corrections[i].newId < |txs|
      ensures corrections[i].oldId == t ==> Corrected(txs[t])
    {
      assert EdgeOk(txs, corrections[i]);
    }
    if Corrected(txs[t]) {
      var i :| 0 <= i < |corrections| && corrections[i] == Correction(t, txs[t].voidReason.value.newId);
    }
  }

  /** One more edge, out of `t` to a fresh row. */
  lemma EdgeAdded(corrections: seq<Correction>, t: TxId, n: nat)
    requires OneInOneOut(corrections) && Within(corrections, n) && t < n
    ensures
      var after := corrections + [Correction(t, n)];
      && Within(after, n + 1) && OneIn(after)
      && (OneOut(after) <==> !HasNext(corrections, t))
  {
    var after := corrections + [Correction(t, n)];
    if HasNext(corrections, t) {
      var i :| 0 <= i < |corrections| && corrections[i].oldId == t;
      assert after[i].oldId == after[|corrections|].oldId;
    }
  }

  /**
   The edges after a late correction: at most one out of each row exactly if the row was not
   corrected meanwhile.
   */
  lemma RacedEdges(opening: map<ProductId, int>, db: Db, t: TxId, dto: CorrectDto)
    requires Inv(opening, db) && t < |db.txs| && CorrectionBody(db, t, dto).Success?
    ensures OneOut(CorrectionBody(db, t, dto).value.corrections) <==> !Corrected(db.txs[t])
    ensures OneInOneOut(CorrectionBody(db, t, dto).value.corrections) <==> !Corrected(db.txs[t])
  {
    EdgesAreUnique(db.txs, db.corrections);
    HasNextIffCorrected(db.txs, db.corrections, t);
    EdgeAdded(db.corrections, t, |db.txs|);
  }

  /** Every row has one history: complete chains that share a row are the same list. */
  ghost predicate HistoriesAgree(txs: seq<Transaction>, corrections: seq<Correction>)
  {
    forall a, b, s | IsChain(txs, corrections, a) && IsChain(txs, corrections, b) && s in a && s in b :: a == b
  }

  lemma LinkedJoin(corrections: seq<Correction>, a: seq<TxId>, b: seq<TxId>)
    requires Linked(corrections, a) && Linked(corrections, b) && a != [] && b != []
    requires Correction(a[|a| - 1], b[0]) in corrections
    ensures Linked(corrections, a + b)
  {
    forall i | 0 <= i < |a + b| - 1
      ensures Correction((a + b)[i], (a + b)[i + 1]) in corrections
    {
      if i < |a| - 1 {
        assert Correction(a[i], a[i + 1]) in corrections;
      } else if i >= |a| {
        assert Correction(b[i - |a|], b[i - |a| + 1]) in corrections;
      }
    }
  }

  /** From any row some path leads back to a row that corrects nothing. */
  lemma {:induction false} PathBack(corrections: seq<Correction>, n: nat, t: TxId) returns (path: seq<TxId>)
    requires Within(corrections, n) && t < n
    ensures path != [] && path[|path| - 1] == t && Linked(corrections, path) && !HasPrevious(corrections, path[0])
    ensures forall i | 0 <= i < |path| :: path[i] < n
    decreases t
  {
    if HasPrevious(corrections, t) {
      var i :| 0 <= i < |corrections| && corrections[i].newId == t;
      var before := PathBack(corrections, n, corrections[i].oldId);
      assert Correction(before[|before| - 1], t) == corrections[i];
      LinkedJoin(corrections, before, [t]);
      path := before + [t];
    } else {
      path := [t];
    }
  }

  /** And some path leads forward to a row that is not corrected. */
  lemma {:induction false} PathForward(corrections: seq<Correction>, n: nat, t: TxId) returns (path: seq<TxId>)
    requires Within(corrections, n) && t < n
    ensures path != [] && path[0] == t && Linked(corrections, path) && !HasNext(corrections, path[|path| - 1])
    ensures forall i | 0 <= i < |path| :: path[i] < n
    decreases n - t
  {
    if HasNext(corrections, t) {
      var i :| 0 <= i < |corrections| && corrections[i].oldId == t;
      var rest := PathForward(corrections, n, corrections[i].newId);
      assert Correction(t, rest[0]) == corrections[i];
      LinkedJoin(corrections, [t], rest);
      path := [t] + rest;
    } else {
      path := [t];
    }
  }

  lemma ForkedChain(txs: seq<Transaction>, corrections: seq<Correction>, t: TxId, r: TxId) returns (path: seq<TxId>, at: nat)
    requires Within(corrections, |txs|) && Correction(t, r) in corrections
    ensures IsChain(txs, corrections, path) && at + 1 < |path| && path[at] == t && path[at + 1] == r
  {
    var i :| 0 <= i < |corrections| && corrections[i] == Correction(t, r);
    assert corrections[i].oldId < corrections[i].newId < |txs|;
    var back := PathBack(corrections, |txs|, t);
    var forth := PathForward(corrections, |txs|, r);
    LinkedJoin(corrections, back, forth);
    path, at := back + forth, |back| - 1;
  }

  /** Two edges out of one row give it two different histories. */
  lemma ForkBreaksHistories(txs: seq<Transaction>, corrections: seq<Correction>, t: TxId, r: TxId, n: TxId)
    requires Within(corrections, |txs|) && r != n
    requires Correction(t, r) in corrections && Correction(t, n) in corrections
    ensures !HistoriesAgree(txs, corrections)
  {
    var a, i := ForkedChain(txs, corrections, t, r);
    var b, j := ForkedChain(txs, corrections, t, n);
    assert t in a && t in b;
    if a == b {
      if i < j {
        ChainIncreases(corrections, a, i, j);
        assert false;
      } else if j < i {
        ChainIncreases(corrections, a, j, i);
        assert false;
      }
    }
  }

  lemma ForestsAgree(txs: seq<Transaction>, corrections: seq<Correction>)
    requires OneInOneOut(corrections)
    ensures HistoriesAgree(txs, corrections)
  {
    forall a, b, s | IsChain(txs, corrections, a) && IsChain(txs, corrections, b) && s in a && s in b
      ensures a == b
    {
      ChainsAreDisjoint(txs, corrections, a, b, s);
    }
  }

  lemma HistoriesAfter(txs: seq<Transaction>, corrections: seq<Correction>, t: TxId, txs': seq<Transaction>)
    requires ChainInv(txs, corrections) && t < |txs| && |txs'| == |txs| + 1
    ensures HistoriesAgree(txs', corrections + [Correction(t, |txs|)]) <==> !Corrected(txs[t])
  {
    var after := corrections + [Correction(t, |txs|)];
    EdgesAreUnique(txs, corrections);
    HasNextIffCorrected(txs, corrections, t);
    EdgeAdded(corrections, t, |txs|);
    if Corrected(txs[t]) {
      var r := txs[t].voidReason.value.newId;
      assert Correction(t, r) in corrections;
      EdgeIsOk(txs, corrections, Correction(t, r));
      assert after[|corrections|] == Correction(t, |txs|);
      ForkBreaksHistories(txs', after, t, r, |txs|);
    } else {
      ForestsAgree(txs', after);
    }
  }

  /**
   After a late correction every row still has one history exactly if the row was not corrected
   meanwhile; otherwise which of the two the endpoint shows is not determined.
   */
  lemma RacedHistory(opening: map<ProductId, int>, db: Db, t: TxId, dto: CorrectDto)
    requires Inv(opening, db) && t < |db.txs| && CorrectionBody(db, t, dto).Success?
    ensures HistoriesAgree(CorrectionBody(db, t, dto).value.txs, CorrectionBody(db, t, dto).value.corrections) <==>
              !Corrected(db.txs[t])
  {
    HistoriesAfter(db.txs, db.corrections, t, CorrectionBody(db, t, dto).value.txs);
  }
}
