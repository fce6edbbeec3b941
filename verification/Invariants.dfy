/**
 What holds in every reachable state, table by table, and the proof that every step keeps it.
 The ledger part is exact: the rows written for a transaction are a function of its header and
 lines, so stock, ledger, statuses and correction edges cannot drift apart.
 */
module Invariants {
  import opened Schema
  import opened Ledger
  import opened Operations

  ghost predicate Corrected(tx: Transaction)
  {
    tx.voidReason.Some? && tx.voidReason.value.ByCorrection?
  }

  /** The goods of this sale are with the customer. */
  ghost predicate GoodsLeft(tx: Transaction)
  {
    tx.status == CONFIRMED ||
    (tx.status == VOIDED && tx.voidReason == Some(ByInvalidPayment) && tx.confirmedAt)
  }

  /** The four reachable pairs of statuses, each with what else is known of the row. */
  ghost predicate StatusOk(tx: Transaction)
  {
    && (tx.uuid.None? ==> tx.confirmedAt)
    && match (tx.status, tx.sync) {
         case (PENDING, SYNC_CONFLICT) => !tx.confirmedAt && tx.voidReason.None?
         case (CONFIRMED, SYNCED) => tx.confirmedAt && !Corrected(tx)
         case (VOIDED, SYNCED) =>
           tx.voidReason.Some? && (tx.confirmedAt <==> Corrected(tx) || tx.voidReason.value == ByInvalidPayment)
         case (VOIDED, SYNC_CONFLICT) =>
           !tx.confirmedAt && tx.voidReason in {Some(ByOwner), Some(ByInvalidPayment)}
         case _ => false
       }
  }

  ghost predicate SaleAddsUp(tx: Transaction)
  {
    LinesAddUp(tx.items) && SubtotalSum(tx.items) == tx.subtotal == tx.total
  }

  ghost predicate RowOk(devices: set<DeviceId>, stock: map<ProductId, int>, tx: Transaction)
  {
    && StatusOk(tx)
    && tx.device in devices
    && ProductsKnown(stock, tx.items)
    && (tx.uuid.Some? ==> SaleAddsUp(tx))
  }

  ghost predicate TxInv(devices: set<DeviceId>, stock: map<ProductId, int>, txs: seq<Transaction>)
  {
    && (forall t | 0 <= t < |txs| :: RowOk(devices, stock, txs[t]))
    && (forall s, t | 0 <= s < t < |txs| :: txs[s].uuid.Some? ==> txs[s].uuid != txs[t].uuid)
  }

  /** Exactly the ledger rows a transaction has caused, judging by its header and lines. */
  ghost function ExpectedRows(t: TxId, tx: Transaction): seq<StockRow>
  {
    (if tx.confirmedAt then MovementRows(tx.items, t, if tx.uuid.Some? then SALE else CORRECTION, Out) else []) +
    (if Corrected(tx) then MovementRows(tx.items, t, CORRECTION, In) else [])
  }

  ghost predicate LedgerInv(txs: seq<Transaction>, ledger: seq<StockRow>)
  {
    && (forall i | 0 <= i < |ledger| :: ledger[i].tx.Some? ==> ledger[i].tx.value < |txs|)
    && (forall i | 0 <= i < |ledger| :: ledger[i].tx.None? ==> ledger[i].movement == ADJUSTMENT)
    && (forall t: TxId | t < |txs| :: RowsOf(ledger, Some(t)) == ExpectedRows(t, txs[t]))
  }

  ghost function Opening(opening: map<ProductId, int>, p: ProductId): int
  {
    if p in opening then opening[p] else 0
  }

  ghost predicate StockInv(opening: map<ProductId, int>, stock: map<ProductId, int>, ledger: seq<StockRow>)
  {
    && opening.Keys <= stock.Keys
    && (forall i | 0 <= i < |ledger| :: ledger[i].product in stock)
    && (forall p | p in stock :: stock[p] == Opening(opening, p) + LedgerSum(ledger, p))
  }

  ghost predicate EdgeOk(txs: seq<Transaction>, c: Correction)
  {
    && c.oldId < c.newId < |txs|
    && txs[c.oldId].status == VOIDED && txs[c.oldId].sync == SYNCED
    && txs[c.oldId].voidReason == Some(ByCorrection(c.newId))
    && txs[c.newId].uuid.None?
  }

  ghost predicate ChainInv(txs: seq<Transaction>, corrections: seq<Correction>)
  {
    && (forall i | 0 <= i < |corrections| :: EdgeOk(txs, corrections[i]))
    && (forall i, j | 0 <= i < j < |corrections| :: corrections[i].newId < corrections[j].newId)
    && (forall t | 0 <= t < |txs| :: Corrected(txs[t]) ==>
          Correction(t, txs[t].voidReason.value.newId) in corrections)
    && (forall t | 0 <= t < |txs| :: txs[t].uuid.None? ==>
          exists i | 0 <= i < |corrections| :: corrections[i].newId == t)
  }

  ghost predicate PaymentInv(txs: seq<Transaction>, payments: seq<Payment>)
  {
    |payments| == |txs| && forall i | 0 <= i < |payments| :: payments[i].tx == i
  }

  ghost predicate CaseInv(payments: seq<Payment>, cases: seq<Case>)
  {
    && (forall c | 0 <= c < |cases| :: cases[c].payment < |payments|)
    && (forall c | 0 <= c < |cases| :: cases[c].status == RESOLVED_INVALID ==>
          payments[cases[c].payment].status == PaymentStatus.FAILED)
    && (forall c, d | 0 <= c < d < |cases| ::
          cases[c].payment == cases[d].payment && cases[c].status == OPEN ==> cases[d].status != OPEN)
  }

  ghost predicate CatalogInv(active: map<ProductId, bool>, stock: map<ProductId, int>)
  {
    active.Keys == stock.Keys
  }

  ghost predicate Inv(opening: map<ProductId, int>, db: Db)
  {
    && CatalogInv(db.active, db.stock)
    && TxInv(db.devices, db.stock, db.txs)
    && LedgerInv(db.txs, db.ledger)
    && StockInv(opening, db.stock, db.ledger)
    && ChainInv(db.txs, db.corrections)
    && PaymentInv(db.txs, db.payments)
    && CaseInv(db.payments, db.cases)
  }

  /** Before the first sale: any devices, any catalogue and any opening stock. */
  ghost predicate Initial(db: Db)
  {
    && db.active.Keys == db.stock.Keys
    && db.txs == [] && db.payments == [] && db.ledger == [] && db.corrections == [] && db.cases == []
  }

  lemma InitialInv(db: Db)
    requires Initial(db)
    ensures Inv(db.stock, db)
  {
  }

  // ---- How the ledger part is kept ----

  lemma {:induction false} NoRows(ledger: seq<StockRow>, who: Option<TxId>)
    requires forall i | 0 <= i < |ledger| :: ledger[i].tx != who
    ensures RowsOf(ledger, who) == []
  {
    if |ledger| > 0 {
      NoRows(ledger[..|ledger| - 1], who);
    }
  }

  /** Writing the rows that one changed or appended transaction now calls for. */
  lemma LedgerExtend(txs: seq<Transaction>, txs': seq<Transaction>, ledger: seq<StockRow>, rows: seq<StockRow>, t: TxId)
    requires LedgerInv(txs, ledger)
    requires t < |txs'| && |txs| <= |txs'| <= |txs| + 1
    requires |txs'| == |txs| + 1 ==> t == |txs|
    requires forall s | 0 <= s < |txs| && s != t :: txs'[s] == txs[s]
    requires AllBy(rows, Some(t))
    requires ExpectedRows(t, txs'[t]) == RowsOf(ledger, Some(t)) + rows
    ensures LedgerInv(txs', ledger + rows)
  {
    forall s: TxId | s < |txs'|
      ensures RowsOf(ledger + rows, Some(s)) == ExpectedRows(s, txs'[s])
    {
      RowsOfAppend(ledger, rows, Some(t), Some(s));
      if s != t {
        assert txs'[s] == txs[s];
      }
    }
    forall i | 0 <= i < |ledger + rows|
      ensures (ledger + rows)[i].tx.Some? ==> (ledger + rows)[i].tx.value < |txs'|
      ensures (ledger + rows)[i].tx.None? ==> (ledger + rows)[i].movement == ADJUSTMENT
    {
      if i >= |ledger| {
        assert (ledger + rows)[i] == rows[i - |ledger|];
      }
    }
  }

  /** Stock and ledger move together. */
  lemma StockExtend(opening: map<ProductId, int>, stock: map<ProductId, int>, ledger: seq<StockRow>,
                    items: seq<Item>, t: TxId, movement: MovementType, dir: Direction)
    requires StockInv(opening, stock, ledger) && ProductsKnown(stock, items)
    ensures StockInv(opening, Shift(stock, items, dir), ledger + MovementRows(items, t, movement, dir))
  {
    var rows := MovementRows(items, t, movement, dir);
    forall p | p in stock
      ensures Shift(stock, items, dir)[p] == Opening(opening, p) + LedgerSum(ledger + rows, p)
    {
      LedgerSumAppend(ledger, rows, p);
      MovementRowsSum(items, t, movement, dir, p);
    }
    forall i | 0 <= i < |ledger + rows|
      ensures (ledger + rows)[i].product in stock
    {
      if i >= |ledger| {
        assert (ledger + rows)[i] == rows[i - |ledger|];
      }
    }
  }

  // ---- Each step keeps the invariant ----

  /** The row facts only depend on which products are known, not on their stock. */
  lemma TxAppends(devices: set<DeviceId>, stock: map<ProductId, int>, stock': map<ProductId, int>,
                  txs: seq<Transaction>, tx: Transaction)
    requires TxInv(devices, stock, txs) && stock.Keys == stock'.Keys
    requires RowOk(devices, stock, tx)
    requires forall s | 0 <= s < |txs| :: txs[s].uuid.Some? ==> txs[s].uuid != tx.uuid
    ensures TxInv(devices, stock', txs + [tx])
  {
    forall t | 0 <= t < |txs + [tx]|
      ensures RowOk(devices, stock', (txs + [tx])[t])
    {
      assert RowOk(devices, stock, if t < |txs| then txs[t] else tx);
    }
  }

  lemma PaymentAppends(txs: seq<Transaction>, txs': seq<Transaction>, payments: seq<Payment>, cases: seq<Case>, pay: Payment)
    requires PaymentInv(txs, payments) && CaseInv(payments, cases)
    requires |txs'| == |txs| + 1 && pay.tx == |txs|
    ensures PaymentInv(txs', payments + [pay]) && CaseInv(payments + [pay], cases)
  {
  }

  lemma SaleKeepsLedger(txs: seq<Transaction>, ledger: seq<StockRow>, p: Payload, conflict: bool)
    requires LedgerInv(txs, ledger)
    ensures LedgerInv(txs + [SaleHeader(p, conflict)],
                      if conflict then ledger else ledger + MovementRows(p.items, |txs|, SALE, Out))
  {
    var rows := if conflict then [] else MovementRows(p.items, |txs|, SALE, Out);
    NoRows(ledger, Some(|txs|));
    LedgerExtend(txs, txs + [SaleHeader(p, conflict)], ledger, rows, |txs|);
    assert ledger + [] == ledger;
  }

  lemma SyncKeeps(opening: map<ProductId, int>, db: Db, p: Payload, conflict: bool)
    requires Inv(opening, db)
    requires ArithmeticHolds(p) && p.device in db.devices && !UuidTaken(db.txs, p.uuid) && ProductsKnown(db.stock, p.items)
    ensures Inv(opening, StoreSale(db, p, conflict))
  {
    var db' := StoreSale(db, p, conflict);
    assert LedgerInv(db'.txs, db'.ledger) by { SaleKeepsLedger(db.txs, db.ledger, p, conflict); }
    assert StockInv(opening, db'.stock, db'.ledger) by {
      if !conflict {
        StockExtend(opening, db.stock, db.ledger, p.items, |db.txs|, SALE, Out);
      }
    }
    assert ChainInv(db'.txs, db.corrections) by { ChainGrows(db.txs, db'.txs, db.corrections); }
    assert TxInv(db.devices, db'.stock, db'.txs) by {
      TxAppends(db.devices, db.stock, db'.stock, db.txs, SaleHeader(p, conflict));
    }
    PaymentAppends(db.txs, db'.txs, db.payments, db.cases, db'.payments[|db.txs|]);
  }

  /** Appending a synced sale leaves the correction edges as they were. */
  lemma ChainGrows(txs: seq<Transaction>, txs': seq<Transaction>, corrections: seq<Correction>)
    requires ChainInv(txs, corrections)
    requires |txs'| == |txs| + 1 && txs' == txs + [txs'[|txs|]]
    requires txs'[|txs|].uuid.Some? && !Corrected(txs'[|txs|])
    ensures ChainInv(txs', corrections)
  {
    forall i | 0 <= i < |corrections|
      ensures EdgeOk(txs', corrections[i])
    {
      assert EdgeOk(txs, corrections[i]);
    }
  }

  /** Changing one row without making it or unmaking it a corrected one. */
  lemma ChainUpdates(txs: seq<Transaction>, corrections: seq<Correction>, t: TxId, tx: Transaction)
    requires ChainInv(txs, corrections) && t < |txs|
    requires !Corrected(txs[t]) && !Corrected(tx) && tx.uuid == txs[t].uuid
    ensures ChainInv(txs[t := tx], corrections)
  {
    forall i | 0 <= i < |corrections|
      ensures EdgeOk(txs[t := tx], corrections[i])
    {
      assert EdgeOk(txs, corrections[i]);
    }
  }

  lemma TxUpdates(devices: set<DeviceId>, stock: map<ProductId, int>, txs: seq<Transaction>, t: TxId, tx: Transaction)
    requires TxInv(devices, stock, txs) && t < |txs|
    requires RowOk(devices, stock, tx) && tx.uuid == txs[t].uuid
    ensures TxInv(devices, stock, txs[t := tx])
  {
  }

  lemma SameProducts(devices: set<DeviceId>, stock: map<ProductId, int>, stock': map<ProductId, int>, txs: seq<Transaction>)
    requires TxInv(devices, stock, txs) && stock.Keys <= stock'.Keys
    ensures TxInv(devices, stock', txs)
  {
    forall t | 0 <= t < |txs|
      ensures RowOk(devices, stock', txs[t])
    {
      assert RowOk(devices, stock, txs[t]);
    }
  }

  /** Changing one row in a way that calls for no ledger rows. */
  lemma RowChangeKeeps(opening: map<ProductId, int>, db: Db, t: TxId, tx: Transaction)
    requires Inv(opening, db) && t < |db.txs| && !Corrected(db.txs[t]) && !Corrected(tx)
    requires RowOk(db.devices, db.stock, tx) && tx.uuid == db.txs[t].uuid
    requires ExpectedRows(t, tx) == ExpectedRows(t, db.txs[t])
    ensures Inv(opening, db.(txs := db.txs[t := tx]))
  {
    TxUpdates(db.devices, db.stock, db.txs, t, tx);
    ChainUpdates(db.txs, db.corrections, t, tx);
    assert LedgerInv(db.txs[t := tx], db.ledger) by {
      LedgerExtend(db.txs, db.txs[t := tx], db.ledger, [], t);
      assert db.ledger + [] == db.ledger;
    }
  }

  lemma VoidKeeps(opening: map<ProductId, int>, db: Db, key: Key)
    requires Inv(opening, db) && VoidTransaction(db, key).Success?
    ensures Inv(opening, VoidTransaction(db, key).value)
  {
    var t := FindOne(db.txs, key).value;
    assert RowOk(db.devices, db.stock, db.txs[t]);
    RowChangeKeeps(opening, db, t, db.txs[t].(status := VOIDED, voidReason := Some(ByOwner)));
  }

  /** Confirming a sale that never was writes its rows. */
  lemma ConfirmKeeps(opening: map<ProductId, int>, db: Db, t: TxId)
    requires Inv(opening, db) && t < |db.txs| && !db.txs[t].confirmedAt
    ensures
      var tx := db.txs[t].(status := CONFIRMED, sync := SYNCED, confirmedAt := true);
      Inv(opening, db.(txs := db.txs[t := tx], stock := Shift(db.stock, tx.items, Out),
                       ledger := db.ledger + MovementRows(tx.items, t, SALE, Out)))
  {
    var tx := db.txs[t].(status := CONFIRMED, sync := SYNCED, confirmedAt := true);
    var rows := MovementRows(tx.items, t, SALE, Out);
    var stock := Shift(db.stock, tx.items, Out);
    assert RowOk(db.devices, db.stock, db.txs[t]);
    assert TxInv(db.devices, stock, db.txs[t := tx]) by {
      TxUpdates(db.devices, db.stock, db.txs, t, tx);
      SameProducts(db.devices, db.stock, stock, db.txs[t := tx]);
    }
    ChainUpdates(db.txs, db.corrections, t, tx);
    assert LedgerInv(db.txs[t := tx], db.ledger + rows) by {
      assert ExpectedRows(t, tx) == RowsOf(db.ledger, Some(t)) + rows;
      LedgerExtend(db.txs, db.txs[t := tx], db.ledger, rows, t);
    }
    assert StockInv(opening, stock, db.ledger + rows) by {
      StockExtend(opening, db.stock, db.ledger, tx.items, t, SALE, Out);
    }
  }

  lemma ResolveKeeps(opening: map<ProductId, int>, db: Db, key: Key, action: Action)
    requires Inv(opening, db) && ResolveConflict(db, key, action).Success?
    ensures Inv(opening, ResolveConflict(db, key, action).value)
  {
    var t := FindOne(db.txs, key).value;
    if action == VOID {
      assert RowOk(db.devices, db.stock, db.txs[t]);
      RowChangeKeeps(opening, db, t, db.txs[t].(status := VOIDED, sync := SYNCED, voidReason := Some(ByConflictResolution)));
    } else {
      assert RowOk(db.devices, db.stock, db.txs[t]);
      ConfirmKeeps(opening, db, t);
    }
  }

  /** The row of a corrected sale, and the row list once its replacement is appended. */
  ghost function Superseded(tx: Transaction, n: TxId): Transaction
  {
    tx.(status := VOIDED, voidReason := Some(ByCorrection(n)))
  }

  ghost function WithReplacement(txs: seq<Transaction>, t: TxId, dto: CorrectDto): (r: seq<Transaction>)
    requires t < |txs|
    ensures |r| == |txs| + 1
  {
    txs[t := Superseded(txs[t], |txs|)] + [CorrectedHeader(txs[t], dto)]
  }

  /** Reverting the old lines and writing the new ones. */
  lemma CorrectionLedger(txs: seq<Transaction>, ledger: seq<StockRow>, t: TxId, dto: CorrectDto)
    requires LedgerInv(txs, ledger)
    requires t < |txs| && !Corrected(txs[t])
    ensures LedgerInv(WithReplacement(txs, t, dto),
                      ledger + MovementRows(txs[t].items, t, CORRECTION, In) + MovementRows(dto.items, |txs|, CORRECTION, Out))
  {
    var n := |txs|;
    var back := MovementRows(txs[t].items, t, CORRECTION, In);
    var txs1 := txs[t := Superseded(txs[t], n)];
    LedgerExtend(txs, txs1, ledger, back, t);
    NoRows(ledger + back, Some(n));
    LedgerExtend(txs1, WithReplacement(txs, t, dto), ledger + back, MovementRows(dto.items, n, CORRECTION, Out), n);
  }

  lemma CorrectionStock(opening: map<ProductId, int>, stock: map<ProductId, int>, ledger: seq<StockRow>,
                        before: seq<Item>, t: TxId, after: seq<Item>, n: TxId)
    requires StockInv(opening, stock, ledger) && ProductsKnown(stock, before) && ProductsKnown(stock, after)
    ensures StockInv(opening, Shift(Shift(stock, before, In), after, Out),
                     ledger + MovementRows(before, t, CORRECTION, In) + MovementRows(after, n, CORRECTION, Out))
  {
    StockExtend(opening, stock, ledger, before, t, CORRECTION, In);
    StockExtend(opening, Shift(stock, before, In), ledger + MovementRows(before, t, CORRECTION, In),
                after, n, CORRECTION, Out);
  }

  lemma CorrectionRows(devices: set<DeviceId>, stock: map<ProductId, int>, stock': map<ProductId, int>,
                       txs: seq<Transaction>, t: TxId, dto: CorrectDto)
    requires TxInv(devices, stock, txs) && stock'.Keys == stock.Keys
    requires t < |txs| && GoodsLeft(txs[t]) && ProductsKnown(stock, dto.items)
    ensures TxInv(devices, stock', WithReplacement(txs, t, dto))
  {
    assert RowOk(devices, stock, txs[t]);
    var voided := Superseded(txs[t], |txs|);
    TxUpdates(devices, stock, txs, t, voided);
    TxAppends(devices, stock, stock', txs[t := voided], CorrectedHeader(txs[t], dto));
  }

  lemma LinkEdges(txs: seq<Transaction>, corrections: seq<Correction>, t: TxId, dto: CorrectDto)
    requires ChainInv(txs, corrections)
    requires t < |txs| && txs[t].sync == SYNCED && !Corrected(txs[t])
    ensures
      var corrections' := corrections + [Correction(t, |txs|)];
      && (forall i | 0 <= i < |corrections'| :: EdgeOk(WithReplacement(txs, t, dto), corrections'[i]))
      && (forall i, j | 0 <= i < j < |corrections'| :: corrections'[i].newId < corrections'[j].newId)
  {
    var corrections' := corrections + [Correction(t, |txs|)];
    forall i | 0 <= i < |corrections'|
      ensures EdgeOk(WithReplacement(txs, t, dto), corrections'[i])
      ensures i < |corrections| ==> corrections'[i].newId < |txs|
    {
      if i < |corrections| {
        assert EdgeOk(txs, corrections[i]);
      }
    }
  }

  lemma LinkReplacements(txs: seq<Transaction>, corrections: seq<Correction>, t: TxId, dto: CorrectDto, s: TxId)
    requires ChainInv(txs, corrections) && t < |txs|
    requires s < |txs| + 1 && WithReplacement(txs, t, dto)[s].uuid.None?
    ensures
      var corrections' := corrections + [Correction(t, |txs|)];
      exists i | 0 <= i < |corrections'| :: corrections'[i].newId == s
  {
    var corrections' := corrections + [Correction(t, |txs|)];
    if s < |txs| {
      assert txs[s].uuid.None?;
      var i :| 0 <= i < |corrections| && corrections[i].newId == s;
      assert corrections'[i].newId == s;
    } else {
      assert corrections'[|corrections|].newId == s;
    }
  }

  /** The new edge leads from a row that had none to the appended row. */
  lemma CorrectionLinks(txs: seq<Transaction>, corrections: seq<Correction>, t: TxId, dto: CorrectDto)
    requires ChainInv(txs, corrections)
    requires t < |txs| && txs[t].sync == SYNCED && !Corrected(txs[t])
    ensures ChainInv(WithReplacement(txs, t, dto), corrections + [Correction(t, |txs|)])
  {
    var txs' := WithReplacement(txs, t, dto);
    var corrections' := corrections + [Correction(t, |txs|)];
    LinkEdges(txs, corrections, t, dto);
    forall s | 0 <= s < |txs'| && txs'[s].uuid.None?
      ensures exists i | 0 <= i < |corrections'| :: corrections'[i].newId == s
    {
      LinkReplacements(txs, corrections, t, dto, s);
    }
    forall s | 0 <= s < |txs'| && Corrected(txs'[s])
      ensures Correction(s, txs'[s].voidReason.value.newId) in corrections'
    {
      if s == t {
        assert corrections'[|corrections|] == Correction(t, |txs|);
      } else {
        assert Correction(s, txs[s].voidReason.value.newId) in corrections;
      }
    }
  }

  /** A transaction's payment row sits at its own position. */
  lemma PaymentAt(txs: seq<Transaction>, payments: seq<Payment>, t: TxId)
    requires PaymentInv(txs, payments) && t < |txs|
    ensures FindPayment(payments, t) == Some(t)
  {
    assert payments[t].tx == t;
  }

  lemma CorrectKeeps(opening: map<ProductId, int>, db: Db, t: TxId, dto: CorrectDto)
    requires Inv(opening, db)
    requires t < |db.txs| && GoodsLeft(db.txs[t]) && CorrectionBody(db, t, dto).Success?
    ensures Inv(opening, CorrectionBody(db, t, dto).value)
  {
    var prior := db.txs[t];
    var n := |db.txs|;
    assert StatusOk(prior) by { assert RowOk(db.devices, db.stock, prior); }
    var txs := WithReplacement(db.txs, t, dto);
    var pay := db.payments[t].(tx := n, amount := dto.total);
    var stock := Shift(Shift(db.stock, prior.items, In), dto.items, Out);
    var ledger := db.ledger + MovementRows(prior.items, t, CORRECTION, In) + MovementRows(dto.items, n, CORRECTION, Out);
    assert LedgerInv(txs, ledger) by { CorrectionLedger(db.txs, db.ledger, t, dto); }
    assert StockInv(opening, stock, ledger) by {
      CorrectionStock(opening, db.stock, db.ledger, prior.items, t, dto.items, n);
    }
    assert TxInv(db.devices, stock, txs) by { CorrectionRows(db.devices, db.stock, stock, db.txs, t, dto); }
    assert ChainInv(txs, db.corrections + [Correction(t, n)]) by { CorrectionLinks(db.txs, db.corrections, t, dto); }
    assert PaymentInv(txs, db.payments + [pay]) && CaseInv(db.payments + [pay], db.cases) by {
      PaymentAppends(db.txs, txs, db.payments, db.cases, pay);
    }
    assert FindPayment(db.payments, t) == Some(t) by { PaymentAt(db.txs, db.payments, t); }
  }

  lemma ManualRowKeepsLedger(txs: seq<Transaction>, ledger: seq<StockRow>, id: ProductId, quantity: int)
    requires LedgerInv(txs, ledger)
    ensures LedgerInv(txs, ledger + [StockRow(id, None, ADJUSTMENT, quantity)])
  {
    var row := StockRow(id, None, ADJUSTMENT, quantity);
    forall t: TxId | t < |txs|
      ensures RowsOf(ledger + [row], Some(t)) == ExpectedRows(t, txs[t])
    {
      RowsOfAppend(ledger, [row], None, Some(t));
    }
  }

  lemma ManualRowKeepsStock(opening: map<ProductId, int>, stock: map<ProductId, int>, ledger: seq<StockRow>,
                            id: ProductId, quantity: int)
    requires StockInv(opening, stock, ledger) && id in stock
    ensures StockInv(opening, stock[id := stock[id] + quantity], ledger + [StockRow(id, None, ADJUSTMENT, quantity)])
  {
    var row := StockRow(id, None, ADJUSTMENT, quantity);
    forall p | p in stock
      ensures LedgerSum(ledger + [row], p) == LedgerSum(ledger, p) + if p == id then quantity else 0
    {
      assert (ledger + [row])[..|ledger|] == ledger;
    }
  }

  lemma AdjustKeeps(opening: map<ProductId, int>, db: Db, id: ProductId, quantity: int)
    requires Inv(opening, db) && id in db.stock
    ensures Inv(opening, AdjustBody(db, id, quantity))
  {
    var db' := AdjustBody(db, id, quantity);
    assert LedgerInv(db'.txs, db'.ledger) by { ManualRowKeepsLedger(db.txs, db.ledger, id, quantity); }
    assert StockInv(opening, db'.stock, db'.ledger) by {
      ManualRowKeepsStock(opening, db.stock, db.ledger, id, quantity);
    }
    assert TxInv(db'.devices, db'.stock, db'.txs) by { SameProducts(db.devices, db.stock, db'.stock, db.txs); }
  }

  lemma CatalogKeeps(opening: map<ProductId, int>, db: Db, s: Step)
    requires Inv(opening, db) && (s.AddDevice? || s.AddProduct? || s.Activate?)
    ensures Inv(opening, Apply(db, s))
  {
    var db' := Apply(db, s);
    forall t | 0 <= t < |db.txs|
      ensures RowOk(db'.devices, db'.stock, db.txs[t])
    {
      assert RowOk(db.devices, db.stock, db.txs[t]);
    }
    if s.AddProduct? && s.id !in db.stock {
      UnknownProductSumsToZero(db.stock, db.ledger, s.id);
    }
  }

  lemma OpenKeeps(opening: map<ProductId, int>, db: Db, pay: PaymentId)
    requires Inv(opening, db) && pay < |db.payments| && !HasOpenCase(db.cases, pay)
    ensures Inv(opening, db.(cases := db.cases + [Case(pay, OPEN)]))
  {
  }

  /** Failing a payment and closing its case. */
  lemma CaseCloses(payments: seq<Payment>, cases: seq<Case>, c: CaseId)
    requires CaseInv(payments, cases) && c < |cases|
    ensures
      var pay := cases[c].payment;
      CaseInv(payments[pay := payments[pay].(status := PaymentStatus.FAILED)], cases[c := cases[c].(status := RESOLVED_INVALID)])
  {
  }

  lemma CloseKeeps(opening: map<ProductId, int>, db: Db, c: CaseId, valid: bool)
    requires Inv(opening, db) && ResolveCase(db, c, valid).Success?
    ensures Inv(opening, ResolveCase(db, c, valid).value)
  {
    if !valid {
      var t := db.payments[db.cases[c].payment].tx;
      assert RowOk(db.devices, db.stock, db.txs[t]);
      if db.txs[t].status != VOIDED {
        RowChangeKeeps(opening, db, t, db.txs[t].(status := VOIDED, voidReason := Some(ByInvalidPayment)));
      }
      CaseCloses(db.payments, db.cases, c);
    }
  }

  lemma StepKeeps(opening: map<ProductId, int>, db: Db, s: Step)
    requires Inv(opening, db)
    ensures Inv(opening, Apply(db, s))
  {
    if Try(db, s).Success? {
      match s
      case Sync(p) => SyncKeeps(opening, db, p, StockConflict(db, p.items));
      case NoteFailure(p, note) =>
      case NoteTerminal(device, uuid) =>
      case AddDevice(d) => CatalogKeeps(opening, db, s);
      case AddProduct(id, isActive) => CatalogKeeps(opening, db, s);
      case Activate(id, isActive) => CatalogKeeps(opening, db, s);
      case Adjust(id, q) => AdjustKeeps(opening, db, id, q);
      case Void(key) => VoidKeeps(opening, db, key);
      case Resolve(key, action) => ResolveKeeps(opening, db, key, action);
      case Correct(key, dto) => CorrectKeeps(opening, db, FindOne(db.txs, key).value, dto);
      case OpenByTransaction(key) =>
        OpenKeeps(opening, db, FindPayment(db.payments, FindOne(db.txs, key).value).value);
      case OpenByPayment(pay) => OpenKeeps(opening, db, pay);
      case Close(c, valid) => CloseKeeps(opening, db, c, valid);
    }
  }

  /** Every state reached by any run from any opening stock satisfies the invariant. */
  lemma {:induction false} RunKeeps(db: Db, steps: seq<Step>)
    requires Initial(db)
    ensures Inv(db.stock, Run(db, steps))
  {
    if |steps| == 0 {
      InitialInv(db);
    } else {
      RunKeeps(db, steps[..|steps| - 1]);
      StepKeeps(db.stock, Run(db, steps[..|steps| - 1]), steps[|steps| - 1]);
    }
  }

  lemma {:induction false} RunInv(opening: map<ProductId, int>, db: Db, steps: seq<Step>)
    requires Inv(opening, db)
    ensures Inv(opening, Run(db, steps))
  {
    if |steps| > 0 {
      RunInv(opening, db, steps[..|steps| - 1]);
      StepKeeps(opening, Run(db, steps[..|steps| - 1]), steps[|steps| - 1]);
    }
  }
}
