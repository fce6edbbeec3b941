/**
 Where the stock went: conservation over whole runs, and what one correction moves.
 */
module Conservation {
  import opened Schema
  import opened Ledger
  import opened Operations
  import opened Evolution
  import opened Invariants

  /** Quantity of `p` in the sales whose goods are with customers. */
  ghost function Sold(txs: seq<Transaction>, p: ProductId): int
  {
    if |txs| == 0 then 0
    else
      var last := txs[|txs| - 1];
      Sold(txs[..|txs| - 1], p) + if GoodsLeft(last) then ItemQty(last.items, p) else 0
  }

  /** Net quantity of `p` that one transaction has moved, according to the ledger. */
  ghost function NetMovement(db: Db, t: TxId, p: ProductId): int
  {
    LedgerSum(RowsOf(db.ledger, Some(t)), p)
  }

  lemma ExpectedSum(t: TxId, tx: Transaction, p: ProductId)
    requires StatusOk(tx)
    ensures LedgerSum(ExpectedRows(t, tx), p) == if GoodsLeft(tx) then -ItemQty(tx.items, p) else 0
  {
    var movement := if tx.uuid.Some? then SALE else CORRECTION;
    MovementRowsSum(tx.items, t, movement, Out, p);
    MovementRowsSum(tx.items, t, CORRECTION, In, p);
    LedgerSumAppend(if tx.confirmedAt then MovementRows(tx.items, t, movement, Out) else [],
                    if Corrected(tx) then MovementRows(tx.items, t, CORRECTION, In) else [], p);
  }

  /** Each transaction has moved exactly its quantities if its goods left, and nothing otherwise. */
  lemma NetMovementOf(opening: map<ProductId, int>, db: Db, t: TxId, p: ProductId)
    requires Inv(opening, db) && t < |db.txs|
    ensures NetMovement(db, t, p) == if GoodsLeft(db.txs[t]) then -ItemQty(db.txs[t].items, p) else 0
  {
    assert RowOk(db.devices, db.stock, db.txs[t]);
    ExpectedSum(t, db.txs[t], p);
  }

  ghost predicate EachMovedItsGoods(db: Db, p: ProductId)
  {
    forall t: TxId | t < |db.txs| ::
      NetMovement(db, t, p) == if GoodsLeft(db.txs[t]) then -ItemQty(db.txs[t].items, p) else 0
  }

  lemma {:induction false} MovedIsSold(db: Db, p: ProductId, n: nat)
    requires EachMovedItsGoods(db, p) && n <= |db.txs|
    ensures MovedByTransactions(db.ledger, p, n) == -Sold(db.txs[..n], p)
  {
    if n > 0 {
      MovedIsSold(db, p, n - 1);
      assert NetMovement(db, n - 1, p) == LedgerSum(RowsOf(db.ledger, Some(n - 1)), p);
      assert db.txs[..n][..n - 1] == db.txs[..n - 1];
    }
  }

  /** Stock is opening stock plus manual adjustments minus what customers took. */
  ghost predicate Conserved(opening: map<ProductId, int>, db: Db, p: ProductId)
  {
    p in db.stock &&
    db.stock[p] == Opening(opening, p) + LedgerSum(RowsOf(db.ledger, None), p) - Sold(db.txs, p)
  }

  lemma InvConserves(opening: map<ProductId, int>, db: Db, p: ProductId)
    requires Inv(opening, db) && p in db.stock
    ensures Conserved(opening, db, p)
  {
    LedgerSplits(db.ledger, p, |db.txs|);
    forall t: TxId | t < |db.txs|
      ensures NetMovement(db, t, p) == if GoodsLeft(db.txs[t]) then -ItemQty(db.txs[t].items, p) else 0
    {
      NetMovementOf(opening, db, t, p);
    }
    MovedIsSold(db, p, |db.txs|);
    assert db.txs[..|db.txs|] == db.txs;
  }

  /** Net quantity by which the successful manual adjustments of a run changed `p`. */
  ghost function AdjustedBy(db: Db, steps: seq<Step>, p: ProductId): int
  {
    if |steps| == 0 then 0
    else
      var init, last := steps[..|steps| - 1], steps[|steps| - 1];
      AdjustedBy(db, init, p) +
      if last.Adjust? && last.id == p && Try(Run(db, init), last).Success? then last.quantity else 0
  }

  lemma CorrectionWritesNoManualRow(ledger: seq<StockRow>, before: seq<Item>, t: TxId, after: seq<Item>, n: TxId)
    ensures RowsOf(ledger + MovementRows(before, t, CORRECTION, In) + MovementRows(after, n, CORRECTION, Out), None)
         == RowsOf(ledger, None)
  {
    RowsOfAppend(ledger, MovementRows(before, t, CORRECTION, In), Some(t), None);
    RowsOfAppend(ledger + MovementRows(before, t, CORRECTION, In), MovementRows(after, n, CORRECTION, Out), Some(n), None);
  }

  lemma ManualRowsStep(db: Db, s: Step, p: ProductId)
    ensures LedgerSum(RowsOf(Apply(db, s).ledger, None), p) == LedgerSum(RowsOf(db.ledger, None), p) +
              if s.Adjust? && s.id == p && Try(db, s).Success? then s.quantity else 0
  {
    if s.Adjust? {
      if Try(db, s).Success? {
        RowsOfAppend(db.ledger, [StockRow(s.id, None, ADJUSTMENT, s.quantity)], None, None);
        LedgerSumOne(RowsOf(db.ledger, None), StockRow(s.id, None, ADJUSTMENT, s.quantity), p);
      }
    } else if Quiet(s) {
      QuietSteps(db, s);
    } else if Try(db, s).Success? {
      SalesWriteNoManualRow(db, s);
    }
  }

  lemma SalesWriteNoManualRow(db: Db, s: Step)
    requires !Quiet(s) && Try(db, s).Success?
    ensures RowsOf(Try(db, s).value.ledger, None) == RowsOf(db.ledger, None)
  {
    match s
    case Sync(sale) =>
      RowsOfAppend(db.ledger, MovementRows(sale.items, |db.txs|, SALE, Out), Some(|db.txs|), None);
    case Void(key) =>
    case Resolve(key, action) =>
      var t := FindOne(db.txs, key).value;
      RowsOfAppend(db.ledger, MovementRows(db.txs[t].items, t, SALE, Out), Some(t), None);
    case Correct(key, dto) =>
      var t := FindOne(db.txs, key).value;
      CorrectionWritesNoManualRow(db.ledger, db.txs[t].items, t, dto.items, |db.txs|);
    case Close(c, valid) =>
  }

  lemma {:induction false} ManualRows(db: Db, steps: seq<Step>, p: ProductId)
    requires Initial(db)
    ensures LedgerSum(RowsOf(Run(db, steps).ledger, None), p) == AdjustedBy(db, steps, p)
  {
    if |steps| > 0 {
      ManualRows(db, steps[..|steps| - 1], p);
      ManualRowsStep(Run(db, steps[..|steps| - 1]), steps[|steps| - 1], p);
    }
  }

  /**
   Global conservation. After any run, for every product: stock is the opening stock plus the
   run's successful manual adjustments minus the quantities of exactly those sales that are
   CONFIRMED or were voided as RESOLVED_INVALID after having been confirmed.
   */
  lemma RunConservation(db: Db, steps: seq<Step>, p: ProductId)
    requires Initial(db) && p in Run(db, steps).stock
    ensures Run(db, steps).stock[p] == Opening(db.stock, p) + AdjustedBy(db, steps, p) - Sold(Run(db, steps).txs, p)
  {
    RunKeeps(db, steps);
    InvConserves(db.stock, Run(db, steps), p);
    ManualRows(db, steps, p);
  }

  lemma {:induction false} AdjustedAppend(db: Db, a: seq<Step>, b: seq<Step>, p: ProductId)
    ensures AdjustedBy(db, a + b, p) == AdjustedBy(db, a, p) + AdjustedBy(Run(db, a), b, p)
  {
    if |b| == 0 {
      assert a + b == a;
    } else {
      var init := b[..|b| - 1];
      assert (a + b)[..|a + b| - 1] == a + init;
      AdjustedAppend(db, a, init, p);
      RunAppend(db, a, init);
    }
  }

  lemma {:induction false} UnknownIsUnadjusted(db: Db, steps: seq<Step>, p: ProductId)
    requires p !in Run(db, steps).stock
    ensures AdjustedBy(db, steps, p) == 0
  {
    if |steps| > 0 {
      var mid := Run(db, steps[..|steps| - 1]);
      StepEvolves(mid, steps[|steps| - 1]);
      UnknownIsUnadjusted(db, steps[..|steps| - 1], p);
    }
  }

  /**
   What creating a product gives: it is refused exactly for a known identifier, and a created
   product has from then on, after any run, exactly the stock that adjustments since its creation
   and its own sales explain, starting from nothing.
   */
  lemma CreatedStartsEmpty(db: Db, before: seq<Step>, id: ProductId, isActive: bool, later: seq<Step>)
    requires Initial(db)
    ensures CreateProduct(Run(db, before), id, isActive).Success? <==> id !in Run(db, before).stock
    ensures id !in Run(db, before).stock ==>
              var created := Apply(Run(db, before), AddProduct(id, isActive));
              && Run(created, later) == Run(db, before + [AddProduct(id, isActive)] + later)
              && id in Run(created, later).stock
              && Run(created, later).stock[id] == AdjustedBy(created, later, id) - Sold(Run(created, later).txs, id)
  {
    RunKeeps(db, before);
    if id !in Run(db, before).stock {
      var s := AddProduct(id, isActive);
      var upTo := before + [s];
      var created := Run(db, upTo);
      assert upTo[..|upTo| - 1] == before;
      RunAppend(db, upTo, later);
      AdjustedAppend(db, upTo, later, id);
      UnknownIsUnadjusted(db, before, id);
      RunEvolves(db, before);
      RunEvolves(created, later);
      RunConservation(db, upTo + later, id);
    }
  }

  // ---- One correction ----

  /** A correction moves exactly the difference of the quantities, also when lines repeat a product. */
  lemma CorrectionMoves(db: Db, key: Key, dto: CorrectDto, p: ProductId)
    requires CorrectTransaction(db, key, dto).Success? && p in db.stock
    ensures CorrectTransaction(db, key, dto).value.stock.Keys == db.stock.Keys
    ensures CorrectTransaction(db, key, dto).value.stock[p] ==
              db.stock[p] + ItemQty(db.txs[FindOne(db.txs, key).value].items, p) - ItemQty(dto.items, p)
  {
  }

  /** It leaves the stock table alone exactly when no product's quantity changes. */
  lemma CorrectionKeepsStockIff(db: Db, key: Key, dto: CorrectDto)
    requires CorrectTransaction(db, key, dto).Success?
    ensures CorrectTransaction(db, key, dto).value.stock == db.stock <==>
              forall p | p in db.stock :: ItemQty(dto.items, p) == ItemQty(db.txs[FindOne(db.txs, key).value].items, p)
  {
    var db' := CorrectTransaction(db, key, dto).value;
    if db'.stock == db.stock {
      forall p | p in db.stock
        ensures ItemQty(dto.items, p) == ItemQty(db.txs[FindOne(db.txs, key).value].items, p)
      {
        CorrectionMoves(db, key, dto, p);
      }
    }
  }
}
