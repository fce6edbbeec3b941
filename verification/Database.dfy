/**
 The tables as mutable state. A database transaction that throws is rolled back by restoring
 the tables as they were when it began.
 */
module Tables {
  import opened Schema
  import opened Ledger

  class Database {
    var devices: set<DeviceId>
    var active: map<ProductId, bool>
    var stock: map<ProductId, int>
    var txs: seq<Transaction>
    var payments: seq<Payment>
    var ledger: seq<StockRow>
    var corrections: seq<Correction>
    var cases: seq<Case>
    var failures: seq<QueueRow>

    function View(): Db
      reads this
    {
      Db(devices, active, stock, txs, payments, ledger, corrections, cases, failures)
    }

    constructor (db: Db)
      ensures View() == db
    {
      devices, active, stock := db.devices, db.active, db.stock;
      txs, payments, ledger := db.txs, db.payments, db.ledger;
      corrections, cases, failures := db.corrections, db.cases, db.failures;
    }

    method Rollback(saved: Db)
      modifies this
      ensures View() == saved
    {
      devices, active, stock := saved.devices, saved.active, saved.stock;
      txs, payments, ledger := saved.txs, saved.payments, saved.ledger;
      corrections, cases, failures := saved.corrections, saved.cases, saved.failures;
    }

    /**
     The paired write: the stock row is incremented and a ledger row is appended. Updating a
     stock row that does not exist throws.
     */
    method AdjustInventoryAndHistory(product: ProductId, tx: Option<TxId>, movement: MovementType, change: int)
      returns (ok: bool)
      modifies this`stock, this`ledger
      ensures ok <==> product in old(stock)
      ensures ok ==> stock == old(stock)[product := old(stock)[product] + change]
      ensures ok ==> ledger == old(ledger) + [StockRow(product, tx, movement, change)]
      ensures !ok ==> stock == old(stock) && ledger == old(ledger)
    {
      if product !in stock {
        return false;
      }
      stock := stock[product := stock[product] + change];
      ledger := ledger + [StockRow(product, tx, movement, change)];
      return true;
    }

    /**
     The loop over sale lines that every deduction and every revert runs; the closed form says
     what all lines together do.
     */
    method MoveStock(items: seq<Item>, t: TxId, movement: MovementType, dir: Direction) returns (ok: bool)
      modifies this`stock, this`ledger
      ensures ok <==> ProductsKnown(old(stock), items)
      ensures ok ==> stock == Shift(old(stock), items, dir)
      ensures ok ==> ledger == old(ledger) + MovementRows(items, t, movement, dir)
    {
      ghost var stock0, ledger0 := stock, ledger;
      ShiftNothing(stock0, dir);
      var k := 0;
      while k < |items|
        invariant 0 <= k <= |items|
        invariant ProductsKnown(stock0, items[..k])
        invariant stock == Shift(stock0, items[..k], dir)
        invariant ledger == ledger0 + MovementRows(items[..k], t, movement, dir)
      {
        var done := AdjustInventoryAndHistory(items[k].product, Some(t), movement, Signed(dir, items[k].quantity));
        if !done {
          return false;
        }
        ShiftStep(stock0, items, k, dir);
        MovementRowsStep(items, k, t, movement, dir);
        k := k + 1;
      }
      assert items[..k] == items;
      return true;
    }
  }

  /** One more line of a loop over `items`. */
  lemma ShiftStep(stock: map<ProductId, int>, items: seq<Item>, k: nat, dir: Direction)
    requires k < |items| && items[k].product in stock
    ensures Shift(stock, items[..k + 1], dir) ==
              Shift(stock, items[..k], dir)[items[k].product :=
                Shift(stock, items[..k], dir)[items[k].product] + Signed(dir, items[k].quantity)]
  {
    assert items[..k + 1][..k] == items[..k];
  }

  lemma MovementRowsStep(items: seq<Item>, k: nat, t: TxId, movement: MovementType, dir: Direction)
    requires k < |items|
    ensures MovementRows(items[..k + 1], t, movement, dir) ==
              MovementRows(items[..k], t, movement, dir) +
              [StockRow(items[k].product, Some(t), movement, Signed(dir, items[k].quantity))]
  {
  }

  lemma ShiftNothing(stock: map<ProductId, int>, dir: Direction)
    ensures Shift(stock, [], dir) == stock
  {
  }
}
