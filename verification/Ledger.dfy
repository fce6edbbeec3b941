/**
 Sums over sale lines and over the stock ledger, and the two closed forms every stock
 operation is specified by: `Shift` for the stock table and `MovementRows` for the ledger.
 */
module Ledger {
  import opened Schema

  datatype Direction = Out | In

  function Signed(dir: Direction, q: int): int
  {
    if dir == Out then -q else q
  }

  /** Total quantity of product `p` over all lines, counting repeated lines. */
  function ItemQty(items: seq<Item>, p: ProductId): int
  {
    if |items| == 0 then 0
    else
      var last := items[|items| - 1];
      ItemQty(items[..|items| - 1], p) + if last.product == p then last.quantity else 0
  }

  /** The stock table after every line of `items` has left or come back. */
  function Shift(stock: map<ProductId, int>, items: seq<Item>, dir: Direction): map<ProductId, int>
  {
    map p | p in stock :: stock[p] + Signed(dir, ItemQty(items, p))
  }

  /** The ledger rows written for transaction `t`, one per line and in line order. */
  function MovementRows(items: seq<Item>, t: TxId, movement: MovementType, dir: Direction): (rows: seq<StockRow>)
    ensures |rows| == |items|
  {
    seq(|items|, i requires 0 <= i < |items| =>
      StockRow(items[i].product, Some(t), movement, Signed(dir, items[i].quantity)))
  }

  /** Net quantity the ledger records for product `p`. */
  function LedgerSum(rows: seq<StockRow>, p: ProductId): int
  {
    if |rows| == 0 then 0
    else
      var last := rows[|rows| - 1];
      LedgerSum(rows[..|rows| - 1], p) + if last.product == p then last.quantity else 0
  }

  /** The rows written on behalf of one transaction, or by hand when `who` is `None`. */
  function RowsOf(rows: seq<StockRow>, who: Option<TxId>): seq<StockRow>
  {
    if |rows| == 0 then []
    else
      var last := rows[|rows| - 1];
      RowsOf(rows[..|rows| - 1], who) + if last.tx == who then [last] else []
  }

  ghost predicate AllBy(rows: seq<StockRow>, who: Option<TxId>)
  {
    forall i | 0 <= i < |rows| :: rows[i].tx == who
  }

  lemma {:induction false} LedgerSumAppend(a: seq<StockRow>, b: seq<StockRow>, p: ProductId)
    ensures LedgerSum(a + b, p) == LedgerSum(a, p) + LedgerSum(b, p)
  {
    if |b| == 0 {
      assert a + b == a;
    } else {
      assert (a + b)[..|a + b| - 1] == a + b[..|b| - 1];
      LedgerSumAppend(a, b[..|b| - 1], p);
    }
  }

  /** Appending rows of one writer extends that writer's rows and nobody else's. */
  lemma {:induction false} RowsOfAppend(a: seq<StockRow>, b: seq<StockRow>, owner: Option<TxId>, who: Option<TxId>)
    requires AllBy(b, owner)
    ensures RowsOf(a + b, who) == if who == owner then RowsOf(a, who) + b else RowsOf(a, who)
  {
    if |b| == 0 {
      assert a + b == a;
    } else {
      assert (a + b)[..|a + b| - 1] == a + b[..|b| - 1];
      RowsOfAppend(a, b[..|b| - 1], owner, who);
      assert b == b[..|b| - 1] + [b[|b| - 1]];
    }
  }

  lemma {:induction false} MovementRowsSum(items: seq<Item>, t: TxId, movement: MovementType, dir: Direction, p: ProductId)
    ensures LedgerSum(MovementRows(items, t, movement, dir), p) == Signed(dir, ItemQty(items, p))
  {
    var rows := MovementRows(items, t, movement, dir);
    if |items| > 0 {
      var init := items[..|items| - 1];
      assert rows[..|rows| - 1] == MovementRows(init, t, movement, dir);
      MovementRowsSum(init, t, movement, dir, p);
    }
  }

  /** Sum over transactions `0..n` of the net movement each one caused. */
  function MovedByTransactions(rows: seq<StockRow>, p: ProductId, n: nat): int
  {
    if n == 0 then 0
    else MovedByTransactions(rows, p, n - 1) + LedgerSum(RowsOf(rows, Some(n - 1)), p)
  }

  lemma LedgerSumOne(rows: seq<StockRow>, row: StockRow, p: ProductId)
    ensures LedgerSum(rows + [row], p) == LedgerSum(rows, p) + if row.product == p then row.quantity else 0
  {
    assert (rows + [row])[..|rows|] == rows;
  }

  lemma RowsOfOne(rows: seq<StockRow>, row: StockRow, who: Option<TxId>)
    ensures RowsOf(rows + [row], who) == if row.tx == who then RowsOf(rows, who) + [row] else RowsOf(rows, who)
  {
    assert (rows + [row])[..|rows|] == rows;
  }

  lemma MovedByOneStep(rows: seq<StockRow>, row: StockRow, p: ProductId, t: TxId)
    ensures LedgerSum(RowsOf(rows + [row], Some(t)), p) ==
              LedgerSum(RowsOf(rows, Some(t)), p) + if row.tx == Some(t) && row.product == p then row.quantity else 0
  {
    RowsOfOne(rows, row, Some(t));
    LedgerSumOne(RowsOf(rows, Some(t)), row, p);
  }

  lemma {:induction false} MovedByTransactionsStep(rows: seq<StockRow>, row: StockRow, p: ProductId, n: nat)
    ensures MovedByTransactions(rows + [row], p, n) == MovedByTransactions(rows, p, n) +
              if row.tx.Some? && row.tx.value < n && row.product == p then row.quantity else 0
  {
    if n > 0 {
      MovedByTransactionsStep(rows, row, p, n - 1);
      MovedByOneStep(rows, row, p, n - 1);
    }
  }

  /**
   The ledger is partitioned by writer: what it records for a product is what was adjusted by
   hand plus what each transaction moved.
   */
  lemma {:induction false} LedgerSplits(rows: seq<StockRow>, p: ProductId, n: nat)
    requires forall i | 0 <= i < |rows| :: rows[i].tx.Some? ==> rows[i].tx.value < n
    ensures LedgerSum(rows, p) == LedgerSum(RowsOf(rows, None), p) + MovedByTransactions(rows, p, n)
  {
    if |rows| == 0 {
      NothingMoved(p, n);
    } else {
      var init, last := rows[..|rows| - 1], rows[|rows| - 1];
      LedgerSplits(init, p, n);
      MovedByTransactionsStep(init, last, p, n);
      assert rows == init + [last];
      RowsOfOne(init, last, None);
      LedgerSumOne(RowsOf(init, None), last, p);
    }
  }

  lemma {:induction false} NothingMoved(p: ProductId, n: nat)
    ensures MovedByTransactions([], p, n) == 0
  {
    if n > 0 {
      NothingMoved(p, n - 1);
    }
  }

  /** Every line's product has a stock row (the foreign key of `DetailTransaction`). */
  predicate ProductsKnown(stock: map<ProductId, int>, items: seq<Item>)
  {
    forall i | 0 <= i < |items| :: items[i].product in stock
  }

  lemma {:induction false} UnknownProductSumsToZero(stock: map<ProductId, int>, rows: seq<StockRow>, p: ProductId)
    requires forall i | 0 <= i < |rows| :: rows[i].product in stock
    requires p !in stock
    ensures LedgerSum(rows, p) == 0
  {
    if |rows| > 0 {
      UnknownProductSumsToZero(stock, rows[..|rows| - 1], p);
    }
  }
}
