/**
 When stock stays non-negative. The worker compares each line with the stock by itself, so what
 matters is whether a sale repeats a product.
 */
module NonNegative {
  import opened Schema
  import opened Ledger
  import opened Operations
  import opened Invariants

  ghost predicate NonNegative(stock: map<ProductId, int>)
  {
    forall q | q in stock :: stock[q] >= 0
  }

  ghost predicate DistinctProducts(items: seq<Item>)
  {
    forall i, j | 0 <= i < j < |items| :: items[i].product != items[j].product
  }

  /** What the request validation demands of quantities. */
  ghost predicate PositiveQuantities(items: seq<Item>)
  {
    forall i | 0 <= i < |items| :: items[i].quantity >= 1
  }

  /** With distinct products, the total quantity of a product is that of its one line. */
  lemma {:induction false} SingleLineQty(items: seq<Item>, q: ProductId)
    requires DistinctProducts(items)
    ensures ItemQty(items, q) == 0 || exists i | 0 <= i < |items| :: items[i].product == q && items[i].quantity == ItemQty(items, q)
    ensures (forall i | 0 <= i < |items| :: items[i].product != q) ==> ItemQty(items, q) == 0
  {
    if |items| > 0 {
      var n := |items| - 1;
      SingleLineQty(items[..n], q);
      if items[n].product == q {
        assert forall i | 0 <= i < n :: items[..n][i].product != q;
        assert ItemQty(items, q) == items[n].quantity;
      } else if ItemQty(items[..n], q) != 0 {
        var i :| 0 <= i < n && items[..n][i].product == q && items[..n][i].quantity == ItemQty(items[..n], q);
        assert items[i].product == q && items[i].quantity == ItemQty(items, q);
      }
    }
  }

  lemma DistinctIsSafe(db: Db, p: Payload)
    requires NonNegative(db.stock) && DistinctProducts(p.items)
    ensures NonNegative(Apply(db, Sync(p)).stock)
  {
    var db' := Apply(db, Sync(p));
    if ProcessTransaction(db, p).Success? && !StockConflict(db, p.items) {
      forall q | q in db'.stock
        ensures db'.stock[q] >= 0
      {
        SingleLineQty(p.items, q);
        assert forall i | 0 <= i < |p.items| :: !LineConflicts(db, p.items[i]);
      }
    }
  }

  /** The largest quantity a single line asks of a product. */
  ghost function MaxQty(items: seq<Item>, q: ProductId): (m: int)
    ensures m >= 0
    ensures forall i | 0 <= i < |items| :: items[i].product == q ==> items[i].quantity <= m
    ensures m > 0 ==> exists i | 0 <= i < |items| :: items[i].product == q && items[i].quantity == m
  {
    if |items| == 0 then 0
    else
      var n := |items| - 1;
      var m := MaxQty(items[..n], q);
      assert forall i | 0 <= i < n :: items[..n][i] == items[i];
      if items[n].product == q && items[n].quantity > m then items[n].quantity
      else m
  }

  lemma {:induction false} QtyAtLeast(items: seq<Item>, i: nat, q: ProductId)
    requires PositiveQuantities(items) && i < |items| && items[i].product == q
    ensures ItemQty(items, q) >= items[i].quantity
  {
    var n := |items| - 1;
    if i < n {
      QtyAtLeast(items[..n], i, q);
    } else {
      QtyNonNegative(items[..n], q);
    }
  }

  lemma {:induction false} QtyNonNegative(items: seq<Item>, q: ProductId)
    requires PositiveQuantities(items)
    ensures ItemQty(items, q) >= 0
  {
    if |items| > 0 {
      QtyNonNegative(items[..|items| - 1], q);
    }
  }

  /** Two lines of one product ask for more than either of them. */
  lemma {:induction false} QtyOfTwo(items: seq<Item>, i: nat, j: nat, q: ProductId)
    requires PositiveQuantities(items) && i < j < |items|
    requires items[i].product == q && items[j].product == q
    ensures ItemQty(items, q) >= items[i].quantity + items[j].quantity
  {
    var n := |items| - 1;
    if j < n {
      QtyOfTwo(items[..n], i, j, q);
    } else {
      QtyAtLeast(items[..n], i, q);
    }
  }

  /** A shop whose stock of each product just covers the largest single line. */
  ghost function TightShop(p: Payload): Db
  {
    var named := set i | 0 <= i < |p.items| :: p.items[i].product;
    Db({p.device}, map q | q in named :: true, map q | q in named :: MaxQty(p.items, q), [], [], [], [], [], [])
  }

  lemma TightShopServes(p: Payload)
    ensures Initial(TightShop(p)) && NonNegative(TightShop(p).stock)
    ensures !StockConflict(TightShop(p), p.items) && ProductsKnown(TightShop(p).stock, p.items)
  {
    var db := TightShop(p);
    forall k | 0 <= k < |p.items|
      ensures p.items[k].product in db.stock && !LineConflicts(db, p.items[k])
    {
      assert p.items[k].product in db.stock;
    }
  }

  lemma TwoLinesExceedMax(items: seq<Item>, i: nat, j: nat)
    requires PositiveQuantities(items) && i < j < |items| && items[i].product == items[j].product
    ensures ItemQty(items, items[i].product) > MaxQty(items, items[i].product)
  {
    var q := items[i].product;
    var k :| 0 <= k < |items| && items[k].product == q && items[k].quantity == MaxQty(items, q);
    if k < j {
      QtyOfTwo(items, k, j, q);
    } else {
      QtyOfTwo(items, i, k, q);
    }
  }

  lemma TightShopOversold(p: Payload, i: nat, j: nat)
    requires ArithmeticHolds(p) && PositiveQuantities(p.items)
    requires i < j < |p.items| && p.items[i].product == p.items[j].product
    ensures Initial(TightShop(p)) && NonNegative(TightShop(p).stock)
    ensures !NonNegative(Apply(TightShop(p), Sync(p)).stock)
  {
    TightShopServes(p);
    TwoLinesExceedMax(p.items, i, j);
    var db := TightShop(p);
    var q := p.items[i].product;
    assert q in db.stock && db.stock[q] == MaxQty(p.items, q);
    assert Apply(db, Sync(p)).stock == Shift(db.stock, p.items, Out);
    assert Apply(db, Sync(p)).stock[q] < 0;
  }

  ghost predicate SafeOn(db: Db, p: Payload)
  {
    Initial(db) && NonNegative(db.stock) ==> NonNegative(Apply(db, Sync(p)).stock)
  }

  /**
   A well-formed sale keeps every stock non-negative, whatever the non-negative stock it meets,
   exactly when it names no product twice.
   */
  lemma SafeIffDistinct(p: Payload)
    requires ArithmeticHolds(p) && PositiveQuantities(p.items)
    ensures (forall db :: SafeOn(db, p)) <==> DistinctProducts(p.items)
  {
    if DistinctProducts(p.items) {
      forall db
        ensures SafeOn(db, p)
      {
        if NonNegative(db.stock) {
          DistinctIsSafe(db, p);
        }
      }
    } else {
      var i, j :| 0 <= i < j < |p.items| && p.items[i].product == p.items[j].product;
      TightShopOversold(p, i, j);
      assert !SafeOn(TightShop(p), p);
    }
  }

  /** Steps by which the owner does not overrule the stock check, with sales that repeat no product. */
  ghost predicate Guarded(s: Step)
  {
    match s
    case Sync(p) => DistinctProducts(p.items)
    case Resolve(_, action) => action == VOID
    case Correct(_, _) => false
    case _ => true
  }

  /** Any run of such steps, manual adjustments included, keeps all stock non-negative. */
  lemma {:induction false} GuardedRuns(db: Db, steps: seq<Step>)
    requires NonNegative(db.stock)
    requires forall i | 0 <= i < |steps| :: Guarded(steps[i])
    ensures NonNegative(Run(db, steps).stock)
  {
    if |steps| > 0 {
      var init, last := steps[..|steps| - 1], steps[|steps| - 1];
      GuardedRuns(db, init);
      assert Guarded(last);
      if last.Sync? {
        DistinctIsSafe(Run(db, init), last.p);
      }
    }
  }

  // ---- Removed products ----

  /** Steps by which the owner does not touch this product. */
  ghost predicate HandsOff(s: Step, q: ProductId)
  {
    match s
    case Adjust(id, _) => id != q
    case Activate(id, isActive) => id != q || !isActive
    case Resolve(_, action) => action == VOID
    case Correct(_, _) => false
    case _ => true
  }

  ghost predicate Removed(db: Db, q: ProductId)
  {
    q in db.stock && q in db.active && !db.active[q]
  }

  lemma {:induction false} NoLineNoQty(items: seq<Item>, q: ProductId)
    requires forall i | 0 <= i < |items| :: items[i].product != q
    ensures ItemQty(items, q) == 0
  {
    if |items| > 0 {
      NoLineNoQty(items[..|items| - 1], q);
    }
  }

  lemma RemovedIsNotSold(db: Db, s: Step, q: ProductId)
    requires Removed(db, q) && HandsOff(s, q)
    ensures Removed(Apply(db, s), q) && Apply(db, s).stock[q] == db.stock[q]
  {
    if s.Sync? && ProcessTransaction(db, s.p).Success? && !StockConflict(db, s.p.items) {
      forall i | 0 <= i < |s.p.items|
        ensures s.p.items[i].product != q
      {
        assert !LineConflicts(db, s.p.items[i]);
      }
      NoLineNoQty(s.p.items, q);
    }
  }

  /** Queued sales of a removed product, however many arrive, never move its stock. */
  lemma {:induction false} RemovedStaysPut(db: Db, steps: seq<Step>, q: ProductId)
    requires Removed(db, q) && forall i | 0 <= i < |steps| :: HandsOff(steps[i], q)
    ensures Removed(Run(db, steps), q) && Run(db, steps).stock[q] == db.stock[q]
  {
    if |steps| > 0 {
      RemovedStaysPut(db, steps[..|steps| - 1], q);
      assert HandsOff(steps[|steps| - 1], q);
      RemovedIsNotSold(Run(db, steps[..|steps| - 1]), steps[|steps| - 1], q);
    }
  }
}
