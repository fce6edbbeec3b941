/**
 `products.service.ts`: the catalogue writes that touch stock.
 */
module Products {
  import opened Schema
  import opened Operations
  import opened Tables

  /** Product and inventory row are created together, with no stock. */
  method Create(db: Database, id: ProductId, isActive: bool) returns (error: Option<Error>)
    modifies db`stock, db`active
    ensures
      match CreateProduct(old(db.View()), id, isActive)
      case Success(after) => error == None && db.View() == after
      case Failure(e) => error == Some(e) && db.View() == old(db.View())
    ensures error == None <==> id !in old(db.stock) && id !in old(db.active)
    ensures error == None ==> id in db.stock && db.stock[id] == 0 && id in db.active && db.active[id] == isActive
    ensures forall q | q in old(db.stock) :: q in db.stock && db.stock[q] == old(db.stock)[q]
  {
    if id in db.stock || id in db.active {
      return Some(UniqueViolation);
    }
    db.active := db.active[id := isActive];
    db.stock := db.stock[id := 0];
    return None;
  }

  method AdjustStock(db: Database, id: ProductId, quantity: int) returns (error: Option<Error>, current: int)
    modifies db`stock, db`ledger
    ensures
      match Operations.AdjustStock(old(db.View()), id, quantity)
      case Success(after) => error == None && db.View() == after && current == db.stock[id] && 0 <= current
      case Failure(e) => error == Some(e) && db.View() == old(db.View())
  {
    current := 0;
    if id !in db.stock {
      return Some(NotFound), 0;
    }
    var previousStock := db.stock[id];
    var newStock := previousStock + quantity;
    if newStock < 0 {
      return Some(InsufficientStock), previousStock;
    }
    var ok := db.AdjustInventoryAndHistory(id, None, ADJUSTMENT, quantity);
    assert ok;
    return None, db.stock[id];
  }
}
