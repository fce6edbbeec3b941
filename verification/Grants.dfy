/**
 When each owner operation is granted, what every refusal is called, and what a granted one does
 to the tables, in terms of the rows alone. Together with `EveryStatus` this leaves an operation
 no freedom to refuse, to do nothing, or to do something else.
 */
module Grants {
  import opened Schema
  import opened Ledger
  import opened Operations
  import opened Evolution
  import opened Invariants
  import opened Chains

  // ---- Naming a sale ----

  ghost predicate NamedBy(txs: seq<Transaction>, key: Key, t: TxId)
  {
    t < |txs| && ((key.ById? && key.id == t) || (key.ByUuid? && txs[t].uuid.Some? && txs[t].uuid.value == key.uuid))
  }

  /** The first row the key names. */
  ghost predicate FirstNamed(txs: seq<Transaction>, key: Key, t: TxId)
  {
    NamedBy(txs, key, t) && forall s: TxId | s < t :: !NamedBy(txs, key, s)
  }

  ghost predicate NamesNone(txs: seq<Transaction>, key: Key)
  {
    forall t: TxId | t < |txs| :: !NamedBy(txs, key, t)
  }

  lemma NamedMatches(txs: seq<Transaction>, key: Key, t: TxId)
    requires t < |txs|
    ensures NamedBy(txs, key, t) <==> Matches(txs, t, key)
  {
    assert txs[t].uuid.Some? ==> txs[t].uuid == Some(txs[t].uuid.value);
  }

  lemma FoundIsFirst(txs: seq<Transaction>, key: Key, t: TxId)
    ensures FindOne(txs, key) == Some(t) <==> FirstNamed(txs, key, t)
    ensures FindOne(txs, key) == None <==> NamesNone(txs, key)
  {
    forall s: TxId | s < |txs|
      ensures NamedBy(txs, key, s) <==> Matches(txs, s, key)
    {
      NamedMatches(txs, key, s);
    }
  }

  /** The four calls that name a sale answer NotFound exactly when the key names none. */
  lemma NotFoundIff(db: Db, key: Key, action: Action, dto: CorrectDto)
    ensures VoidTransaction(db, key) == Failure(NotFound) <==> NamesNone(db.txs, key)
    ensures ResolveConflict(db, key, action) == Failure(NotFound) <==> NamesNone(db.txs, key)
    ensures CorrectTransaction(db, key, dto) == Failure(NotFound) <==> NamesNone(db.txs, key)
    ensures OpenCaseByTransaction(db, key) == Failure(NotFound) <==> NamesNone(db.txs, key)
  {
    FoundIsFirst(db.txs, key, 0);
  }

  ghost predicate OnlyRow(a: seq<Transaction>, b: seq<Transaction>, t: TxId)
  {
    |a| <= |b| && forall s | 0 <= s < |a| && s != t :: b[s] == a[s]
  }

  /** The row keeps everything but its two statuses, its confirmation and its void reason. */
  ghost predicate SameFacts(x: Transaction, y: Transaction)
  {
    && y.device == x.device && y.uuid == x.uuid && y.hash == x.hash
    && y.subtotal == x.subtotal && y.total == x.total && y.items == x.items
  }

  // ---- Voiding ----

  lemma VoidIsGranted(opening: map<ProductId, int>, db: Db, key: Key, t: TxId)
    requires Inv(opening, db) && FirstNamed(db.txs, key, t)
    ensures VoidTransaction(db, key).Success? <==> db.txs[t].status == PENDING
    ensures db.txs[t].status == VOIDED ==> VoidTransaction(db, key) == Failure(AlreadyVoided)
    ensures db.txs[t].status == CONFIRMED ==> VoidTransaction(db, key) == Failure(NotPending)
  {
    FoundIsFirst(db.txs, key, t);
    assert RowOk(db.devices, db.stock, db.txs[t]);
  }

  // ---- Resolving a conflict ----

  /** Confirmed with every line deducted, or voided with nothing moved. */
  ghost predicate Resolved(db: Db, after: Db, t: TxId, action: Action)
    requires t < |db.txs|
  {
    && db == after.(txs := db.txs, stock := db.stock, ledger := db.ledger)
    && |after.txs| == |db.txs| && OnlyRow(db.txs, after.txs, t) && SameFacts(db.txs[t], after.txs[t])
    && after.txs[t].sync == SYNCED
    && match action
       case VOID =>
         && after.txs[t].status == VOIDED && after.txs[t].confirmedAt == db.txs[t].confirmedAt
         && after.stock == db.stock && after.ledger == db.ledger
       case CONFIRM =>
         && after.txs[t].status == CONFIRMED && after.txs[t].confirmedAt
         && after.stock.Keys == db.stock.Keys
         && (forall q | q in db.stock :: after.stock[q] == db.stock[q] - ItemQty(db.txs[t].items, q))
         && after.ledger == db.ledger + MovementRows(db.txs[t].items, t, SALE, Out)
  }

  /** Resolving, by whatever key, is granted exactly for a sale in conflict. */
  lemma ResolveIsGranted(opening: map<ProductId, int>, db: Db, key: Key, t: TxId, action: Action)
    requires Inv(opening, db) && FirstNamed(db.txs, key, t)
    ensures ResolveConflict(db, key, action).Success? <==> db.txs[t].sync == SYNC_CONFLICT
    ensures db.txs[t].sync != SYNC_CONFLICT ==> ResolveConflict(db, key, action) == Failure(NotInConflict)
    ensures db.txs[t].sync == SYNC_CONFLICT ==> Resolved(db, ResolveConflict(db, key, action).value, t, action)
  {
    assert ProductsKnown(db.stock, db.txs[t].items) by { assert RowOk(db.devices, db.stock, db.txs[t]); }
    RowIsResolved(db, key, t, action);
  }

  lemma RowIsResolved(db: Db, key: Key, t: TxId, action: Action)
    requires FirstNamed(db.txs, key, t) && ProductsKnown(db.stock, db.txs[t].items)
    ensures ResolveConflict(db, key, action).Success? <==> db.txs[t].sync == SYNC_CONFLICT
    ensures db.txs[t].sync != SYNC_CONFLICT ==> ResolveConflict(db, key, action) == Failure(NotInConflict)
    ensures db.txs[t].sync == SYNC_CONFLICT ==> Resolved(db, ResolveConflict(db, key, action).value, t, action)
  {
    FoundIsFirst(db.txs, key, t);
  }

  // ---- Correcting ----

  ghost predicate AllKnown(stock: map<ProductId, int>, items: seq<Item>)
  {
    forall i | 0 <= i < |items| :: items[i].product in stock
  }

  /** The old sale voided, a confirmed replacement with its payment, one edge, and the stock difference. */
  ghost predicate CorrectedInto(db: Db, after: Db, t: TxId, dto: CorrectDto)
    requires t < |db.txs| == |db.payments|
  {
    var n := |db.txs|;
    && db == after.(txs := db.txs, payments := db.payments, stock := db.stock, ledger := db.ledger, corrections := db.corrections)
    && |after.txs| == n + 1 && OnlyRow(db.txs, after.txs, t) && SameFacts(db.txs[t], after.txs[t])
    && after.txs[t].status == VOIDED && after.txs[t].sync == db.txs[t].sync && after.txs[t].confirmedAt == db.txs[t].confirmedAt
    && after.txs[n].items == dto.items && after.txs[n].total == dto.total && after.txs[n].subtotal == dto.subtotal
    && after.txs[n].status == CONFIRMED && after.txs[n].sync == SYNCED
    && after.txs[n].device == db.txs[t].device && after.txs[n].uuid == None
    && after.payments == db.payments + [db.payments[t].(tx := n, amount := dto.total)]
    && after.corrections == db.corrections + [Correction(t, n)]
    && after.stock.Keys == db.stock.Keys
    && (forall q | q in db.stock :: after.stock[q] == db.stock[q] + ItemQty(db.txs[t].items, q) - ItemQty(dto.items, q))
    && after.ledger == db.ledger + MovementRows(db.txs[t].items, t, CORRECTION, In) + MovementRows(dto.items, n, CORRECTION, Out)
  }

  /**
   Correcting, by whatever key, is granted exactly for a CONFIRMED sale, whether synced or itself
   a replacement, when all new products are known.
   */
  lemma CorrectionIsGranted(opening: map<ProductId, int>, db: Db, key: Key, t: TxId, dto: CorrectDto)
    requires Inv(opening, db) && FirstNamed(db.txs, key, t)
    ensures CorrectTransaction(db, key, dto).Success? <==> db.txs[t].status == CONFIRMED && AllKnown(db.stock, dto.items)
    ensures db.txs[t].status != CONFIRMED ==> CorrectTransaction(db, key, dto) == Failure(NotConfirmed)
    ensures db.txs[t].status == CONFIRMED && !AllKnown(db.stock, dto.items) ==>
              CorrectTransaction(db, key, dto) == Failure(ForeignKeyViolation)
    ensures CorrectTransaction(db, key, dto).Success? ==> CorrectedInto(db, CorrectTransaction(db, key, dto).value, t, dto)
  {
    assert ProductsKnown(db.stock, db.txs[t].items) by { assert RowOk(db.devices, db.stock, db.txs[t]); }
    RowIsCorrected(db, key, t, dto);
  }

  lemma RowIsCorrected(db: Db, key: Key, t: TxId, dto: CorrectDto)
    requires PaymentInv(db.txs, db.payments) && FirstNamed(db.txs, key, t) && ProductsKnown(db.stock, db.txs[t].items)
    ensures CorrectTransaction(db, key, dto).Success? <==> db.txs[t].status == CONFIRMED && AllKnown(db.stock, dto.items)
    ensures db.txs[t].status != CONFIRMED ==> CorrectTransaction(db, key, dto) == Failure(NotConfirmed)
    ensures db.txs[t].status == CONFIRMED && !AllKnown(db.stock, dto.items) ==>
              CorrectTransaction(db, key, dto) == Failure(ForeignKeyViolation)
    ensures CorrectTransaction(db, key, dto).Success? ==> CorrectedInto(db, CorrectTransaction(db, key, dto).value, t, dto)
  {
    FoundIsFirst(db.txs, key, t);
    if db.txs[t].status == CONFIRMED && AllKnown(db.stock, dto.items) {
      BodyCorrects(db, t, dto);
    }
  }

  lemma BodyCorrects(db: Db, t: TxId, dto: CorrectDto)
    requires t < |db.txs| && PaymentInv(db.txs, db.payments) && CorrectionBody(db, t, dto).Success?
    ensures CorrectedInto(db, CorrectionBody(db, t, dto).value, t, dto)
  {
    PaymentAt(db.txs, db.payments, t);
  }

  /** A chain whose tip is CONFIRMED can always be extended by one. */
  lemma ChainExtends(opening: map<ProductId, int>, db: Db, path: seq<TxId>, dto: CorrectDto)
    requires Inv(opening, db) && IsChain(db.txs, db.corrections, path) && AllKnown(db.stock, dto.items)
    requires db.txs[path[|path| - 1]].status == CONFIRMED
    ensures Inv(opening, Apply(db, Correct(ById(path[|path| - 1]), dto)))
    ensures ExtendedBy(Apply(db, Correct(ById(path[|path| - 1]), dto)), path, |db.txs|, db.stock.Keys)
  {
    var tip := path[|path| - 1];
    assert ProductsKnown(db.stock, db.txs[tip].items) by { assert RowOk(db.devices, db.stock, db.txs[tip]); }
    TipIsCorrected(db, path, dto);
    StepKeeps(opening, db, Correct(ById(tip), dto));
  }

  /** The chain has grown by this row, which is CONFIRMED, and the catalogue is as it was. */
  ghost predicate ExtendedBy(db: Db, path: seq<TxId>, n: TxId, products: set<ProductId>)
  {
    && IsChain(db.txs, db.corrections, path + [n])
    && n < |db.txs| && db.txs[n].status == CONFIRMED && db.stock.Keys == products
  }

  lemma TipIsCorrected(db: Db, path: seq<TxId>, dto: CorrectDto)
    requires ChainInv(db.txs, db.corrections) && PaymentInv(db.txs, db.payments)
    requires IsChain(db.txs, db.corrections, path) && AllKnown(db.stock, dto.items)
    requires db.txs[path[|path| - 1]].status == CONFIRMED && ProductsKnown(db.stock, db.txs[path[|path| - 1]].items)
    ensures ExtendedBy(Apply(db, Correct(ById(path[|path| - 1]), dto)), path, |db.txs|, db.stock.Keys)
  {
    var tip := path[|path| - 1];
    RowIsCorrected(db, ById(tip), tip, dto);
    EdgeExtends(db.txs, db.corrections, path, Apply(db, Correct(ById(tip), dto)).txs);
  }

  lemma EdgeExtends(txs: seq<Transaction>, corrections: seq<Correction>, path: seq<TxId>, txs': seq<Transaction>)
    requires ChainInv(txs, corrections) && IsChain(txs, corrections, path) && |txs'| == |txs| + 1
    ensures IsChain(txs', corrections + [Correction(path[|path| - 1], |txs|)], path + [|txs|])
  {
    var n, tip := |txs|, path[|path| - 1];
    var after := corrections + [Correction(tip, n)];
    forall i | 0 <= i < |corrections|
      ensures after[i].oldId < after[i].newId < n
    {
      assert EdgeOk(txs, corrections[i]);
    }
    forall i | 0 <= i < |path|
      ensures Correction((path + [n])[i], (path + [n])[i + 1]) in after
    {
      if i < |path| - 1 {
        assert Correction(path[i], path[i + 1]) in corrections;
      } else {
        assert after[|corrections|] == Correction(tip, n);
      }
    }
    assert path[0] < n;
  }

  /** A confirmed tip at the end of a complete chain, in a state like every reachable one. */
  ghost predicate Extensible(opening: map<ProductId, int>, db: Db, path: seq<TxId>, products: set<ProductId>)
  {
    && Inv(opening, db) && db.stock.Keys == products
    && IsChain(db.txs, db.corrections, path) && db.txs[path[|path| - 1]].status == CONFIRMED
  }

  ghost predicate AllIn(products: set<ProductId>, items: seq<Item>)
  {
    forall i | 0 <= i < |items| :: items[i].product in products
  }

  /** One more correction at the end of a run that leads to an extensible chain. */
  lemma GrowsByOne(opening: map<ProductId, int>, db: Db, before: seq<Step>, path: seq<TxId>, dto: CorrectDto, products: set<ProductId>)
    returns (steps: seq<Step>, longer: seq<TxId>)
    requires Extensible(opening, Run(db, before), path, products) && AllIn(products, dto.items)
    ensures |longer| == |path| + 1 && path <= longer
    ensures Extensible(opening, Run(db, steps), longer, products)
  {
    var mid := Run(db, before);
    var s := Correct(ById(path[|path| - 1]), dto);
    ChainExtends(opening, mid, path, dto);
    steps, longer := before + [s], path + [|mid.txs|];
    assert steps[..|before|] == before;
  }

  /** Chains of every length occur: from one confirmed sale, by correcting each replacement in turn. */
  lemma {:induction false} ChainsOfEveryLength(opening: map<ProductId, int>, db: Db, path: seq<TxId>, dto: CorrectDto,
                                               products: set<ProductId>, more: nat)
    returns (steps: seq<Step>, longer: seq<TxId>)
    requires Extensible(opening, db, path, products) && AllIn(products, dto.items)
    ensures |longer| == |path| + more && path <= longer
    ensures Extensible(opening, Run(db, steps), longer, products)
  {
    if more == 0 {
      steps, longer := [], path;
    } else {
      var before, shorter := ChainsOfEveryLength(opening, db, path, dto, products, more - 1);
      steps, longer := GrowsByOne(opening, db, before, shorter, dto, products);
    }
  }

  // ---- Stock and catalogue ----

  /** An adjustment is granted exactly when the product is known and does not fall below zero. */
  lemma AdjustIsGranted(db: Db, id: ProductId, quantity: int)
    ensures AdjustStock(db, id, quantity).Success? <==> id in db.stock && db.stock[id] + quantity >= 0
    ensures id !in db.stock ==> AdjustStock(db, id, quantity) == Failure(NotFound)
    ensures id in db.stock && db.stock[id] + quantity < 0 ==> AdjustStock(db, id, quantity) == Failure(InsufficientStock)
    ensures AdjustStock(db, id, quantity).Success? ==>
              var after := Apply(db, Adjust(id, quantity));
              && AdjustStock(db, id, quantity).value == after
              && db == after.(stock := db.stock, ledger := db.ledger) && after.stock.Keys == db.stock.Keys
              && (forall q | q in db.stock :: after.stock[q] == db.stock[q] + if q == id then quantity else 0)
              && after.ledger == db.ledger + [StockRow(id, None, ADJUSTMENT, quantity)]
              && (db.stock[id] >= 0 ==> AdjustStock(after, id, -quantity).Success?)
              && Apply(after, Adjust(id, -quantity)).stock == if db.stock[id] >= 0 then db.stock else after.stock
  {
  }

  /** Switching a product on or off is granted exactly for a known one and does just that. */
  lemma ActivationIsGranted(db: Db, id: ProductId, isActive: bool)
    requires CatalogInv(db.active, db.stock)
    ensures SetActive(db, id, isActive).Success? <==> id in db.stock
    ensures id in db.stock ==>
              var after := Apply(db, Activate(id, isActive));
              && db == after.(active := db.active) && after.active.Keys == db.active.Keys
              && (forall q | q in db.active :: after.active[q] == if q == id then isActive else db.active[q])
  {
  }

  /** A new device is known from then on, and nothing else changes. */
  lemma DeviceIsAdded(db: Db, device: DeviceId)
    ensures
      var after := Apply(db, AddDevice(device));
      && db == after.(devices := db.devices)
      && forall d: DeviceId :: d in after.devices <==> d in db.devices || d == device
  {
  }

  /** The two ways of noting a failure, as steps of a run: one more note, or the first one overwritten. */
  lemma FailuresAreNoted(db: Db, p: Payload, note: FailureNote)
    requires p.device in db.devices
    ensures Apply(db, NoteFailure(p, note)) == db.(failures := db.failures + [QueueRow(p.device, p.uuid, note)])
    ensures
      var after := Apply(db, NoteTerminal(p.device, p.uuid));
      && db == after.(failures := db.failures)
      && exists i | 0 <= i < |after.failures| ::
           && after.failures[i] == QueueRow(p.device, p.uuid, ExceededRetries)
           && (forall j | 0 <= j < i :: !(after.failures[j].device == p.device && after.failures[j].uuid == p.uuid))
           && (forall j | 0 <= j < |db.failures| && j != i :: after.failures[j] == db.failures[j])
  {
    var after := Apply(db, NoteTerminal(p.device, p.uuid));
    var at := FindFailure(db.failures, p.device, p.uuid);
    var i := if at.Some? then at.value else |db.failures|;
    assert after.failures[i] == QueueRow(p.device, p.uuid, ExceededRetries);
    assert forall j | 0 <= j < i :: after.failures[j] == db.failures[j];
  }

  // ---- Reconciliation ----

  ghost predicate EverCased(db: Db, pay: PaymentId)
  {
    exists c | 0 <= c < |db.cases| :: db.cases[c].payment == pay
  }

  ghost predicate NowCased(db: Db, pay: PaymentId)
  {
    exists c | 0 <= c < |db.cases| :: db.cases[c].payment == pay && db.cases[c].status == OPEN
  }

  /** By whatever key, the transaction endpoint opens a case exactly for a payment that never had one. */
  lemma OpeningByTransactionIsGranted(db: Db, key: Key, t: TxId)
    requires PaymentInv(db.txs, db.payments) && FirstNamed(db.txs, key, t)
    ensures OpenCaseByTransaction(db, key) ==
              if EverCased(db, t) then Failure(AlreadyUnderReconciliation) else Success(db.(cases := db.cases + [Case(t, OPEN)]))
    ensures Apply(db, OpenByTransaction(key)) == if EverCased(db, t) then db else db.(cases := db.cases + [Case(t, OPEN)])
  {
    FoundIsFirst(db.txs, key, t);
    PaymentAt(db.txs, db.payments, t);
  }

  lemma OpeningByPaymentIsGranted(db: Db, pay: PaymentId)
    ensures OpenCaseByPayment(db, pay) ==
              if pay >= |db.payments| then Failure(NotFound)
              else if NowCased(db, pay) then Failure(AlreadyUnderReconciliation)
              else Success(db.(cases := db.cases + [Case(pay, OPEN)]))
    ensures Apply(db, OpenByPayment(pay)) ==
              if pay >= |db.payments| || NowCased(db, pay) then db else db.(cases := db.cases + [Case(pay, OPEN)])
  {
  }

  /** Closing: the refusals, and the verdict that a granted one leaves. */
  lemma ClosingIsGranted(db: Db, c: CaseId, valid: bool)
    requires CaseInv(db.payments, db.cases)
    ensures c >= |db.cases| ==> ResolveCase(db, c, valid) == Failure(NotFound)
    ensures c < |db.cases| && db.cases[c].status != OPEN ==> ResolveCase(db, c, valid) == Failure(AlreadyResolved)
    ensures c < |db.cases| && db.cases[c].status == OPEN ==>
              && ResolveCase(db, c, valid).Success?
              && ResolveCase(db, c, valid).value.cases == db.cases[c := Case(db.cases[c].payment, if valid then RESOLVED_VALID else RESOLVED_INVALID)]
              && db == ResolveCase(db, c, valid).value.(cases := db.cases, payments := db.payments, txs := db.txs)
              && Apply(db, Close(c, valid)) == ResolveCase(db, c, valid).value
  {
  }

  // ---- All steps together ----

  /** The statuses of a stored sale after any step, told from the tables before it. */
  ghost function StatusesAfter(db: Db, s: Step, t: TxId): (TransactionStatus, SyncStatus)
    requires t < |db.txs|
  {
    var tx := db.txs[t];
    if s.Void? && FirstNamed(db.txs, s.key, t) && tx.status == PENDING then (VOIDED, tx.sync)
    else if s.Resolve? && FirstNamed(db.txs, s.key, t) && tx.sync == SYNC_CONFLICT then
      (if s.action == CONFIRM then CONFIRMED else VOIDED, SYNCED)
    else if s.Correct? && FirstNamed(db.txs, s.key, t) && tx.status == CONFIRMED && AllKnown(db.stock, s.dto.items) then
      (VOIDED, tx.sync)
    else if s.Close? && !s.valid && s.c < |db.cases| && db.cases[s.c].status == OPEN && db.cases[s.c].payment == t then
      (VOIDED, tx.sync)
    else (tx.status, tx.sync)
  }

  /**
   The transition function of a stored sale, both ways: in every reachable state each step leaves
   exactly the statuses that the tables before it determine.
   */
  lemma EveryStatus(opening: map<ProductId, int>, db: Db, s: Step, t: TxId)
    requires Inv(opening, db) && t < |db.txs|
    ensures t < |Apply(db, s).txs|
    ensures (Apply(db, s).txs[t].status, Apply(db, s).txs[t].sync) == StatusesAfter(db, s, t)
  {
    if Quiet(s) || s.Sync? {
      OtherStatus(db, s, t);
    } else if s.Close? {
      ClosedStatus(db, s.c, s.valid, t);
    } else {
      assert forall r | 0 <= r < |db.txs| :: RowOk(db.devices, db.stock, db.txs[r]);
      OwnerStatus(db, s, t);
    }
  }

  lemma OtherStatus(db: Db, s: Step, t: TxId)
    requires t < |db.txs| && (Quiet(s) || s.Sync?)
    ensures t < |Apply(db, s).txs| && Apply(db, s).txs[t] == db.txs[t]
  {
    if Quiet(s) {
      QuietSteps(db, s);
    }
  }

  lemma ClosedStatus(db: Db, c: CaseId, valid: bool, t: TxId)
    requires t < |db.txs| && PaymentInv(db.txs, db.payments) && CaseInv(db.payments, db.cases)
    ensures |Apply(db, Close(c, valid)).txs| == |db.txs|
    ensures (Apply(db, Close(c, valid)).txs[t].status, Apply(db, Close(c, valid)).txs[t].sync) == StatusesAfter(db, Close(c, valid), t)
  {
  }

  lemma OwnerStatus(db: Db, s: Step, t: TxId)
    requires t < |db.txs| && (s.Void? || s.Resolve? || s.Correct?) && PaymentInv(db.txs, db.payments)
    requires forall r | 0 <= r < |db.txs| :: StatusOk(db.txs[r]) && ProductsKnown(db.stock, db.txs[r].items)
    ensures t < |Apply(db, s).txs|
    ensures (Apply(db, s).txs[t].status, Apply(db, s).txs[t].sync) == StatusesAfter(db, s, t)
  {
    var found := FindOne(db.txs, s.key);
    FoundIsFirst(db.txs, s.key, t);
    if found.Some? {
      var r := found.value;
      FoundIsFirst(db.txs, s.key, r);
      match s
      case Void(key) =>
      case Resolve(key, action) => RowIsResolved(db, key, r, action);
      case Correct(key, dto) => RowIsCorrected(db, key, r, dto);
    }
  }
}
