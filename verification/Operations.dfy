/**
 What each service call does to the database, as one atomic step: the decisions in the order
 the code makes them, and the loops over sale lines in closed form. The service methods are
 proved against these functions, and every run of the system is a sequence of these steps.
 */
module Operations {
  import opened Schema
  import opened Ledger

  // ---- Sync worker ----

  function SubtotalSum(items: seq<Item>): int
  {
    if |items| == 0 then 0
    else SubtotalSum(items[..|items| - 1]) + items[|items| - 1].subtotal
  }

  predicate LinesAddUp(items: seq<Item>)
  {
    forall i | 0 <= i < |items| :: items[i].quantity * items[i].unitPrice == items[i].subtotal
  }

  predicate ArithmeticHolds(p: Payload)
  {
    LinesAddUp(p.items) && SubtotalSum(p.items) == p.subtotal && SubtotalSum(p.items) == p.total
  }

  /** A line the stock check turns into a conflict. */
  predicate LineConflicts(db: Db, item: Item)
  {
    item.product !in db.stock || item.product !in db.active ||
    !db.active[item.product] || db.stock[item.product] < item.quantity
  }

  predicate StockConflict(db: Db, items: seq<Item>)
  {
    exists i | 0 <= i < |items| :: LineConflicts(db, items[i])
  }

  predicate UuidTaken(txs: seq<Transaction>, uuid: Uuid)
  {
    exists t | 0 <= t < |txs| :: txs[t].uuid == Some(uuid)
  }

  /** The idempotency lookup, by device and offline identifier. */
  predicate Stored(txs: seq<Transaction>, device: DeviceId, uuid: Uuid)
  {
    exists t | 0 <= t < |txs| :: txs[t].uuid == Some(uuid) && txs[t].device == device
  }

  function SaleHeader(p: Payload, conflict: bool): Transaction
  {
    Transaction(p.device, Some(p.uuid), p.hash, p.subtotal, p.total, p.items,
                if conflict then PENDING else CONFIRMED,
                if conflict then SYNC_CONFLICT else SYNCED,
                !conflict, None)
  }

  function StoreSale(db: Db, p: Payload, conflict: bool): Db
  {
    var t := |db.txs|;
    db.(txs := db.txs + [SaleHeader(p, conflict)],
        payments := db.payments + [Payment(t, p.payment.amount, p.payment.payMethod, p.payment.details, VERIFIED)],
        stock := if conflict then db.stock else Shift(db.stock, p.items, Out),
        ledger := if conflict then db.ledger else db.ledger + MovementRows(p.items, t, SALE, Out))
  }

  /** One database transaction of the sync worker. */
  function ProcessTransaction(db: Db, p: Payload): Result<Db>
  {
    if !ArithmeticHolds(p) then Failure(ArithmeticError)
    else if p.device !in db.devices then Failure(DeviceNotFound)
    else if UuidTaken(db.txs, p.uuid) then Failure(UniqueViolation)
    else if !ProductsKnown(db.stock, p.items) then Failure(ForeignKeyViolation)
    else Success(StoreSale(db, p, StockConflict(db, p.items)))
  }

  function NoteFor(error: Error): FailureNote
  {
    match error
    case ArithmeticError => SyncArithmeticError
    case DeviceNotFound => SyncConstraintViolation
    case ForeignKeyViolation => SyncConstraintViolation
    case _ => SyncUnknownError
  }

  /** `handleFailure`: the row references the device, so an unknown device leaves no trace. */
  function RecordFailure(db: Db, p: Payload, note: FailureNote): Db
  {
    if p.device in db.devices
    then db.(failures := db.failures + [QueueRow(p.device, p.uuid, note)])
    else db
  }

  /** What the worker does with one sale of a batch when the infrastructure holds. */
  function HandleOne(db: Db, p: Payload): Db
  {
    if Stored(db.txs, p.device, p.uuid) then db
    else
      match ProcessTransaction(db, p)
      case Success(after) => after
      case Failure(e) => RecordFailure(db, p, NoteFor(e))
  }

  function HandleBatch(db: Db, batch: seq<Payload>): Db
  {
    if |batch| == 0 then db
    else HandleOne(HandleBatch(db, batch[..|batch| - 1]), batch[|batch| - 1])
  }

  /** Position of the first SyncQueue row for a device and offline identifier. */
  function FindFailure(rows: seq<QueueRow>, device: DeviceId, uuid: Uuid): (r: Option<nat>)
    ensures r.Some? ==> r.value < |rows| && rows[r.value].device == device && rows[r.value].uuid == uuid
    ensures r.Some? ==> forall i | 0 <= i < r.value :: !(rows[i].device == device && rows[i].uuid == uuid)
    ensures r.None? <==> forall i | 0 <= i < |rows| :: !(rows[i].device == device && rows[i].uuid == uuid)
  {
    if |rows| == 0 then None
    else
      var n := |rows| - 1;
      match FindFailure(rows[..n], device, uuid)
      case Some(i) => assert rows[..n][i] == rows[i]; Some(i)
      case None =>
        assert forall i | 0 <= i < n :: rows[i] == rows[..n][i];
        if rows[n].device == device && rows[n].uuid == uuid then Some(n) else None
  }

  /** `recordTerminalFailure`: update the existing row, or create one. */
  function RecordTerminal(db: Db, device: DeviceId, uuid: Uuid): Db
  {
    match FindFailure(db.failures, device, uuid)
    case Some(i) => db.(failures := db.failures[i := db.failures[i].(note := ExceededRetries)])
    case None =>
      if device in db.devices
      then db.(failures := db.failures + [QueueRow(device, uuid, ExceededRetries)])
      else db
  }

  // ---- Looking rows up ----

  /** The owner endpoints accept a transaction id or an offline identifier. */
  datatype Key = ById(id: TxId) | ByUuid(uuid: Uuid)

  predicate Matches(txs: seq<Transaction>, t: TxId, key: Key)
    requires t < |txs|
  {
    match key
    case ById(id) => t == id
    case ByUuid(u) => txs[t].uuid == Some(u)
  }

  function FindOne(txs: seq<Transaction>, key: Key): (r: Option<TxId>)
    ensures r.Some? ==> r.value < |txs| && Matches(txs, r.value, key)
    ensures r.Some? ==> forall t: TxId | t < r.value :: !Matches(txs, t, key)
    ensures r.None? <==> forall t: TxId | t < |txs| :: !Matches(txs, t, key)
  {
    FindFrom(txs, key, 0)
  }

  function FindFrom(txs: seq<Transaction>, key: Key, start: nat): (r: Option<TxId>)
    requires start <= |txs|
    requires forall t: TxId | t < start :: !Matches(txs, t, key)
    ensures r.Some? ==> r.value < |txs| && Matches(txs, r.value, key)
    ensures r.Some? ==> forall t: TxId | t < r.value :: !Matches(txs, t, key)
    ensures r.None? <==> forall t: TxId | t < |txs| :: !Matches(txs, t, key)
    decreases |txs| - start
  {
    if start == |txs| then None
    else if Matches(txs, start, key) then Some(start)
    else FindFrom(txs, key, start + 1)
  }

  /** The payment row of a transaction. */
  function FindPayment(payments: seq<Payment>, t: TxId): (r: Option<PaymentId>)
    ensures r.Some? ==> r.value < |payments| && payments[r.value].tx == t
    ensures r.None? <==> forall i | 0 <= i < |payments| :: payments[i].tx != t
  {
    if |payments| == 0 then None
    else
      var n := |payments| - 1;
      if payments[n].tx == t then Some(n)
      else
        assert forall i | 0 <= i < n :: payments[i] == payments[..n][i];
        FindPayment(payments[..n], t)
  }

  // ---- Owner operations on transactions ----

  datatype Action = CONFIRM | VOID

  datatype CorrectDto = CorrectDto(items: seq<Item>, subtotal: int, total: int)

  /** The write of `voidTransaction`, after the status check. */
  function VoidBody(db: Db, t: TxId): Db
    requires t < |db.txs|
  {
    db.(txs := db.txs[t := db.txs[t].(status := VOIDED, voidReason := Some(ByOwner))])
  }

  function VoidTransaction(db: Db, key: Key): Result<Db>
  {
    match FindOne(db.txs, key)
    case None => Failure(NotFound)
    case Some(t) =>
      if db.txs[t].status == VOIDED then Failure(AlreadyVoided)
      else if db.txs[t].status != PENDING then Failure(NotPending)
      else Success(VoidBody(db, t))
  }

  /** The writes of `resolveConflict`, after the check of the sync status. */
  function ResolveBody(db: Db, t: TxId, action: Action): Result<Db>
    requires t < |db.txs|
  {
    var tx := db.txs[t];
    if action == VOID then
      Success(db.(txs := db.txs[t := tx.(status := VOIDED, sync := SYNCED, voidReason := Some(ByConflictResolution))]))
    else if !ProductsKnown(db.stock, tx.items) then Failure(RecordNotFound)
    else
      Success(db.(txs := db.txs[t := tx.(status := CONFIRMED, sync := SYNCED, confirmedAt := true)],
                  stock := Shift(db.stock, tx.items, Out),
                  ledger := db.ledger + MovementRows(tx.items, t, SALE, Out)))
  }

  function ResolveConflict(db: Db, key: Key, action: Action): Result<Db>
  {
    match FindOne(db.txs, key)
    case None => Failure(NotFound)
    case Some(t) =>
      if db.txs[t].sync != SYNC_CONFLICT then Failure(NotInConflict)
      else ResolveBody(db, t, action)
  }

  function CorrectedHeader(prior: Transaction, dto: CorrectDto): Transaction
  {
    Transaction(prior.device, None, None, dto.subtotal, dto.total, dto.items, CONFIRMED, SYNCED, true, None)
  }

  function ClonedPayment(payments: seq<Payment>, oldId: TxId, newId: TxId, total: int): seq<Payment>
  {
    match FindPayment(payments, oldId)
    case None => []
    case Some(i) => [payments[i].(tx := newId, amount := total)]
  }

  /** The database transaction inside `correctTransaction`, after the status check. */
  function CorrectionBody(db: Db, t: TxId, dto: CorrectDto): Result<Db>
    requires t < |db.txs|
  {
    var prior := db.txs[t];
    var n := |db.txs|;
    if !ProductsKnown(db.stock, prior.items) then Failure(RecordNotFound)
    else if !ProductsKnown(db.stock, dto.items) then Failure(ForeignKeyViolation)
    else
      Success(db.(
        txs := db.txs[t := prior.(status := VOIDED, voidReason := Some(ByCorrection(n)))] + [CorrectedHeader(prior, dto)],
        payments := db.payments + ClonedPayment(db.payments, t, n, dto.total),
        stock := Shift(Shift(db.stock, prior.items, In), dto.items, Out),
        ledger := db.ledger + MovementRows(prior.items, t, CORRECTION, In) + MovementRows(dto.items, n, CORRECTION, Out),
        corrections := db.corrections + [Correction(t, n)]))
  }

  function CorrectTransaction(db: Db, key: Key, dto: CorrectDto): Result<Db>
  {
    match FindOne(db.txs, key)
    case None => Failure(NotFound)
    case Some(t) =>
      if db.txs[t].status != CONFIRMED then Failure(NotConfirmed)
      else CorrectionBody(db, t, dto)
  }

  // ---- Catalog ----

  /** A product starts with no stock; its identifier is generated, hence fresh. */
  function CreateProduct(db: Db, id: ProductId, isActive: bool): Result<Db>
  {
    if id in db.stock || id in db.active then Failure(UniqueViolation)
    else Success(db.(stock := db.stock[id := 0], active := db.active[id := isActive]))
  }

  function SetActive(db: Db, id: ProductId, isActive: bool): Result<Db>
  {
    if id !in db.active then Failure(NotFound)
    else Success(db.(active := db.active[id := isActive]))
  }

  /** The database transaction inside `adjustStock`, after the check. */
  function AdjustBody(db: Db, id: ProductId, quantity: int): Db
    requires id in db.stock
  {
    db.(stock := db.stock[id := db.stock[id] + quantity],
        ledger := db.ledger + [StockRow(id, None, ADJUSTMENT, quantity)])
  }

  function AdjustStock(db: Db, id: ProductId, quantity: int): Result<Db>
  {
    if id !in db.stock then Failure(NotFound)
    else if db.stock[id] + quantity < 0 then Failure(InsufficientStock)
    else Success(AdjustBody(db, id, quantity))
  }

  // ---- Reconciliation ----

  predicate HasCase(cases: seq<Case>, payment: PaymentId)
  {
    exists c | 0 <= c < |cases| :: cases[c].payment == payment
  }

  predicate HasOpenCase(cases: seq<Case>, payment: PaymentId)
  {
    exists c | 0 <= c < |cases| :: cases[c].payment == payment && cases[c].status == OPEN
  }

  /** `POST /reconciliations`: refuses once any case exists for the payment. */
  function OpenCaseByTransaction(db: Db, key: Key): Result<Db>
  {
    match FindOne(db.txs, key)
    case None => Failure(NotFound)
    case Some(t) =>
      match FindPayment(db.payments, t)
      case None => Failure(NoPayment)
      case Some(pay) =>
        if HasCase(db.cases, pay) then Failure(AlreadyUnderReconciliation)
        else Success(db.(cases := db.cases + [Case(pay, OPEN)]))
  }

  /** `POST /payments/:id/reconcile`: refuses only while a case is open. */
  function OpenCaseByPayment(db: Db, pay: PaymentId): Result<Db>
  {
    if pay >= |db.payments| then Failure(NotFound)
    else if HasOpenCase(db.cases, pay) then Failure(AlreadyUnderReconciliation)
    else Success(db.(cases := db.cases + [Case(pay, OPEN)]))
  }

  /** The sale is voided unless it had been seen voided when the case was read. */
  function VoidForInvalidPayment(txs: seq<Transaction>, t: TxId, seen: TransactionStatus): seq<Transaction>
  {
    if t < |txs| && seen != VOIDED
    then txs[t := txs[t].(status := VOIDED, voidReason := Some(ByInvalidPayment))]
    else txs
  }

  function Verdict(valid: bool): CaseStatus
  {
    if valid then RESOLVED_VALID else RESOLVED_INVALID
  }

  /** The writes of `resolve`, after the checks; `seen` is the status of the sale as read before. */
  function CloseBody(db: Db, c: CaseId, valid: bool, seen: TransactionStatus): Result<Db>
    requires c < |db.cases|
  {
    var cs := db.cases[c];
    var closed := db.cases[c := cs.(status := Verdict(valid))];
    if valid then Success(db.(cases := closed))
    else if cs.payment >= |db.payments| then Failure(RecordNotFound)
    else
      var pay := db.payments[cs.payment];
      Success(db.(cases := closed,
                  payments := db.payments[cs.payment := pay.(status := PaymentStatus.FAILED)],
                  txs := VoidForInvalidPayment(db.txs, pay.tx, seen)))
  }

  /** Status of the sale whose payment the case is about. */
  function SaleStatus(db: Db, c: CaseId): TransactionStatus
    requires c < |db.cases|
  {
    var pay := db.cases[c].payment;
    if pay < |db.payments| && db.payments[pay].tx < |db.txs| then db.txs[db.payments[pay].tx].status else VOIDED
  }

  function ResolveCase(db: Db, c: CaseId, valid: bool): Result<Db>
  {
    if c >= |db.cases| then Failure(NotFound)
    else if db.cases[c].status != OPEN then Failure(AlreadyResolved)
    else CloseBody(db, c, valid, SaleStatus(db, c))
  }

  // ---- Runs ----

  datatype Step =
    | Sync(p: Payload)
    | NoteFailure(p: Payload, note: FailureNote)
    | NoteTerminal(device: DeviceId, uuid: Uuid)
    | AddDevice(device: DeviceId)
    | AddProduct(id: ProductId, isActive: bool)
    | Activate(id: ProductId, isActive: bool)
    | Adjust(id: ProductId, quantity: int)
    | Void(key: Key)
    | Resolve(key: Key, action: Action)
    | Correct(key: Key, dto: CorrectDto)
    | OpenByTransaction(key: Key)
    | OpenByPayment(pay: PaymentId)
    | Close(c: CaseId, valid: bool)

  /** The outcome of one call; a call that fails has rolled back. */
  function Try(db: Db, s: Step): Result<Db>
  {
    match s
    case Sync(p) => ProcessTransaction(db, p)
    case NoteFailure(p, note) => Success(RecordFailure(db, p, note))
    case NoteTerminal(device, uuid) => Success(RecordTerminal(db, device, uuid))
    case AddDevice(d) => Success(db.(devices := db.devices + {d}))
    case AddProduct(id, isActive) => CreateProduct(db, id, isActive)
    case Activate(id, isActive) => SetActive(db, id, isActive)
    case Adjust(id, q) => AdjustStock(db, id, q)
    case Void(key) => VoidTransaction(db, key)
    case Resolve(key, action) => ResolveConflict(db, key, action)
    case Correct(key, dto) => CorrectTransaction(db, key, dto)
    case OpenByTransaction(key) => OpenCaseByTransaction(db, key)
    case OpenByPayment(pay) => OpenCaseByPayment(db, pay)
    case Close(c, valid) => ResolveCase(db, c, valid)
  }

  function Apply(db: Db, s: Step): Db
  {
    Try(db, s).GetOr(db)
  }

  function Run(db: Db, steps: seq<Step>): Db
  {
    if |steps| == 0 then db
    else Apply(Run(db, steps[..|steps| - 1]), steps[|steps| - 1])
  }

  lemma {:induction false} RunAppend(db: Db, a: seq<Step>, b: seq<Step>)
    ensures Run(db, a + b) == Run(Run(db, a), b)
  {
    if |b| == 0 {
      assert a + b == a;
    } else {
      assert (a + b)[..|a + b| - 1] == a + b[..|b| - 1];
      RunAppend(db, a, b[..|b| - 1]);
    }
  }
}
