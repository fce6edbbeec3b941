/**
 The tables of `prisma/schema.prisma` that the sync pipeline, the owner operations and the
 reconciliation workflow read and write.

 A table is a sequence of rows in creation order and a row's identifier is its position, so a
 generated identifier is fresh by construction. Money is in integer minor units. A timestamp
 that only matters by being present is a boolean (`confirmedAt`), and the free text of
 `void_reason` is reduced to the four causes the code writes.
 */
module Schema {

  datatype Option<+T> = None | Some(value: T)

  type DeviceId = nat
  type ProductId = nat
  type Uuid = nat
  type TxId = nat
  type PaymentId = nat
  type CaseId = nat

  datatype TransactionStatus = PENDING | CONFIRMED | VOIDED | FAILED
  datatype SyncStatus = PENDING_SYNC | SYNCING | SYNCED | SYNC_FAILED | SYNC_CONFLICT
  datatype PaymentStatus = VERIFIED | FAILED
  datatype PaymentMethod = CASH | STATIC_QRIS | BANK_TRANSFER
  datatype MovementType = SALE | ADJUSTMENT | RETURN | CORRECTION
  datatype CaseStatus = OPEN | RESOLVED_VALID | RESOLVED_INVALID

  /**
   Fields that are stored, copied and hashed but never looked at: product name, SKU and catalogue
   version of a line; cash received, change and references of a payment.
   */
  type Details = nat

  /** One line of a sale, as the device sends it and as `DetailTransaction` stores it. */
  datatype Item = Item(product: ProductId, quantity: int, unitPrice: int, subtotal: int, snapshot: Details)

  datatype PaymentDto = PaymentDto(amount: int, payMethod: PaymentMethod, details: Details)

  /** SHA-256 of the serialised items and payment, taken to be free of collisions. */
  datatype PayloadHash = Sha256(items: seq<Item>, payment: PaymentDto)

  /** `SyncTransactionDto` together with the device identifier the controller attaches. */
  datatype Payload = Payload(
    device: DeviceId,
    uuid: Uuid,
    hash: Option<PayloadHash>,
    subtotal: int,
    total: int,
    items: seq<Item>,
    payment: PaymentDto)

  datatype VoidReason =
    | ByOwner
    | ByConflictResolution
    | ByCorrection(newId: TxId)
    | ByInvalidPayment

  datatype Transaction = Transaction(
    device: DeviceId,
    uuid: Option<Uuid>,
    hash: Option<PayloadHash>,
    subtotal: int,
    total: int,
    items: seq<Item>,
    status: TransactionStatus,
    sync: SyncStatus,
    confirmedAt: bool,
    voidReason: Option<VoidReason>)

  datatype Payment = Payment(tx: TxId, amount: int, payMethod: PaymentMethod, details: Details, status: PaymentStatus)

  /** A `StockHistory` row; `tx` is `None` for a manual adjustment. */
  datatype StockRow = StockRow(product: ProductId, tx: Option<TxId>, movement: MovementType, quantity: int)

  /** A `TransactionCorrection` row. */
  datatype Correction = Correction(oldId: TxId, newId: TxId)

  /** A `Reconciliation` row. */
  datatype Case = Case(payment: PaymentId, status: CaseStatus)

  datatype Error =
    | ArithmeticError
    | DeviceNotFound
    | UniqueViolation
    | ForeignKeyViolation
    | RecordNotFound
    | NotFound
    | AlreadyVoided
    | NotPending
    | NotInConflict
    | NotConfirmed
    | InsufficientStock
    | NoPayment
    | AlreadyUnderReconciliation
    | AlreadyResolved
    | InfrastructureAbort

  /** The code that `handleFailure` writes into `last_error`. */
  datatype FailureNote = SyncArithmeticError | SyncConstraintViolation | SyncUnknownError | ExceededRetries

  /** A `SyncQueue` row; its status is always SYNC_FAILED in this code base. */
  datatype QueueRow = QueueRow(device: DeviceId, uuid: Uuid, note: FailureNote)

  datatype Db = Db(
    devices: set<DeviceId>,
    active: map<ProductId, bool>,
    stock: map<ProductId, int>,
    txs: seq<Transaction>,
    payments: seq<Payment>,
    ledger: seq<StockRow>,
    corrections: seq<Correction>,
    cases: seq<Case>,
    failures: seq<QueueRow>)

  datatype Result<+T> = Success(value: T) | Failure(error: Error) {
    function GetOr(default: T): T
    {
      match this
      case Success(v) => v
      case Failure(_) => default
    }
  }
}
