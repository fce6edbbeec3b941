# K-POS offline synchronisation: a verified model

K-POS lets cashiers sell without a network. Devices send batches of offline sales; the API checks
them against stored payload hashes and publishes them to RabbitMQ; workers turn each sale into
rows under row locks, or record why they could not; owners later void, resolve, correct, adjust
and reconcile. This project models that back office and proves what its operations keep over
whole runs, under duplicate delivery, retries, crashes and concurrent workers.

`dafny verify dfyconfig.toml` checks everything.

## How the model is organised

- `Schema`, `Ledger`: the tables, and sums over sale lines and ledger rows.
- `Operations`: what every service call does to the database as one atomic step (`Try`, `Apply`),
  and runs of such steps (`Run`). `Step` is everything that can happen to the tables.
- `Tables` (Database.dfy), `SyncConsumer`, `Transactions`, `Products`, `Reconciliations`,
  `SyncService`, `SyncController`, `Delivery`, `Chains`, `Paging`: the services as methods over
  mutable tables, with the loops of the code, each proved against its step in `Operations` or
  against the property it promises.
- `Evolution`, `Invariants`: what one step may change, and what holds in every reachable state.
- `Conservation`, `ExactlyOnce`, `Chains`, `ChainPayments`, `Lifecycle`, `Cases`, `Revenue`,
  `NonNegative`, `SyncService`: results over all runs.
- `Races`: the unlocked checks of the owner operations, when they are stale.
- `Workers`: workers that lock, check, insert, deduct and commit in interleaved small steps, and
  the proof that every interleaving equals an atomic run.
- `Delivery`, `NoLoss`, `Retry`: the broker, the dead-letter consumer and the retry queues.
- `InFlight`: broker, dead-letter consumer, interleaved workers and owners as one system.
- `Liveness`: what does happen: workers end, messages are acknowledged, and every run of the coarser
  model comes about in the finer one.
- `Grants`: when each owner operation is granted, how it is refused, and its whole effect.

## What is assumed

- Identifiers are numbers; the identifier of a row is its position, so it is fresh. Transaction
  identifiers and offline identifiers are different name spaces (`Key`), as cuids and UUIDs are.
- Money is in integer minor units; quantities are integers. Stock may be any integer.
- A database transaction is atomic and rolls back when it throws; uniqueness and foreign keys are
  those of `prisma/schema.prisma`. Deadlocks and infrastructure errors are aborts at any point.
- The user `system_sync`, whom every sale's ledger rows reference, exists.
- SHA-256 has no collisions.
- In runs, void, resolve, correct, adjust and the reconciliation calls are one atomic step each,
  although the code reads and checks a row before its database transaction and without a lock.
  `Races` applies each write to a database in which the check may no longer hold, and gives for each
  the exact condition under which the whole invariant of reachable states survives, and what breaks
  otherwise: conservation, the single deduction, one correction out of a row, one history per row.
- A product created while a sale is in flight is not one the sale already names, because product
  identifiers are generated. `Workers.MissingRowsCannotBeLocked` shows that the argument needs it.
- In `Delivery` a worker handles one sale of its batch as one atomic step. `InFlight` proves that the
  system in which the same workers go through the small steps of `Workers` has no other runs, and
  `Liveness` that it has these.

## Where code and documentation differ

The model follows the code.

- `docs/architecture_justification.md` (section 7) says that the row lock keeps stock from going
  negative. The check compares each line by itself, so a sale naming a product twice can oversell:
  `NonNegative.SafeIffDistinct` gives the exact condition.
- `README.md:31` says sales are executed sequentially; up to ten messages are in flight
  (`src/main.ts:81`). `Workers.InterleavingIsAtomic` proves that the effect is sequential.
- The cursor of the transaction listing is documented as the last row of the previous page; the
  code hands out, and starts the next page with, the first row not shown. The product listing
  hands out the same kind of cursor but also skips its row, and so loses rows
  (`Paging.ProductIsListedIff`).
- The stock check calls a line with an unknown product a conflict, but the insert of that line
  then violates a foreign key, so the sale ends as failed and not as a conflict
  (`ExactlyOnce.Classification`).
- The idempotency lookup is by device and offline identifier, while the identifier is also unique
  on its own: the same identifier from a second device is not skipped but rejected as failed.
- A dead-letter message is acknowledged also when publishes of its sales to the retry queues fail;
  `NoLoss.LostIffPublishFails` says which sales of a message are lost, and
  `NoLoss.MoveLosesIffDrops` that nothing else loses one.
- A client that is told the broker is unavailable may still have its batch processed: the publish
  is given up after a timeout, not withdrawn (`SyncController.SyncTransactions`).
- The messages of void and resolve suggest that voiding is final; a voided sale still in conflict
  can be confirmed (`Lifecycle.VoidedForeverIff`).

## Model

| member | source | states |
|---|---|---|
| Tables.Database.AdjustInventoryAndHistory | src/common/utils/inventory.util.ts:17-47 | stock changes by the given quantity and one ledger row with the same quantity is appended, together; a missing stock row fails and changes neither |
| Tables.Database.MoveStock | src/modules/transactions/transactions.service.ts:220-321 | the loop over sale lines succeeds exactly when every product is known, and then shifts each product by the sum of its lines and writes one ledger row per line in order |
| SyncConsumer.ValidateArithmetic | src/modules/sync/sync-consumer.service.ts:236-253 | accepts exactly the payloads whose every line and both totals are exact |
| SyncConsumer.CheckStockAvailability | src/modules/sync/sync-consumer.service.ts:255-273 | with its early exit, reports a conflict exactly when some line is unknown, inactive or short of stock |
| SyncConsumer.ProcessTransaction | src/modules/sync/sync-consumer.service.ts:194-234 | all or nothing: header, lines, payment and, without a conflict, the whole deduction; or an error and the tables as before |
| SyncConsumer.HandleSyncTransactionBatch | src/modules/sync/sync-consumer.service.ts:81-119 | sale by sale, a failure never stops the batch, and the message is always acknowledged |
| SyncConsumer.RecordTerminalFailure | src/modules/sync/sync-consumer.service.ts:159-190 | the first existing note is overwritten, or one is created when the device exists |
| Operations.FindOne | src/modules/transactions/transactions.service.ts:58-69 | the first row matching a transaction id or offline identifier, and none exactly when no row matches |
| Operations.FindFailure | src/modules/sync/sync-consumer.service.ts:161-163 | the first note of a device and offline identifier, and none exactly when there is none |
| Lifecycle.VoidIsProvisional | src/modules/transactions/transactions.service.ts:71-98 | voiding is granted exactly for a pending conflict, changes that one row, moves nothing, changes no reported status, cannot be repeated, and resolving the conflict afterwards has the effect of resolving it at once |
| Transactions.ResolveConflict | src/modules/transactions/transactions.service.ts:100-130 | judges by the sync status alone; confirming deducts all lines or rolls back, voiding moves nothing |
| Transactions.CorrectConfirmed | src/modules/transactions/transactions.service.ts:141-169 | revert, re-create, deduct, clone payment, void and link as one transaction, or no change at all |
| Transactions.CorrectTransaction | src/modules/transactions/transactions.service.ts:132-170 | corrects CONFIRMED sales only; all other cases change nothing |
| Grants.CorrectionIsGranted | src/modules/transactions/transactions.service.ts:132-170 | under the invariant, by whatever key, a correction is granted exactly if the first named row is CONFIRMED, whether synced or itself a replacement, and all new products are known; each refusal has its error, and the whole new state is given |
| Grants.ChainExtends | src/modules/transactions/transactions.service.ts:132-170 | a chain whose tip is CONFIRMED can be corrected once more, and its new tip is again CONFIRMED |
| Grants.ChainsOfEveryLength | src/modules/transactions/transactions.service.ts:132-170 | from such a chain runs lead to chains of every greater length |
| Grants.NotFoundIff | src/modules/transactions/transactions.service.ts:58-69 | the four calls that name a sale answer NotFound exactly when no row bears the id or offline identifier |
| Grants.VoidIsGranted | src/modules/transactions/transactions.service.ts:71-82 | by whatever key, voiding is granted exactly for a PENDING sale, and each refusal has its error |
| Grants.ResolveIsGranted | src/modules/transactions/transactions.service.ts:100-130 | by whatever key, resolving is granted exactly for a sale in SYNC_CONFLICT; confirming deducts every line, voiding moves nothing, and nothing else changes |
| Grants.AdjustIsGranted | src/modules/products/products.service.ts:189-243 | an adjustment is granted exactly if the product is known and stock plus quantity is not negative, changes that product by that quantity with one ledger row, and can be taken back |
| Grants.ActivationIsGranted | src/modules/products/products.service.ts:120-187 | a product is switched on or off exactly if it is known, and no other is |
| Grants.FailuresAreNoted | src/modules/sync/sync-consumer.service.ts:159-190 | noting a failure adds one note; noting it for good overwrites the first note of the sale or adds one, and touches nothing else |
| Grants.OpeningByTransactionIsGranted | src/modules/reconciliations/reconciliations.service.ts:11-50 | by whatever key, a case is opened exactly for a payment that never had one |
| Grants.OpeningByPaymentIsGranted | src/modules/payments/payments.service.ts:81-113 | a case is opened exactly for a known payment without an open one |
| Grants.ClosingIsGranted | src/modules/reconciliations/reconciliations.service.ts:70-146 | each refusal has its error, and a granted closing leaves the verdict given |
| Grants.EveryStatus | src/modules/transactions/transactions.service.ts:71-170 | in every reachable state each step leaves exactly the statuses of a sale that the tables before it determine |
| Conservation.CreatedStartsEmpty | src/modules/products/products.service.ts:28-52 | creation is refused exactly for a known identifier; a created product has after any later run exactly the stock that adjustments since its creation and its own sales explain, starting from zero |
| Products.AdjustStock | src/modules/products/products.service.ts:189-243 | refuses to go below zero, otherwise adjusts stock and ledger and returns the new stock |
| Cases.OpeningsAgreeIff | src/modules/reconciliations/reconciliations.service.ts:34-48 | in a reachable state the payment endpoint opens exactly when no case is open, the transaction endpoint exactly when there never was one, and the two agree if and only if the payment has no past case or has an open one |
| Cases.OneCaseByTransaction | src/modules/reconciliations/reconciliations.service.ts:34-40 | once a payment has a case, the transaction endpoint never opens another in any later run, however the case was opened or closed |
| Cases.WhatClosingChanges | src/modules/reconciliations/reconciliations.service.ts:90-145 | in a reachable state closing is granted exactly for an open case and only once; valid changes that case alone; invalid also fails that payment, voids its sale, leaves all other rows, and takes what the sale earned out of revenue |
| Evolution.RunEvolves | src/modules/transactions/transactions.service.ts:348-373 | over any run from any state no row is deleted, no line, total, hash or ledger row is rewritten, VOIDED and SYNCED is absorbing, failed payments and resolved cases stay so |
| Invariants.RunKeeps | prisma/schema.prisma:228-351 | every reachable state satisfies the whole invariant: statuses, exact ledger rows per sale, stock equal to opening plus ledger, correction edges, one payment per sale, cases |
| Invariants.StepKeeps | src/common/utils/inventory.util.ts:31-46 | each of the thirteen kinds of step keeps that invariant |
| Ledger.LedgerSplits | src/common/utils/inventory.util.ts:36-46 | what the ledger records for a product is the manual rows plus what each transaction moved |
| Conservation.NetMovementOf | src/modules/transactions/transactions.service.ts:250-321 | by the ledger, each sale has moved minus its quantities if its goods left, and zero otherwise |
| Conservation.RunConservation | src/common/utils/inventory.util.ts:31-46 | after any run stock is opening plus successful manual adjustments minus the quantities of exactly the sales CONFIRMED or voided as RESOLVED_INVALID after confirmation |
| Conservation.CorrectionMoves | src/modules/transactions/transactions.service.ts:132-170 | one correction moves each product by old minus new quantity, repeated lines included |
| Conservation.CorrectionKeepsStockIff | src/modules/transactions/transactions.service.ts:250-321 | a correction leaves the stock table unchanged if and only if no product's total quantity changes |
| Races.RacedCorrection | src/modules/transactions/transactions.service.ts:133-141 | when the unlocked status check is stale, conservation survives for a product if and only if the goods were still out or the old sale did not contain it |
| Races.TwiceCorrected | src/modules/transactions/transactions.service.ts:133-141 | two corrections that both pass the stale check leave two edges, two CONFIRMED replacements and the goods returned twice |
| Races.CorrectKeepsIff | src/modules/transactions/transactions.service.ts:132-170 | a late correction keeps the whole invariant if and only if the goods of the sale are with the customer |
| Races.RacedEdges | src/modules/transactions/transactions.service.ts:133-170 | after a correction whose check is stale, every row still has at most one correction out if and only if the row had not been corrected meanwhile |
| Races.RacedHistory | src/modules/transactions/transactions.service.ts:173-216 | after it, complete chains that share a row are still the same list if and only if the row had not been corrected meanwhile |
| Races.RacedVoid | src/modules/transactions/transactions.service.ts:71-98 | a late void keeps conservation for a product if and only if the goods had not left meanwhile or the sale does not contain it |
| Races.VoidKeepsIff | src/modules/transactions/transactions.service.ts:71-98 | a late void keeps the whole invariant of reachable states if and only if the sale was never confirmed |
| Races.ResolveKeepsIff | src/modules/transactions/transactions.service.ts:100-130 | a late resolution keeps the whole invariant if and only if the sale was never confirmed (or it confirms a sale without lines that was not corrected), and conservation of a product if and only if the goods had not left or the sale does not contain it |
| Races.DeductedOnceIff | src/modules/transactions/transactions.service.ts:103-111 | after a late confirmation a synced sale has one set of SALE rows if and only if it was never confirmed before or has no lines |
| Races.TwiceAdjusted | src/modules/products/products.service.ts:204-235 | two adjustments that both pass the check keep conservation, and leave non-negative stock if and only if their sum would have passed it |
| Races.AdjustKeepsAlways | src/modules/products/products.service.ts:214-235 | an adjustment keeps the whole invariant however late it comes |
| Races.OpenKeepsIff | src/modules/payments/payments.service.ts:94-112 | opening a case after a stale check keeps the whole invariant if and only if no case of the payment is open |
| Races.RacedClosing | src/modules/reconciliations/reconciliations.service.ts:131-142 | voiding by a stale status keeps conservation for a product if and only if the sale had not been corrected meanwhile or does not contain it |
| Races.CloseKeepsIff | src/modules/reconciliations/reconciliations.service.ts:80-145 | a late verdict leaves the case with its first verdict if and only if the case was still open or already bore it; and keeps the whole invariant if and only if the sale is left alone or is in conflict or was once confirmed, and was not corrected |
| ExactlyOnce.Classification | src/modules/sync/sync-consumer.service.ts:91-114 | a delivery is exactly one of skipped, confirmed with full deduction, conflict with none, rejected with sales, stock and ledger untouched and a note saying why |
| ExactlyOnce.ArithmeticMeans | src/modules/sync/sync-consumer.service.ts:236-253 | the arithmetic check accepts exactly the payloads whose lines are the products and whose totals are the sum of quantity times unit price |
| ExactlyOnce.RefusedBecause | src/modules/sync/sync-consumer.service.ts:194-253 | a sale is refused exactly when a sum is wrong, the device unknown, the identifier taken or a product unknown, and with the error of the first of these that applies |
| ExactlyOnce.BatchClassification | src/modules/sync/sync-consumer.service.ts:91-114 | an empty batch changes nothing, and each sale of a batch, as it was sent, is classified against what the sales before it have left |
| ExactlyOnce.BatchOfOne | src/modules/sync/sync-consumer.service.ts:91-114 | a batch of one sale has one of the four outcomes with its exact effect |
| ExactlyOnce.ReplayIsIdempotent | src/modules/sync/sync-consumer.service.ts:91-114 | redelivering any payloads of a batch in any order and number changes nothing but failure notes |
| ExactlyOnce.BatchingIsIrrelevant | src/modules/sync/sync-consumer.service.ts:91-118 | processing two batches joined equals processing one after the other |
| ExactlyOnce.CrashesAreInvisible | src/modules/sync/sync-consumer.service.ts:91-118 | however many deliveries of a batch are cut short, wherever each of them is, the one that completes leaves the sales, payments, stock and ledger of a single delivery |
| ExactlyOnce.NeverReapplied | src/modules/sync/sync-consumer.service.ts:93-105 | a stored offline identifier is never applied again, after any voids, corrections or other steps, even with other contents or from another device |
| ExactlyOnce.ExactlyOnceEffect | prisma/schema.prisma:245-300 | in every reachable state an offline identifier has one transaction, one payment, and one SALE row per line exactly if it was ever confirmed |
| ExactlyOnce.FirstPayloadWins | src/modules/sync/sync-consumer.service.ts:102-107 | the lines, total and hash stored first remain those of the sale over any run |
| ExactlyOnce.StoredSalesAddUp | src/modules/sync/sync-consumer.service.ts:236-253 | every stored synced sale has total = subtotal = sum of quantity times unit price |
| Chains.EdgesAreUnique | prisma/schema.prisma:333-351 | under the invariant edges lead to newer rows and a row has at most one correction in and one out, although only the former is a database constraint |
| Chains.ChainIncreases | src/modules/transactions/transactions.service.ts:173-216 | chains run from older to newer rows, so none repeats a row |
| Chains.ChainsAreDisjoint | src/modules/transactions/transactions.service.ts:173-216 | two complete chains that share a row are the same list |
| Chains.FindRoot | src/modules/transactions/transactions.service.ts:175-184 | the backward walk ends at a row that corrects nothing, linked to the start |
| Chains.WalkForward | src/modules/transactions/transactions.service.ts:186-213 | the forward walk ends at a row not corrected, each entry carrying the edge to the next |
| Chains.GetTransactionHistory | src/modules/transactions/transactions.service.ts:173-216 | terminates and returns the complete chain containing the requested row, hence the same list for every member |
| Chains.SupersededForever | src/modules/transactions/transactions.service.ts:135-139 | every row of a chain before its tip is VOIDED and SYNCED and never changes again |
| Chains.ChainsGrowAtTheTip | src/modules/transactions/transactions.service.ts:348-373 | over any run a chain is only extended at its end |
| Chains.ChainMovesLastVersion | src/modules/transactions/transactions.service.ts:250-321 | after any number of corrections the chain has moved minus the quantities of its last version, if those goods left |
| ChainPayments.CorrectionTakesOver | src/modules/transactions/transactions.service.ts:269-346 | the replacement has the old device, the new lines and totals, and one payment with the old method, details and status and the new total |
| ChainPayments.ChainSharesPaymentMethod | src/modules/transactions/transactions.service.ts:323-346 | in every reachable state all versions in a chain share device, payment method and payment details, and every version after the root is paid its own total |
| Workers.PhaseStable | src/modules/sync/sync-consumer.service.ts:255-273 | what a worker has established under locks stays true while others change only what the locks allow |
| Workers.CommitIsAtomic | src/modules/sync/sync-consumer.service.ts:194-234 | what a worker commits is what the atomic operation would produce at that moment |
| Workers.CommitDisturbsNobody | src/modules/sync/sync-consumer.service.ts:259-266 | a commit changes no row another worker has locked and takes no identifier another has pending |
| Workers.OwnerDisturbsNobody | src/modules/sync/sync-consumer.service.ts:259-266 | neither does an owner operation that the row locks let through |
| Workers.NextKeeps | src/modules/sync/sync-consumer.service.ts:194-273 | every small step keeps locks exclusive, pending identifiers distinct and every verdict standing |
| Workers.InterleavingIsAtomic | src/modules/sync/sync-consumer.service.ts:194-273 | every interleaving of any number of workers, owner operations and aborts leaves the database, failure notes included, as the atomic run in commit order; that workers do end is stated by Liveness.AloneEnds, and that every atomic run comes about by Liveness.RunsAreInterleavings |
| Workers.InterleavingsKeep | src/main.ts:75-91 | hence the whole invariant holds under concurrency |
| Workers.VerdictAtCommit | src/modules/sync/sync-consumer.service.ts:255-273 | the verdict reached at check time, early exits included, is the verdict of the whole check at commit |
| Workers.FailureIsAtomic | src/modules/sync/sync-consumer.service.ts:194-234 | a worker that fails without an abort fails with the error the atomic operation would return at that moment, with nothing changed |
| Workers.InterleavingsStoreOnce | prisma/schema.prisma:245-266 | two workers past a stale existence check never store one identifier twice |
| Workers.MissingRowsCannotBeLocked | src/modules/sync/sync-consumer.service.ts:268 | a conflict on a missing product would not survive the product being created and stocked meanwhile |
| Lifecycle.ReachablePairs | src/modules/transactions/transactions.service.ts:71-130 | a pair of statuses occurs in some run if and only if it is one of four |
| Lifecycle.EveryTransition | src/modules/transactions/transactions.service.ts:71-170 | every change of a stored sale's statuses is one of six, made by the owner's decision on that very sale |
| Lifecycle.ConflictMovedNothing | src/modules/sync/sync-consumer.service.ts:230-232 | a sale in SYNC_CONFLICT has no ledger row |
| Lifecycle.VoidedConflictCanBeConfirmed | src/modules/transactions/transactions.service.ts:103-105 | any sale in conflict, voided ones included, can be confirmed and is then deducted |
| Lifecycle.VoidedForeverIff | src/modules/transactions/transactions.service.ts:103-126 | a voided sale stays voided in every continuation if and only if it is SYNCED |
| Cases.ReconciliationMovesNothing | src/modules/reconciliations/reconciliations.service.ts:108-142 | no reconciliation step changes stock, ledger, correction edges, lines or sync statuses |
| Cases.AtMostOneOpenCase | src/modules/payments/payments.service.ts:94-112 | in every reachable state a payment has at most one open case across both ways of opening one |
| Cases.InvalidIsFinal | src/modules/reconciliations/reconciliations.service.ts:108-142 | after RESOLVED_INVALID the case stays closed and the payment FAILED for ever, and the sale stays voided for ever if and only if it was SYNCED then |
| Revenue.RunRevenue | src/modules/transactions/transactions.service.ts:100-170 | confirmed revenue is the sum of: total of confirming syncs and forced confirmations, new minus old of corrections, minus total of invalidated CONFIRMED sales, and nothing else |
| NonNegative.DistinctIsSafe | src/modules/sync/sync-consumer.service.ts:255-273 | a sale that repeats no product never drives non-negative stock below zero |
| NonNegative.TightShopOversold | src/modules/sync/sync-consumer.service.ts:343-359 | for every well-formed sale that repeats a product, a concrete shop that it oversells |
| NonNegative.SafeIffDistinct | src/modules/sync/sync-consumer.service.ts:255-273 | a well-formed sale keeps every non-negative stock non-negative if and only if it repeats no product |
| NonNegative.GuardedRuns | src/modules/products/products.service.ts:204-212 | runs without forced confirmations and corrections, with sales of distinct products, keep all stock non-negative |
| NonNegative.RemovedStaysPut | src/modules/products/products.service.ts:171-187 | queued sales never move the stock of a removed product, over any run in which the owner leaves it alone |
| SyncService.ValidateBatch | src/modules/sync/sync.service.ts:12-31 | rejects exactly when some element differs from a stored hash; otherwise every element is stamped with its own hash |
| SyncService.RunHashes | src/modules/sync/sync.service.ts:20-22 | over runs of stamped deliveries stored hashes are those of the stored lines and payment |
| SyncService.GuardIsExact | src/modules/sync/sync.service.ts:24-29 | the guard objects if and only if the identifier is stored for the device with other lines or another payment |
| SyncService.ReportMeans | src/modules/sync/sync.service.ts:46-71 | SYNCED exactly if the first row bearing the identifier is not in conflict, CONFLICT exactly if it is, FAILED exactly if no row bears it and a note does, UNKNOWN exactly if neither does |
| SyncService.ReportAfter | src/modules/sync/sync-consumer.service.ts:91-114 | what the device is told after each of the four outcomes of a delivery |
| SyncService.ReportNeverGoesBack | src/modules/sync/sync.service.ts:46-71 | the reported status of an identifier never goes back in UNKNOWN, FAILED, CONFLICT, SYNCED over any run |
| SyncService.HandledIsReported | src/modules/sync/sync-consumer.service.ts:363-408 | a delivery from a known device is never reported UNKNOWN afterwards |
| SyncController.SyncTransactions | src/modules/sync/sync.controller.ts:81-105 | nothing is published on any mismatch; otherwise the whole stamped batch is published as one message or not at all, the client is told accepted exactly when the broker confirmed, and after a timeout the batch may have arrived all the same |
| Delivery.Broker.SendToQueue | src/modules/sync/sync-producer.service.ts:124-153 | success means the message is in the queue; a refused one is not; a timed-out one is reported as failed and arrives |
| Delivery.Broker.PublishToRetry | src/modules/sync/sync-producer.service.ts:155-176 | the attempt number chooses the queue; a failure is swallowed |
| Delivery.HandleDlqMessage | src/modules/sync/sync-consumer.service.ts:121-157 | a dead-letter message splits into single sales, each published with a higher counter or recorded for good; unusable elements are dropped |
| NoLoss.MoveLosesIffDrops | src/modules/sync/sync-consumer.service.ts:91-157 | in any state and for any move, a sale that is in the broker still to be handled or in the database remains so if and only if the move is not the acknowledgement of a dead-letter message that gets it through as no element while it is nowhere else |
| NoLoss.PresentThroughoutIff | src/modules/sync/sync-consumer.service.ts:91-157 | over any run from any state it is present all along if and only if no move drops it |
| NoLoss.NothingLost | src/modules/sync/sync-consumer.service.ts:91-157 | over any run from any state, with refusals, crashes, redeliveries and failing publishes of other sales, a present sale is present at the end if its own retry publishes arrive |
| NoLoss.AcceptedIsPresent | src/modules/sync/sync.controller.ts:89-97 | every sale of a batch that reached the queue is present, confirmed or timed out |
| NoLoss.AcceptedIsNeverLost | src/modules/sync/sync.controller.ts:87-104 | from any state of the network, a sale of an accepted batch whose device is known by then is in the broker or the database after every later run in which its own retry publishes arrive |
| NoLoss.AckedIsHeld | src/modules/sync/sync-consumer.service.ts:91-118 | when a worker acknowledges a batch, each of its sales is a transaction or a failure note, provided the device was known before a worker had come past a copy |
| NoLoss.LostIffPublishFails | src/modules/sync/sync-consumer.service.ts:139-156 | when a dead-letter message of any length is split, a sale that is nowhere else survives if and only if some copy with retries left reaches its retry queue or a copy without retries left is recorded |
| NoLoss.TerminalLeavesOneMark | src/modules/sync/sync-consumer.service.ts:159-190 | recording a terminal failure twice equals once; it overwrites one note or adds one, and leaves the others |
| NoLoss.NetworkKeeps | src/modules/sync/sync-consumer.service.ts:80-190 | the whole invariant holds after any run of the network |
| InFlight.NextIsDelivery | src/modules/sync/sync-consumer.service.ts:80-119 | every move of broker, workers in mid-transaction and owners keeps locks, verdicts and phases consistent and is one move of the network that handles sales in one step, or none |
| InFlight.RunIsDelivery | src/modules/sync/sync-consumer.service.ts:80-273 | every run of that whole system is a run of the one-step network with the same database and messages |
| InFlight.SystemKeeps | src/main.ts:75-91 | hence the whole invariant holds after any such run |
| InFlight.SystemLosesNothing | src/modules/sync/sync-consumer.service.ts:91-157 | and a present sale stays present if its own retry publishes arrive, with workers crashing inside their transactions |
| InFlight.SystemAckedIsHeld | src/modules/sync/sync-consumer.service.ts:91-118 | and a batch is acknowledged only when each of its sales is stored or noted, provided the device was known before a worker had come past a copy |
| Liveness.AdvanceOrWait | src/modules/sync/sync-consumer.service.ts:194-273 | a worker in the midst of a sale stands still only while another worker holds a row lock it needs or has its identifier in an open insert; otherwise each step brings it nearer its end, at most 2 x lines + 5 steps away |
| Liveness.AloneEnds | src/modules/sync/sync-consumer.service.ts:194-273 | a worker left alone, from any point of its sale, ends within that bound committed with the result of the atomic operation or failing with its error |
| Liveness.AbortLetsGo | src/modules/sync/sync-consumer.service.ts:197-233 | an abort at any point rolls everything back and releases every lock and identifier |
| Liveness.RunsAreInterleavings | src/modules/sync/sync-consumer.service.ts:194-273 | every run of atomic steps is an interleaving of small steps, already with a single worker |
| Liveness.ProductWriteBlockedIff | src/modules/sync/sync-consumer.service.ts:260-266 | a manual adjustment or switch of a product waits if and only if a worker has locked that row |
| Liveness.SaleWriteBlockedIff | src/modules/sync/sync-consumer.service.ts:260-266 | confirming and correcting a sale wait if and only if a row of its lines or of the new lines is locked |
| Liveness.LocksBlockWritersOnly | src/modules/sync/sync-consumer.service.ts:260-266 | operations that write neither stock nor catalogue never wait, whoever is at work |
| Liveness.CreationBlockedIff | src/modules/sync/sync-consumer.service.ts:268 | creating a product waits if and only if a sale in flight names its identifier |
| Liveness.DeliveryIsBatch | src/modules/sync/sync-consumer.service.ts:80-119 | a batch in the main queue can be delivered, worked off and acknowledged with exactly the effect of the batch handler |
| Liveness.CrashedDeliveryIsRepeated | src/modules/sync/sync-consumer.service.ts:91-118 | a worker may die after any number of sales; the batch is delivered again and ends with the same sales |
| Liveness.RetryIsHandled | src/modules/sync/sync-producer.service.ts:53-76 | a sale in a delay queue comes back to the workers and is handled like any other |
| Liveness.RefusalRequeues | src/modules/sync/sync-producer.service.ts:159-175 | a refused sale with retries left lies afterwards in the delay queue of its next attempt, with its counter raised, and the database is as it was |
| Liveness.MessageIsAcknowledged | src/modules/sync/sync-consumer.service.ts:80-119 | in the whole system a message of any content, its worker left alone, is delivered, worked off in small steps and acknowledged |
| Liveness.BatchIsAcknowledged | src/modules/sync/sync-consumer.service.ts:80-119 | for a batch of sales, with the effect of the batch handler on the database |
| Liveness.NetworkRunsAreReal | src/modules/sync/sync-consumer.service.ts:80-190 | every genuine run of the one-step network comes about in the whole system, with the same database and messages |
| Retry.RejectingDecreases | src/modules/sync/sync-producer.service.ts:51-84 | every move towards refusal lowers a measure, although a batch splits into singles |
| Retry.RejectionEnds | src/modules/sync/sync-consumer.service.ts:139-156 | against a worker that refuses everything no run is longer than the measure of its first state |
| Retry.StuckMeansEmpty | src/modules/sync/sync-producer.service.ts:51-84 | such a run can only stop with an empty broker |
| Retry.RouteOfARefusedSale | src/modules/sync/sync-producer.service.ts:163-175 | from any state, with any number of copies of a sale at any attempts, whichever publishes fail: at every point the stops 5 s, 30 s, 120 s and record are made no more often than copies came to the one before; copies left and recorded make up those at the start if and only if its own publishes arrived |
| Retry.RouteOfFreshCopies | src/modules/sync/sync-producer.service.ts:163-164 | copies at their first attempt make the four stops in falling number, none more often than there were copies |
| Retry.RouteOfOneCopy | src/modules/sync/sync-producer.service.ts:163-175 | one fresh copy visits 5 s, 30 s and 120 s in that order, each at most once, then is recorded; none is left if and only if the route is complete or an own publish failed |
| Retry.RefusedSaleEndsRecorded | src/modules/sync/sync-consumer.service.ts:150-176 | a run that cannot continue has taken every copy through all stages before it if and only if its own publishes arrived, and SyncQueue then holds the note of exhausted retries for a known device |
| Retry.DelaysMatchAttempts | src/modules/sync/sync-producer.service.ts:163-164 | over any run of the network a delay queue holds single sales whose attempt is the one of that queue |
| Retry.CrashDuplicatesWhatWasSent | src/modules/sync/sync-consumer.service.ts:139-156 | a dead-letter consumer may die after any element; its message stays, and exactly the copies it had sent on are duplicated |
| Paging.FindPage | src/modules/transactions/transactions.service.ts:38-50 | without a cursor the first rows of the list, with the cursor of a row those from it on (after the skip), at most a page of them, and the next row as cursor exactly if there is one |
| Paging.TransactionsFromStart | src/modules/transactions/transactions.service.ts:38-50 | paging from the start terminates and concatenates to the whole list, and from the cursor of any row to that row and all after it, without gap or repeat |
| Paging.ProductsDropRows | src/modules/products/products.service.ts:93-109 | the same traversal of the product listing yields exactly the rows at positions not congruent to limit modulo limit + 1 |
| Paging.ProductIsListedIff | src/modules/products/products.service.ts:93-109 | a product is reached if and only if its position modulo limit + 1 is not limit |

## Left out

- Merchants, users, roles, tokens and device pairing: one merchant is modelled, so the checks that a row belongs to the caller's merchant never fail.
- Runs in which owner operations are split into check and write: `Races` treats one late write, or two writes after one state, from an arbitrary state.
- Notes, reasons, timestamps other than whether a sale was ever confirmed, SKU uniqueness, catalogue prices and images: no modelled branch depends on them. Product name, SKU and catalogue version of a line, and cash, change and references of a payment, are one opaque value each (`Details`).
- SyncService.GuardIsExact: opaque details are compared as they were sent; two spellings of the same catalogue date or number have different hashes in the code although they are stored alike.
- ExactlyOnce.StoredSalesAddUp: says nothing of corrections, whose totals the code does not check against their lines, nor of payment amounts, which the code does not compare with totals.
- SyncConsumer.ValidateArithmetic: exact integers in minor units, not JavaScript floating point.
- Non-integer quantities in a correction, which request validation lets through and the integer column then refuses.
- NoLoss.NothingLost: assumes that writes of failure notes succeed; the code only logs when one fails; a dead-letter message that is not valid JSON is dropped by the code and is represented here only by unusable elements.
- Queue order, time-to-live and connection handling: any parked message may be delivered, expire or be redelivered at any time.
- Paging.TransactionsFromStart: over a list that does not change between pages and whose rows are in strict order.
- Filters of the listings, the list of failed notes, read-only payment and reconciliation listings, health, storage, logging, seeds, load scripts and old migrations.
