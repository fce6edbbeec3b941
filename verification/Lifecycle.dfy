/**
 The life of a sale: which pairs of statuses occur, what a conflict may have moved, and
 what can still happen to a voided sale.
 */
module Lifecycle {
  import opened Schema
  import opened Ledger
  import opened Operations
  import opened Evolution
  import opened Invariants
  import SyncService

  ghost predicate LegalPair(status: TransactionStatus, sync: SyncStatus)
  {
    || (status == PENDING && sync == SYNC_CONFLICT)
    || (status == CONFIRMED && sync == SYNCED)
    || (status == VOIDED && sync == SYNCED)
    || (status == VOIDED && sync == SYNC_CONFLICT)
  }

  ghost predicate Shows(db: Db, t: TxId, status: TransactionStatus, sync: SyncStatus)
  {
    t < |db.txs| && db.txs[t].status == status && db.txs[t].sync == sync
  }

  ghost predicate Occurs(status: TransactionStatus, sync: SyncStatus)
  {
    exists db, steps, t: TxId :: Initial(db) && Shows(Run(db, steps), t, status, sync)
  }

  // ---- Exactly four pairs ----

  const ONE_ITEM := [Item(0, 1, 500, 500, 0)]

  const ONE_SALE := Payload(0, 7, None, 500, 500, ONE_ITEM, PaymentDto(500, CASH, 0))

  ghost function Shop(stock: int): Db
  {
    Db({0}, map[0 := true], map[0 := stock], [], [], [], [], [], [])
  }

  lemma RunSteps(db: Db, first: Step, second: Step)
    ensures Run(db, [first]) == Apply(db, first)
    ensures Run(db, [first, second]) == Apply(Apply(db, first), second)
  {
    assert [first][..0] == [];
    assert [first, second][..1] == [first];
  }

  lemma OneSaleAddsUp()
    ensures ArithmeticHolds(ONE_SALE)
  {
    assert ONE_ITEM[..0] == [];
  }

  lemma FirstSale(stock: int)
    ensures Initial(Shop(stock))
    ensures Apply(Shop(stock), Sync(ONE_SALE)) == StoreSale(Shop(stock), ONE_SALE, stock < 1)
  {
    OneSaleAddsUp();
    assert LineConflicts(Shop(stock), ONE_ITEM[0]) == (stock < 1);
  }

  lemma AllFourOccur(status: TransactionStatus, sync: SyncStatus)
    requires LegalPair(status, sync)
    ensures Occurs(status, sync)
  {
    var stock := if status == CONFIRMED then 1 else 0;
    FirstSale(stock);
    var next := if sync == SYNCED then Resolve(ById(0), VOID) else Void(ById(0));
    RunSteps(Shop(stock), Sync(ONE_SALE), next);
    if status == VOIDED {
      assert Shows(Run(Shop(stock), [Sync(ONE_SALE), next]), 0, status, sync);
    } else {
      assert Shows(Run(Shop(stock), [Sync(ONE_SALE)]), 0, status, sync);
    }
  }

  lemma OnlyFourOccur(db: Db, steps: seq<Step>, t: TxId)
    requires Initial(db) && t < |Run(db, steps).txs|
    ensures LegalPair(Run(db, steps).txs[t].status, Run(db, steps).txs[t].sync)
  {
    RunKeeps(db, steps);
    var now := Run(db, steps);
    assert RowOk(now.devices, now.stock, now.txs[t]);
  }

  /** A pair of statuses occurs in some run exactly when it is one of the four. */
  lemma ReachablePairs(status: TransactionStatus, sync: SyncStatus)
    ensures Occurs(status, sync) <==> LegalPair(status, sync)
  {
    if Occurs(status, sync) {
      var db, steps, t: TxId :| Initial(db) && Shows(Run(db, steps), t, status, sync);
      OnlyFourOccur(db, steps, t);
    }
    if LegalPair(status, sync) {
      AllFourOccur(status, sync);
    }
  }

  // ---- Which step causes which change ----

  /** The changes of status there are, and the owner's decision that each one takes. */
  ghost predicate Transition(db: Db, t: TxId, s: Step, x: Transaction, y: Transaction)
  {
    match (x.status, x.sync, y.status, y.sync)
    case (PENDING, SYNC_CONFLICT, CONFIRMED, SYNCED) => Resolves(db, t, s, CONFIRM)
    case (PENDING, SYNC_CONFLICT, VOIDED, SYNCED) => Resolves(db, t, s, VOID)
    case (PENDING, SYNC_CONFLICT, VOIDED, SYNC_CONFLICT) =>
      (s.Void? && FindOne(db.txs, s.key) == Some(t)) || Invalidates(db, t, s)
    case (VOIDED, SYNC_CONFLICT, CONFIRMED, SYNCED) => Resolves(db, t, s, CONFIRM)
    case (VOIDED, SYNC_CONFLICT, VOIDED, SYNCED) => Resolves(db, t, s, VOID)
    case (CONFIRMED, SYNCED, VOIDED, SYNCED) =>
      (s.Correct? && FindOne(db.txs, s.key) == Some(t)) || Invalidates(db, t, s)
    case _ => false
  }

  ghost predicate Resolves(db: Db, t: TxId, s: Step, action: Action)
  {
    s.Resolve? && s.action == action && FindOne(db.txs, s.key) == Some(t)
  }

  /** The step closes, as invalid, a case of this sale's payment. */
  ghost predicate Invalidates(db: Db, t: TxId, s: Step)
  {
    s.Close? && !s.valid && s.c < |db.cases| && db.cases[s.c].status == OPEN && db.cases[s.c].payment == t
  }

  ghost predicate SameStatuses(x: Transaction, y: Transaction)
  {
    x.status == y.status && x.sync == y.sync
  }

  lemma OwnerTransition(db: Db, s: Step, t: TxId)
    requires t < |db.txs| && StatusOk(db.txs[t])
    requires (s.Void? || s.Resolve? || s.Correct?) && Try(db, s).Success?
    requires !SameStatuses(db.txs[t], Try(db, s).value.txs[t])
    ensures Transition(db, t, s, db.txs[t], Try(db, s).value.txs[t])
  {
    assert FindOne(db.txs, s.key) == Some(t);
  }

  lemma ClosingTransition(db: Db, c: CaseId, valid: bool, t: TxId)
    requires t < |db.txs| && StatusOk(db.txs[t]) && PaymentInv(db.txs, db.payments)
    requires ResolveCase(db, c, valid).Success?
    requires !SameStatuses(db.txs[t], ResolveCase(db, c, valid).value.txs[t])
    ensures Transition(db, t, Close(c, valid), db.txs[t], ResolveCase(db, c, valid).value.txs[t])
  {
  }

  /**
   Every change of a stored sale's statuses, in every reachable state, is one of six and is made
   by the owner on that very sale; deliveries, failure notes and adjustments change none.
   */
  lemma EveryTransition(opening: map<ProductId, int>, db: Db, s: Step, t: TxId)
    requires Inv(opening, db) && t < |db.txs|
    ensures t < |Apply(db, s).txs|
    ensures SameStatuses(db.txs[t], Apply(db, s).txs[t]) ||
            (Try(db, s).Success? && Transition(db, t, s, db.txs[t], Apply(db, s).txs[t]))
  {
    assert RowOk(db.devices, db.stock, db.txs[t]);
    StepEvolves(db, s);
    if Quiet(s) {
      QuietSteps(db, s);
    } else if Try(db, s).Success? && !SameStatuses(db.txs[t], Apply(db, s).txs[t]) {
      if s.Close? {
        ClosingTransition(db, s.c, s.valid, t);
      } else {
        OwnerTransition(db, s, t);
      }
    }
  }

  // ---- Conflicts ----

  lemma {:induction false} NoRowOf(ledger: seq<StockRow>, who: Option<TxId>, i: nat)
    requires RowsOf(ledger, who) == [] && i < |ledger|
    ensures ledger[i].tx != who
  {
    if i < |ledger| - 1 {
      NoRowOf(ledger[..|ledger| - 1], who, i);
    }
  }

  /** A sale in conflict has caused no ledger row at all. */
  lemma ConflictMovedNothing(db: Db, steps: seq<Step>, t: TxId, i: nat)
    requires Initial(db) && t < |Run(db, steps).txs| && Run(db, steps).txs[t].sync == SYNC_CONFLICT
    requires i < |Run(db, steps).ledger|
    ensures Run(db, steps).ledger[i].tx != Some(t)
  {
    RunKeeps(db, steps);
    var now := Run(db, steps);
    assert RowOk(now.devices, now.stock, now.txs[t]);
    NoRowOf(now.ledger, Some(t), i);
  }

  /**
   `resolveConflict` looks at the sync status only, so a conflict that the owner has already
   voided can still be confirmed, and then its goods are deducted.
   */
  lemma VoidedConflictCanBeConfirmed(opening: map<ProductId, int>, db: Db, t: TxId)
    requires Inv(opening, db) && t < |db.txs| && db.txs[t].sync == SYNC_CONFLICT
    ensures
      var now := Run(db, [Resolve(ById(t), CONFIRM)]);
      && |now.txs| == |db.txs| && now.txs[t].status == CONFIRMED && now.txs[t].sync == SYNCED
      && now.stock == Shift(db.stock, db.txs[t].items, Out)
  {
    assert RowOk(db.devices, db.stock, db.txs[t]);
    assert Matches(db.txs, t, ById(t));
    RunSteps(db, Resolve(ById(t), CONFIRM), Resolve(ById(t), CONFIRM));
  }

  /**
   What the owner gets by voiding. It is granted exactly for a pending conflict, changes that one
   row, moves nothing, tells the device nothing, cannot be repeated, and is provisional: resolving
   the conflict afterwards has the effect of resolving it at once.
   */
  lemma VoidIsProvisional(opening: map<ProductId, int>, db: Db, key: Key)
    requires Inv(opening, db)
    ensures VoidTransaction(db, key).Success? <==>
              FindOne(db.txs, key).Some? && Shows(db, FindOne(db.txs, key).value, PENDING, SYNC_CONFLICT)
    ensures VoidTransaction(db, key).Success? ==>
              Provisional(db, VoidTransaction(db, key).value, FindOne(db.txs, key).value)
  {
    if FindOne(db.txs, key).Some? {
      var t := FindOne(db.txs, key).value;
      assert RowOk(db.devices, db.stock, db.txs[t]);
      if db.txs[t].status == PENDING {
        VoidedRow(db, t);
      }
    }
  }

  ghost predicate Provisional(db: Db, after: Db, t: TxId)
  {
    && t < |db.txs| == |after.txs| && after == db.(txs := after.txs)
    && (forall s | 0 <= s < |db.txs| && s != t :: after.txs[s] == db.txs[s])
    && after.txs[t].status == VOIDED && after.txs[t].items == db.txs[t].items && after.txs[t].total == db.txs[t].total
    && SyncService.SameReports(db, after)
    && VoidTransaction(after, ById(t)) == Failure(AlreadyVoided)
    && Apply(after, Resolve(ById(t), VOID)) == Apply(db, Resolve(ById(t), VOID))
    && SameButReason(Apply(after, Resolve(ById(t), CONFIRM)), Apply(db, Resolve(ById(t), CONFIRM)), t)
  }

  /** Equal except for the reason a row was once voided for. */
  ghost predicate SameButReason(a: Db, b: Db, t: TxId)
  {
    t < |b.txs| && t < |a.txs| && a == b.(txs := b.txs[t := b.txs[t].(voidReason := a.txs[t].voidReason)])
  }

  lemma VoidedRow(db: Db, t: TxId)
    requires t < |db.txs| && db.txs[t].status == PENDING && db.txs[t].sync == SYNC_CONFLICT
    requires ProductsKnown(db.stock, db.txs[t].items)
    ensures Provisional(db, VoidBody(db, t), t)
  {
    var after := VoidBody(db, t);
    assert Matches(db.txs, t, ById(t)) && Matches(after.txs, t, ById(t));
    SyncService.ReportsStay(db, after);
    assert FindOne(db.txs, ById(t)) == Some(t) && FindOne(after.txs, ById(t)) == Some(t);
    assert Apply(after, Resolve(ById(t), VOID)).txs == Apply(db, Resolve(ById(t), VOID)).txs;
    var x, y := Apply(after, Resolve(ById(t), CONFIRM)), Apply(db, Resolve(ById(t), CONFIRM));
    assert x.txs == y.txs[t := y.txs[t].(voidReason := x.txs[t].voidReason)];
  }

  /** A voided sale stays voided in every continuation exactly when it is not in conflict. */
  lemma VoidedForeverIff(opening: map<ProductId, int>, db: Db, t: TxId)
    requires Inv(opening, db) && t < |db.txs| && db.txs[t].status == VOIDED
    ensures (forall later :: IsVoided(Run(db, later), t)) <==> db.txs[t].sync == SYNCED
  {
    assert RowOk(db.devices, db.stock, db.txs[t]);
    if db.txs[t].sync == SYNCED {
      forall later
        ensures IsVoided(Run(db, later), t)
      {
        RunEvolves(db, later);
        assert TxEvolves(db.txs[t], Run(db, later).txs[t]);
      }
    } else {
      VoidedConflictCanBeConfirmed(opening, db, t);
      assert !IsVoided(Run(db, [Resolve(ById(t), CONFIRM)]), t);
    }
  }

  ghost predicate IsVoided(db: Db, t: TxId)
  {
    t < |db.txs| && db.txs[t].status == VOIDED
  }
}
