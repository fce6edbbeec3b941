/**
 How one state of the database may turn into a later one: rows are never deleted, the facts of
 a sale are never rewritten, and each status moves in one direction only. Every step evolves
 the database this way whatever state it starts from, hence so does every run.
 */
module Evolution {
  import opened Schema
  import opened Operations

  ghost predicate TxEvolves(x: Transaction, y: Transaction)
  {
    && y.device == x.device && y.uuid == x.uuid && y.hash == x.hash
    && y.subtotal == x.subtotal && y.total == x.total && y.items == x.items
    && (y.sync == x.sync || (x.sync == SYNC_CONFLICT && y.sync == SYNCED))
    && (x.confirmedAt ==> y.confirmedAt)
    && (x.status == VOIDED && x.sync == SYNCED ==> y == x)
    && (x.status == CONFIRMED && x.sync == SYNCED ==> y.status == CONFIRMED || y.status == VOIDED)
  }

  ghost predicate PaymentEvolves(x: Payment, y: Payment)
  {
    && y.tx == x.tx && y.amount == x.amount && y.payMethod == x.payMethod && y.details == x.details
    && (x.status == PaymentStatus.FAILED ==> y.status == PaymentStatus.FAILED)
  }

  ghost predicate CaseEvolves(x: Case, y: Case)
  {
    y.payment == x.payment && (x.status != OPEN ==> y == x)
  }

  ghost predicate TxsEvolve(a: seq<Transaction>, b: seq<Transaction>)
  {
    |a| <= |b| && forall t | 0 <= t < |a| :: TxEvolves(a[t], b[t])
  }

  ghost predicate PaymentsEvolve(a: seq<Payment>, b: seq<Payment>)
  {
    |a| <= |b| && forall i | 0 <= i < |a| :: PaymentEvolves(a[i], b[i])
  }

  ghost predicate CasesEvolve(a: seq<Case>, b: seq<Case>)
  {
    |a| <= |b| && forall c | 0 <= c < |a| :: CaseEvolves(a[c], b[c])
  }

  ghost predicate FailuresEvolve(a: seq<QueueRow>, b: seq<QueueRow>)
  {
    |a| <= |b| && forall i | 0 <= i < |a| :: b[i].device == a[i].device && b[i].uuid == a[i].uuid
  }

  ghost predicate Evolves(a: Db, b: Db)
  {
    && a.devices <= b.devices
    && a.stock.Keys <= b.stock.Keys
    && a.active.Keys <= b.active.Keys
    && TxsEvolve(a.txs, b.txs)
    && PaymentsEvolve(a.payments, b.payments)
    && a.ledger <= b.ledger
    && a.corrections <= b.corrections
    && CasesEvolve(a.cases, b.cases)
    && FailuresEvolve(a.failures, b.failures)
  }

  lemma CorrectionEvolves(db: Db, t: TxId, dto: CorrectDto)
    requires t < |db.txs| && db.txs[t].status == CONFIRMED && CorrectionBody(db, t, dto).Success?
    ensures Evolves(db, CorrectionBody(db, t, dto).value)
  {
    var db' := CorrectionBody(db, t, dto).value;
    assert db.ledger <= db'.ledger && db.corrections <= db'.corrections;
    assert forall s | 0 <= s < |db.txs| :: TxEvolves(db.txs[s], db'.txs[s]);
    assert forall i | 0 <= i < |db.payments| :: db'.payments[i] == db.payments[i];
  }

  lemma CloseEvolves(db: Db, c: CaseId, valid: bool)
    requires ResolveCase(db, c, valid).Success?
    ensures Evolves(db, ResolveCase(db, c, valid).value)
  {
  }

  lemma StoreEvolves(db: Db, p: Payload, conflict: bool)
    ensures Evolves(db, StoreSale(db, p, conflict))
  {
    assert db.ledger <= StoreSale(db, p, conflict).ledger;
  }

  lemma ResolveEvolves(db: Db, key: Key, action: Action)
    requires ResolveConflict(db, key, action).Success?
    ensures Evolves(db, ResolveConflict(db, key, action).value)
  {
    assert db.ledger <= ResolveConflict(db, key, action).value.ledger;
  }

  /** Steps that leave sales, payments, edges and existing cases as they are. */
  ghost predicate Quiet(s: Step)
  {
    s.NoteFailure? || s.NoteTerminal? || s.AddDevice? || s.AddProduct? || s.Activate? || s.Adjust? ||
    s.OpenByTransaction? || s.OpenByPayment?
  }

  lemma QuietSteps(db: Db, s: Step)
    requires Quiet(s)
    ensures
      var db' := Apply(db, s);
      db'.txs == db.txs && db'.payments == db.payments && db'.corrections == db.corrections &&
      (!s.Adjust? ==> db'.ledger == db.ledger)
  {
  }

  lemma QuietEvolves(db: Db, s: Step)
    requires Quiet(s)
    ensures Evolves(db, Apply(db, s))
  {
    QuietSteps(db, s);
  }

  lemma VoidEvolves(db: Db, key: Key)
    requires VoidTransaction(db, key).Success?
    ensures Evolves(db, VoidTransaction(db, key).value)
  {
  }

  lemma StepEvolves(db: Db, s: Step)
    ensures Evolves(db, Apply(db, s))
  {
    if Quiet(s) {
      QuietEvolves(db, s);
    } else if Try(db, s).Success? {
      match s
      case Sync(p) => StoreEvolves(db, p, StockConflict(db, p.items));
      case Void(key) => VoidEvolves(db, key);
      case Resolve(key, action) => ResolveEvolves(db, key, action);
      case Correct(key, dto) => CorrectionEvolves(db, FindOne(db.txs, key).value, dto);
      case Close(c, valid) => CloseEvolves(db, c, valid);
    }
  }

  lemma EvolvesTransitive(a: Db, b: Db, c: Db)
    requires Evolves(a, b) && Evolves(b, c)
    ensures Evolves(a, c)
  {
    forall t | 0 <= t < |a.txs|
      ensures TxEvolves(a.txs[t], c.txs[t])
    {
      assert TxEvolves(a.txs[t], b.txs[t]) && TxEvolves(b.txs[t], c.txs[t]);
    }
    forall i | 0 <= i < |a.payments|
      ensures PaymentEvolves(a.payments[i], c.payments[i])
    {
      assert PaymentEvolves(a.payments[i], b.payments[i]) && PaymentEvolves(b.payments[i], c.payments[i]);
    }
    forall i | 0 <= i < |a.cases|
      ensures CaseEvolves(a.cases[i], c.cases[i])
    {
      assert CaseEvolves(a.cases[i], b.cases[i]) && CaseEvolves(b.cases[i], c.cases[i]);
    }
  }

  /**
   No run ever deletes a row, rewrites the lines or totals of a sale or an existing ledger row,
   moves a sync status backwards, revives a sale that is VOIDED and SYNCED, clears a failed
   payment or reopens a resolved case.
   */
  lemma {:induction false} RunEvolves(db: Db, steps: seq<Step>)
    ensures Evolves(db, Run(db, steps))
  {
    if |steps| > 0 {
      var mid := Run(db, steps[..|steps| - 1]);
      RunEvolves(db, steps[..|steps| - 1]);
      StepEvolves(mid, steps[|steps| - 1]);
      EvolvesTransitive(db, mid, Run(db, steps));
    }
  }
}
