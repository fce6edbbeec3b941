/**
 Reconciliation over whole runs: what opening and closing a case can and cannot do.
 */
module Cases {
  import opened Schema
  import opened Operations
  import opened Evolution
  import opened Invariants
  import opened Lifecycle
  import opened Revenue

  ghost predicate IsReconciliation(s: Step)
  {
    s.OpenByTransaction? || s.OpenByPayment? || s.Close?
  }

  /** No reconciliation step moves goods or touches what was sold. */
  lemma ReconciliationMovesNothing(db: Db, s: Step)
    requires IsReconciliation(s)
    ensures Apply(db, s).stock == db.stock && Apply(db, s).ledger == db.ledger
    ensures Apply(db, s).corrections == db.corrections && |Apply(db, s).txs| == |db.txs|
    ensures forall t | 0 <= t < |db.txs| :: Apply(db, s).txs[t].items == db.txs[t].items &&
              Apply(db, s).txs[t].sync == db.txs[t].sync
  {
  }

  /** In every reachable state a payment has at most one open case, whichever way it was opened. */
  lemma AtMostOneOpenCase(db: Db, steps: seq<Step>, c: CaseId, d: CaseId)
    requires Initial(db) && c < |Run(db, steps).cases| && d < |Run(db, steps).cases|
    requires Run(db, steps).cases[c].payment == Run(db, steps).cases[d].payment
    requires Run(db, steps).cases[c].status == OPEN && Run(db, steps).cases[d].status == OPEN
    ensures c == d
  {
    RunKeeps(db, steps);
  }

  /**
   The two ways of opening a case. For a stored sale, whose payment has the same identifier, they
   do the same exactly when the payment has no past case, or has an open one: only the payment
   endpoint opens a second case after the first was resolved.
   */
  lemma OpeningsAgreeIff(opening: map<ProductId, int>, db: Db, t: TxId)
    requires Inv(opening, db) && t < |db.txs|
    ensures OpenCaseByPayment(db, t).Success? <==> !HasOpenCase(db.cases, t)
    ensures OpenCaseByTransaction(db, ById(t)).Success? <==> !HasCase(db.cases, t)
    ensures OpenCaseByTransaction(db, ById(t)) == OpenCaseByPayment(db, t) <==>
              (HasCase(db.cases, t) ==> HasOpenCase(db.cases, t))
  {
    assert Matches(db.txs, t, ById(t));
    PaymentAt(db.txs, db.payments, t);
    if HasOpenCase(db.cases, t) {
      var c :| 0 <= c < |db.cases| && db.cases[c].payment == t && db.cases[c].status == OPEN;
      assert HasCase(db.cases, t);
    }
  }

  /** Once a payment has a case, no later run lets the transaction endpoint open another. */
  lemma OneCaseByTransaction(opening: map<ProductId, int>, db: Db, t: TxId, later: seq<Step>)
    requires Inv(opening, db) && t < |db.txs| && HasCase(db.cases, t)
    ensures OpenCaseByTransaction(Run(db, later), ById(t)) == Failure(AlreadyUnderReconciliation)
  {
    var now := Run(db, later);
    RunEvolves(db, later);
    RunInv(opening, db, later);
    OpeningsAgreeIff(opening, now, t);
    var c :| 0 <= c < |db.cases| && db.cases[c].payment == t;
    assert CaseEvolves(db.cases[c], now.cases[c]);
    assert Matches(now.txs, t, ById(t));
  }

  /**
   What closing a case does in a reachable state. It is granted exactly for an open case and
   cannot be repeated. Of the verdict valid nothing is seen but the case itself; the verdict
   invalid also fails the payment, voids its sale, and takes what the sale earned out of revenue.
   */
  lemma WhatClosingChanges(opening: map<ProductId, int>, db: Db, c: CaseId, valid: bool)
    requires Inv(opening, db) && c < |db.cases|
    ensures ResolveCase(db, c, valid).Success? <==> db.cases[c].status == OPEN
    ensures ResolveCase(db, c, valid).Success? ==>
      var after := ResolveCase(db, c, valid).value;
      var pay := db.cases[c].payment;
      && pay < |db.txs| && (forall again :: ResolveCase(after, c, again) == Failure(AlreadyResolved))
      && after.cases == db.cases[c := after.cases[c]] && after.cases[c].payment == pay
      && (valid ==> after.payments == db.payments && after.txs == db.txs)
      && (!valid ==> FailedAndVoided(db, after, pay))
      && Earnings(after.txs) == Earnings(db.txs) - (if valid then 0 else Earned(db.txs[pay]))
  {
    if db.cases[c].status == OPEN {
      RevenueOfClose(db, c, valid);
      ClosingRows(db, c, valid);
    }
  }

  lemma ClosingRows(db: Db, c: CaseId, valid: bool)
    requires PaymentInv(db.txs, db.payments) && c < |db.cases| && db.cases[c].payment < |db.payments|
    requires db.cases[c].status == OPEN
    ensures ResolveCase(db, c, valid).Success?
    ensures
      var after := ResolveCase(db, c, valid).value;
      && (forall again :: ResolveCase(after, c, again) == Failure(AlreadyResolved))
      && after.cases == db.cases[c := after.cases[c]] && after.cases[c].payment == db.cases[c].payment
      && (valid ==> after.payments == db.payments && after.txs == db.txs)
      && (!valid ==> FailedAndVoided(db, after, db.cases[c].payment))
      && RevenueChange(db, Close(c, valid)) == if valid then 0 else -Earned(db.txs[db.cases[c].payment])
  {
  }

  ghost predicate FailedAndVoided(db: Db, after: Db, pay: PaymentId)
    requires pay < |db.txs|
  {
    && |after.txs| == |db.txs| && |after.payments| == |db.payments| && pay < |db.payments|
    && after.payments[pay] == db.payments[pay].(status := PaymentStatus.FAILED)
    && after.txs[pay].status == VOIDED && after.txs[pay].sync == db.txs[pay].sync
    && (db.txs[pay].status == VOIDED ==> after.txs[pay] == db.txs[pay])
    && (forall i | 0 <= i < |db.txs| && i != pay :: after.txs[i] == db.txs[i])
    && (forall i | 0 <= i < |db.payments| && i != pay :: after.payments[i] == db.payments[i])
  }

  /**
   Closing a case as invalid: whatever follows, the case stays closed and the payment failed; and
   the sale stays voided in every continuation exactly when it was synced at that moment.
   */
  lemma InvalidIsFinal(opening: map<ProductId, int>, db: Db, c: CaseId)
    requires Inv(opening, db) && ResolveCase(db, c, false).Success?
    ensures
      var closed := Apply(db, Close(c, false));
      var pay := db.cases[c].payment;
      var t := db.payments[pay].tx;
      && t < |db.txs|
      && (forall later :: ClosedInvalid(Run(closed, later), c, pay))
      && ((forall later :: IsVoided(Run(closed, later), t)) <==> db.txs[t].sync == SYNCED)
  {
    var closed := Apply(db, Close(c, false));
    var pay := db.cases[c].payment;
    var t := db.payments[pay].tx;
    forall later
      ensures ClosedInvalid(Run(closed, later), c, pay)
    {
      RunEvolves(closed, later);
      assert CaseEvolves(closed.cases[c], Run(closed, later).cases[c]);
      assert PaymentEvolves(closed.payments[pay], Run(closed, later).payments[pay]);
    }
    CloseKeeps(opening, db, c, false);
    VoidedForeverIff(opening, closed, t);
  }

  ghost predicate ClosedInvalid(db: Db, c: CaseId, pay: PaymentId)
  {
    && c < |db.cases| && db.cases[c] == Case(pay, RESOLVED_INVALID)
    && pay < |db.payments| && db.payments[pay].status == PaymentStatus.FAILED
  }
}
