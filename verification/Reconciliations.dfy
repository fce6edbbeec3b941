/**
 `payments.service.ts` and `reconciliations.service.ts`: the two ways of opening a case and the
 one way of closing it.
 */
module Reconciliations {
  import opened Schema
  import opened Operations
  import opened Tables

  /** The payment row belongs to a sale with this transaction id or offline identifier. */
  predicate IsPaymentFor(db: Db, pay: PaymentId, key: Key)
  {
    pay < |db.payments| && db.payments[pay].tx < |db.txs| && Matches(db.txs, db.payments[pay].tx, key)
  }

  method Create(db: Database, key: Key) returns (error: Option<Error>)
    modifies db`cases
    ensures
      match OpenCaseByTransaction(old(db.View()), key)
      case Success(after) => error == None && db.View() == after
      case Failure(e) => error == Some(e) && db.View() == old(db.View())
    ensures error == None ==>
      && |db.cases| == |old(db.cases)| + 1 && old(db.cases) <= db.cases && db.cases[|db.cases| - 1].status == OPEN
      && IsPaymentFor(db.View(), db.cases[|db.cases| - 1].payment, key)
      && forall c | 0 <= c < |old(db.cases)| :: old(db.cases)[c].payment != db.cases[|db.cases| - 1].payment
  {
    var found := FindOne(db.txs, key);
    if found == None {
      return Some(NotFound);
    }
    var payment := FindPayment(db.payments, found.value);
    if payment == None {
      return Some(NoPayment);
    }
    if HasCase(db.cases, payment.value) {
      return Some(AlreadyUnderReconciliation);
    }
    db.cases := db.cases + [Case(payment.value, OPEN)];
    return None;
  }

  method Reconcile(db: Database, pay: PaymentId) returns (error: Option<Error>)
    modifies db`cases
    ensures
      match OpenCaseByPayment(old(db.View()), pay)
      case Success(after) => error == None && db.View() == after
      case Failure(e) => error == Some(e) && db.View() == old(db.View())
    ensures error == None <==>
              pay < |db.payments| && forall c | 0 <= c < |old(db.cases)| && old(db.cases)[c].payment == pay :: old(db.cases)[c].status != OPEN
    ensures error == None ==> db.cases == old(db.cases) + [Case(pay, OPEN)]
  {
    if pay >= |db.payments| {
      return Some(NotFound);
    }
    if HasOpenCase(db.cases, pay) {
      return Some(AlreadyUnderReconciliation);
    }
    db.cases := db.cases + [Case(pay, OPEN)];
    return None;
  }

  /** Closing as invalid fails the payment and voids the sale, and leaves stock and ledger alone. */
  method Resolve(db: Database, c: CaseId, valid: bool) returns (error: Option<Error>)
    modifies db`cases, db`payments, db`txs
    ensures
      match ResolveCase(old(db.View()), c, valid)
      case Success(after) => error == None && db.View() == after
      case Failure(e) => error == Some(e) && db.View() == old(db.View())
    ensures error == None ==> c < |old(db.cases)| && old(db.cases)[c].status == OPEN && db.cases[c].status != OPEN
    ensures error == None && valid ==> db.payments == old(db.payments) && db.txs == old(db.txs)
    ensures error == None && !valid ==>
      && db.cases[c].payment < |db.payments| && db.payments[db.cases[c].payment].status == PaymentStatus.FAILED
      && (db.payments[db.cases[c].payment].tx < |db.txs| ==> db.txs[db.payments[db.cases[c].payment].tx].status == VOIDED)
  {
    if c >= |db.cases| {
      return Some(NotFound);
    }
    var reconciliation := db.cases[c];
    if reconciliation.status != OPEN {
      return Some(AlreadyResolved);
    }
    if valid {
      db.cases := db.cases[c := reconciliation.(status := RESOLVED_VALID)];
      return None;
    }
    if reconciliation.payment >= |db.payments| {
      return Some(RecordNotFound);
    }
    db.cases := db.cases[c := reconciliation.(status := RESOLVED_INVALID)];
    var payment := db.payments[reconciliation.payment];
    db.payments := db.payments[reconciliation.payment := payment.(status := PaymentStatus.FAILED)];
    var t := payment.tx;
    if t < |db.txs| && db.txs[t].status != VOIDED {
      db.txs := db.txs[t := db.txs[t].(status := VOIDED, voidReason := Some(ByInvalidPayment))];
    }
    return None;
  }
}
