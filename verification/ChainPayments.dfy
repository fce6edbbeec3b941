/**
 The money side of a correction chain: what the replacement takes over from the sale it
 replaces, and that this is still so after any later run.
 */
module ChainPayments {
  import opened Schema
  import opened Operations
  import opened Evolution
  import opened Invariants
  import opened Chains

  /** The replacement keeps device and payment method, and is paid exactly its own total. */
  ghost predicate TakesOver(db: Db, c: Correction)
  {
    && c.oldId < c.newId < |db.txs| && |db.payments| == |db.txs|
    && db.txs[c.newId].device == db.txs[c.oldId].device
    && db.payments[c.newId].tx == c.newId
    && db.payments[c.newId].payMethod == db.payments[c.oldId].payMethod
    && db.payments[c.newId].details == db.payments[c.oldId].details
    && db.payments[c.newId].amount == db.txs[c.newId].total
  }

  ghost predicate AllTakeOver(db: Db)
  {
    forall i | 0 <= i < |db.corrections| :: TakesOver(db, db.corrections[i])
  }

  lemma TakenOverForGood(a: Db, b: Db, c: Correction)
    requires TakesOver(a, c) && Evolves(a, b) && |b.payments| == |b.txs|
    ensures TakesOver(b, c)
  {
    assert TxEvolves(a.txs[c.oldId], b.txs[c.oldId]) && TxEvolves(a.txs[c.newId], b.txs[c.newId]);
    assert PaymentEvolves(a.payments[c.oldId], b.payments[c.oldId]);
    assert PaymentEvolves(a.payments[c.newId], b.payments[c.newId]);
  }

  /** One correction: the payment is cloned, verdict included, with the new total. */
  lemma CorrectionTakesOver(db: Db, key: Key, dto: CorrectDto)
    requires PaymentInv(db.txs, db.payments) && CorrectTransaction(db, key, dto).Success?
    ensures
      var after := CorrectTransaction(db, key, dto).value;
      var t, n := FindOne(db.txs, key).value, |db.txs|;
      && TakesOver(after, Correction(t, n))
      && after.payments[n].status == db.payments[t].status
      && after.txs[n].items == dto.items && after.txs[n].total == dto.total && after.txs[n].subtotal == dto.subtotal
      && after.payments[..n] == db.payments
  {
    PaymentAt(db.txs, db.payments, FindOne(db.txs, key).value);
  }

  lemma OldEdgesStay(opening: map<ProductId, int>, db: Db, s: Step, i: nat)
    requires Inv(opening, db) && AllTakeOver(db) && i < |db.corrections|
    ensures i < |Apply(db, s).corrections| && TakesOver(Apply(db, s), Apply(db, s).corrections[i])
  {
    var after := Apply(db, s);
    assert Evolves(db, after) by { StepEvolves(db, s); }
    assert |after.payments| == |after.txs| by { StepKeeps(opening, db, s); }
    TakenOverForGood(db, after, db.corrections[i]);
  }

  lemma NewEdgeTakesOver(db: Db, s: Step, i: nat)
    requires PaymentInv(db.txs, db.payments) && |db.corrections| <= i < |Apply(db, s).corrections|
    ensures TakesOver(Apply(db, s), Apply(db, s).corrections[i])
  {
    EdgesComeFromCorrections(db, s);
    CorrectionTakesOver(db, s.key, s.dto);
  }

  lemma TakeOverStep(opening: map<ProductId, int>, db: Db, s: Step)
    requires Inv(opening, db) && AllTakeOver(db)
    ensures AllTakeOver(Apply(db, s))
  {
    forall i | 0 <= i < |Apply(db, s).corrections|
      ensures TakesOver(Apply(db, s), Apply(db, s).corrections[i])
    {
      if i < |db.corrections| {
        OldEdgesStay(opening, db, s, i);
      } else {
        NewEdgeTakesOver(db, s, i);
      }
    }
  }

  lemma EdgesComeFromCorrections(db: Db, s: Step)
    requires |Apply(db, s).corrections| > |db.corrections|
    ensures s.Correct? && CorrectTransaction(db, s.key, s.dto) == Success(Apply(db, s))
    ensures Apply(db, s).corrections == db.corrections + [Correction(FindOne(db.txs, s.key).value, |db.txs|)]
  {
    if Quiet(s) {
      QuietSteps(db, s);
    }
  }

  lemma {:induction false} RunTakesOver(db: Db, steps: seq<Step>)
    requires Initial(db)
    ensures AllTakeOver(Run(db, steps))
  {
    if |steps| > 0 {
      var init := steps[..|steps| - 1];
      RunTakesOver(db, init);
      RunKeeps(db, init);
      TakeOverStep(db.stock, Run(db, init), steps[|steps| - 1]);
    }
  }

  /**
   In every reachable state all versions in a chain were sold on one device and paid by one
   method, and every version after the root is paid exactly its own total.
   */
  lemma {:induction false} ChainSharesPaymentMethod(db: Db, steps: seq<Step>, path: seq<TxId>, i: nat)
    requires Initial(db) && i < |path|
    requires IsChain(Run(db, steps).txs, Run(db, steps).corrections, path)
    ensures
      var now := Run(db, steps);
      && |now.payments| == |now.txs|
      && now.txs[path[i]].device == now.txs[path[0]].device
      && now.payments[path[i]].payMethod == now.payments[path[0]].payMethod
      && now.payments[path[i]].details == now.payments[path[0]].details
      && (i > 0 ==> now.payments[path[i]].amount == now.txs[path[i]].total)
  {
    RunKeeps(db, steps);
    if i > 0 {
      ChainSharesPaymentMethod(db, steps, path, i - 1);
      RunTakesOver(db, steps);
      var now := Run(db, steps);
      assert Correction(path[i - 1], path[i - 1 + 1]) in now.corrections;
      assert TakesOver(now, Correction(path[i - 1], path[i]));
    }
  }
}
