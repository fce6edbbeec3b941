/**
 Confirmed revenue: the sum of totals over CONFIRMED sales, and everything that changes it.
 */
module Revenue {
  import opened Schema
  import opened Operations
  import opened Evolution
  import opened Invariants

  ghost function Earnings(txs: seq<Transaction>): int
  {
    if |txs| == 0 then 0
    else Earnings(txs[..|txs| - 1]) + Earned(txs[|txs| - 1])
  }

  ghost function Earned(tx: Transaction): int
  {
    if tx.status == CONFIRMED then tx.total else 0
  }

  lemma {:induction false} RevenueUpdate(txs: seq<Transaction>, t: TxId, tx: Transaction)
    requires t < |txs|
    ensures Earnings(txs[t := tx]) == Earnings(txs) - Earned(txs[t]) + Earned(tx)
  {
    var n := |txs| - 1;
    if t < n {
      assert txs[t := tx][..n] == txs[..n][t := tx];
      RevenueUpdate(txs[..n], t, tx);
    } else {
      assert txs[t := tx][..n] == txs[..n];
    }
  }

  lemma RevenueAppend(txs: seq<Transaction>, tx: Transaction)
    ensures Earnings(txs + [tx]) == Earnings(txs) + Earned(tx)
  {
    assert (txs + [tx])[..|txs|] == txs;
  }

  /** The only four ways confirmed revenue changes, and by how much. */
  ghost function RevenueChange(db: Db, s: Step): int
  {
    if Try(db, s).Failure? then 0
    else
      match s
      case Sync(p) => if StockConflict(db, p.items) then 0 else p.total
      case Resolve(key, action) => if action == CONFIRM then db.txs[FindOne(db.txs, key).value].total else 0
      case Correct(key, dto) => dto.total - db.txs[FindOne(db.txs, key).value].total
      case Close(c, valid) =>
        if valid then 0
        else
          var t := db.payments[db.cases[c].payment].tx;
          if t < |db.txs| && db.txs[t].status == CONFIRMED then -db.txs[t].total else 0
      case _ => 0
  }

  lemma RevenueOfCorrection(txs: seq<Transaction>, t: TxId, dto: CorrectDto)
    requires t < |txs| && txs[t].status == CONFIRMED
    ensures Earnings(WithReplacement(txs, t, dto)) == Earnings(txs) + dto.total - txs[t].total
  {
    RevenueUpdate(txs, t, Superseded(txs[t], |txs|));
    RevenueAppend(txs[t := Superseded(txs[t], |txs|)], CorrectedHeader(txs[t], dto));
  }

  lemma RevenueOfVoid(db: Db, key: Key)
    requires VoidTransaction(db, key).Success?
    ensures Earnings(VoidTransaction(db, key).value.txs) == Earnings(db.txs)
  {
    var t := FindOne(db.txs, key).value;
    RevenueUpdate(db.txs, t, db.txs[t].(status := VOIDED, voidReason := Some(ByOwner)));
  }

  lemma RevenueOfResolve(db: Db, key: Key, action: Action)
    requires forall t | 0 <= t < |db.txs| :: StatusOk(db.txs[t])
    requires ResolveConflict(db, key, action).Success?
    ensures Earnings(ResolveConflict(db, key, action).value.txs) ==
              Earnings(db.txs) + RevenueChange(db, Resolve(key, action))
  {
    var t := FindOne(db.txs, key).value;
    RevenueUpdate(db.txs, t, ResolveConflict(db, key, action).value.txs[t]);
  }

  lemma RevenueOfClose(db: Db, c: CaseId, valid: bool)
    requires ResolveCase(db, c, valid).Success?
    ensures Earnings(ResolveCase(db, c, valid).value.txs) == Earnings(db.txs) + RevenueChange(db, Close(c, valid))
  {
    if !valid {
      var t := db.payments[db.cases[c].payment].tx;
      if t < |db.txs| && db.txs[t].status != VOIDED {
        RevenueUpdate(db.txs, t, db.txs[t].(status := VOIDED, voidReason := Some(ByInvalidPayment)));
      }
    }
  }

  lemma RevenueOfSync(db: Db, p: Payload)
    ensures Earnings(Apply(db, Sync(p)).txs) == Earnings(db.txs) + RevenueChange(db, Sync(p))
  {
    if ProcessTransaction(db, p).Success? {
      RevenueAppend(db.txs, SaleHeader(p, StockConflict(db, p.items)));
    }
  }

  lemma RevenueOfOwner(db: Db, s: Step)
    requires forall t | 0 <= t < |db.txs| :: StatusOk(db.txs[t])
    requires !Quiet(s) && !s.Sync? && Try(db, s).Success?
    ensures Earnings(Try(db, s).value.txs) == Earnings(db.txs) + RevenueChange(db, s)
  {
    match s
    case Void(key) => RevenueOfVoid(db, key);
    case Resolve(key, action) => RevenueOfResolve(db, key, action);
    case Correct(key, dto) => RevenueOfCorrection(db.txs, FindOne(db.txs, key).value, dto);
    case Close(c, valid) => RevenueOfClose(db, c, valid);
  }

  lemma RevenueStep(db: Db, s: Step)
    requires forall t | 0 <= t < |db.txs| :: StatusOk(db.txs[t])
    ensures Earnings(Apply(db, s).txs) == Earnings(db.txs) + RevenueChange(db, s)
  {
    if s.Sync? {
      RevenueOfSync(db, s.p);
    } else if Quiet(s) {
      QuietSteps(db, s);
    } else if Try(db, s).Success? {
      RevenueOfOwner(db, s);
    }
  }

  ghost function RevenueChanges(db: Db, steps: seq<Step>): int
  {
    if |steps| == 0 then 0
    else
      var init, last := steps[..|steps| - 1], steps[|steps| - 1];
      RevenueChanges(db, init) + RevenueChange(Run(db, init), last)
  }

  /** After any run confirmed revenue is the sum of those changes and nothing else. */
  lemma {:induction false} RunRevenue(db: Db, steps: seq<Step>)
    requires Initial(db)
    ensures Earnings(Run(db, steps).txs) == RevenueChanges(db, steps)
  {
    if |steps| > 0 {
      var init := steps[..|steps| - 1];
      RunRevenue(db, init);
      RunKeeps(db, init);
      var mid := Run(db, init);
      assert forall t | 0 <= t < |mid.txs| :: RowOk(mid.devices, mid.stock, mid.txs[t]);
      RevenueStep(mid, steps[|steps| - 1]);
    }
  }
}
