/**
 Several workers at once. Up to ten messages are in flight, so the database transactions of
 different sales interleave: rows are locked one line at a time, inserts stay private until
 commit, and owner operations run in between wherever no lock stops them.

 The result is that nothing of this is visible: every interleaving leaves the database as some
 sequence of atomic steps leaves it, each confirming or conflicting sale appearing at its commit.
 */
module Workers {
  import opened Schema
  import opened Ledger
  import opened Operations
  import opened Invariants

  /** Where a worker stands with the sale it holds. */
  datatype Phase =
    | Idle
    | Picked(p: Payload)                                 // not found by the idempotency lookup
    | Checking(p: Payload, k: nat)                       // rows of lines 0..k locked, all sufficient
    | Judged(p: Payload, k: nat, conflict: bool)         // stock check over, at line k if in conflict
    | HeaderIn(p: Payload, k: nat, conflict: bool)       // header inserted, not committed
    | RowsIn(p: Payload, k: nat, conflict: bool, j: nat, written: map<ProductId, int>)
                                                         // details and payment inserted, j lines deducted
    | Failing(p: Payload, error: Error)                  // rolled back, failure not yet noted

  datatype Sys = Sys(db: Db, workers: seq<Phase>)

  /** How many lines, from the first, this worker has asked a row lock for. */
  function LocksAsked(w: Phase): nat
  {
    match w
    case Idle => 0
    case Picked(_) => 0
    case Checking(_, k) => k
    case Judged(_, k, conflict) => if conflict then k + 1 else k
    case HeaderIn(_, k, conflict) => if conflict then k + 1 else k
    case RowsIn(_, k, conflict, _, _) => if conflict then k + 1 else k
    case Failing(_, _) => 0
  }

  predicate Among(items: seq<Item>, n: nat, q: ProductId)
  {
    exists i | 0 <= i < |items| && i < n :: items[i].product == q
  }

  /** The rows it holds locked; a row that does not exist cannot be locked. */
  predicate Holds(db: Db, w: Phase, q: ProductId)
  {
    !w.Idle? && q in db.stock && Among(w.p.items, LocksAsked(w), q)
  }

  predicate HeldByOther(sys: Sys, w: nat, q: ProductId)
  {
    exists v | 0 <= v < |sys.workers| && v != w :: Holds(sys.db, sys.workers[v], q)
  }

  /** It has inserted a row with its offline identifier that others cannot see yet. */
  predicate Pending(w: Phase)
  {
    w.HeaderIn? || w.RowsIn?
  }

  predicate UuidPendingElsewhere(sys: Sys, w: nat, uuid: Uuid)
  {
    exists v | 0 <= v < |sys.workers| && v != w :: Pending(sys.workers[v]) && sys.workers[v].p.uuid == uuid
  }

  predicate Names(w: Phase, q: ProductId)
  {
    !w.Idle? && Lists(w.p.items, q)
  }

  predicate Lists(items: seq<Item>, q: ProductId)
  {
    exists i | 0 <= i < |items| :: items[i].product == q
  }

  // ---- Owner operations in between ----

  /** The stock or product rows an owner operation would write. */
  predicate Writes(db: Db, s: Step, q: ProductId)
  {
    match s
    case Adjust(id, _) => q == id
    case Activate(id, _) => q == id
    case Resolve(key, action) =>
      var found := FindOne(db.txs, key);
      action == CONFIRM && found.Some? && Lists(db.txs[found.value].items, q)
    case Correct(key, dto) =>
      var found := FindOne(db.txs, key);
      found.Some? && (Lists(db.txs[found.value].items, q) || Lists(dto.items, q))
    case _ => false
  }

  /** A row lock blocks the writer; a generated product id is not one a sale in flight names. */
  predicate Blocked(sys: Sys, s: Step)
  {
    || s.Sync?
    || exists v | 0 <= v < |sys.workers| ::
         exists i | 0 <= i < |ItemsOf(sys.workers[v])| ::
           var q := ItemsOf(sys.workers[v])[i].product;
           (Holds(sys.db, sys.workers[v], q) && Writes(sys.db, s, q)) || (s.AddProduct? && s.id == q)
  }

  function ItemsOf(w: Phase): seq<Item>
  {
    if w.Idle? then [] else w.p.items
  }

  // ---- Transitions ----

  datatype Move =
    | Pick(w: nat, p: Payload)
    | Advance(w: nat)
    | Abort(w: nat)
    | Note(w: nat, written: bool)                         // the failure note, or its write failing too
    | Owner(s: Step)

  /** What the row's value looks like from inside the transaction that wrote `written`. */
  function Seen(db: Db, written: map<ProductId, int>, q: ProductId): int
    requires q in db.stock
  {
    if q in written then written[q] else db.stock[q]
  }

  function Commit(db: Db, p: Payload, conflict: bool, j: nat, written: map<ProductId, int>): Db
    requires j <= |p.items|
  {
    var t := |db.txs|;
    db.(txs := db.txs + [SaleHeader(p, conflict)],
        payments := db.payments + [Payment(t, p.payment.amount, p.payment.payMethod, p.payment.details, VERIFIED)],
        stock := db.stock + written,
        ledger := db.ledger + MovementRows(p.items[..j], t, SALE, Out))
  }

  /** Deducting one more line, in the worker's own view of the row. */
  function DeductLine(db: Db, w: Phase): Phase
    requires w.RowsIn? && w.j < |w.p.items|
  {
    var q := w.p.items[w.j].product;
    var v := (if q in db.stock then Seen(db, w.written, q) else 0) - w.p.items[w.j].quantity;
    RowsIn(w.p, w.k, w.conflict, w.j + 1, w.written[q := v])
  }

  /** The next thing a busy worker does, or nothing while it is blocked. */
  function Progress(sys: Sys, w: nat): Sys
    requires w < |sys.workers|
  {
    var db := sys.db;
    match sys.workers[w]
    case Idle => sys
    case Picked(p) =>
      sys.(workers := sys.workers[w := if ArithmeticHolds(p) then Checking(p, 0) else Failing(p, ArithmeticError)])
    case Checking(p, k) =>
      if k >= |p.items| then sys.(workers := sys.workers[w := Judged(p, k, false)])
      else if p.items[k].product !in db.stock then sys.(workers := sys.workers[w := Judged(p, k, true)])
      else if HeldByOther(sys, w, p.items[k].product) then sys
      else if LineConflicts(db, p.items[k]) then sys.(workers := sys.workers[w := Judged(p, k, true)])
      else sys.(workers := sys.workers[w := Checking(p, k + 1)])
    case Judged(p, k, conflict) =>
      if p.device !in db.devices then sys.(workers := sys.workers[w := Failing(p, DeviceNotFound)])
      else if UuidTaken(db.txs, p.uuid) then sys.(workers := sys.workers[w := Failing(p, UniqueViolation)])
      else if UuidPendingElsewhere(sys, w, p.uuid) then sys
      else sys.(workers := sys.workers[w := HeaderIn(p, k, conflict)])
    case HeaderIn(p, k, conflict) =>
      sys.(workers := sys.workers[w :=
        if ProductsKnown(db.stock, p.items) then RowsIn(p, k, conflict, 0, map[]) else Failing(p, ForeignKeyViolation)])
    case RowsIn(p, k, conflict, j, written) =>
      if conflict || j >= |p.items| then
        Sys(if j <= |p.items| then Commit(db, p, conflict, j, written) else db, sys.workers[w := Idle])
      else
        sys.(workers := sys.workers[w := DeductLine(db, sys.workers[w])])
    case Failing(_, _) => sys
  }

  function Next(sys: Sys, m: Move): Sys
  {
    match m
    case Pick(w, p) =>
      if w < |sys.workers| && sys.workers[w].Idle? && !Stored(sys.db.txs, p.device, p.uuid)
      then sys.(workers := sys.workers[w := Picked(p)])
      else sys
    case Advance(w) => if w < |sys.workers| then Progress(sys, w) else sys
    case Abort(w) =>
      if w < |sys.workers| && !sys.workers[w].Idle? && !sys.workers[w].Failing?
      then sys.(workers := sys.workers[w := Failing(sys.workers[w].p, InfrastructureAbort)])
      else sys
    case Note(w, written) =>
      if w < |sys.workers| && sys.workers[w].Failing?
      then
        Sys(if written then RecordFailure(sys.db, sys.workers[w].p, NoteFor(sys.workers[w].error)) else sys.db,
            sys.workers[w := Idle])
      else sys
    case Owner(s) => if Blocked(sys, s) then sys else sys.(db := Apply(sys.db, s))
  }

  function Exec(sys: Sys, moves: seq<Move>): Sys
  {
    if |moves| == 0 then sys
    else Next(Exec(sys, moves[..|moves| - 1]), moves[|moves| - 1])
  }

  // ---- What holds in between ----

  ghost predicate LinesServed(db: Db, items: seq<Item>, k: nat)
  {
    k <= |items| && forall i | 0 <= i < k :: !LineConflicts(db, items[i])
  }

  /** The verdict is still the one the stock check would reach now. */
  ghost predicate VerdictStands(db: Db, p: Payload, k: nat, conflict: bool)
  {
    && ArithmeticHolds(p)
    && LinesServed(db, p.items, k)
    && (if conflict then k < |p.items| && LineConflicts(db, p.items[k]) else k == |p.items|)
  }

  ghost predicate WrittenOk(db: Db, p: Payload, j: nat, written: map<ProductId, int>)
  {
    && j <= |p.items|
    && (forall q | q in written :: Lists(p.items, q) && q in db.stock)
    && (forall q | q in db.stock :: Seen(db, written, q) == db.stock[q] - ItemQty(p.items[..j], q))
  }

  ghost predicate PhaseOk(db: Db, w: Phase)
  {
    match w
    case Idle => true
    case Picked(p) => true
    case Checking(p, k) => ArithmeticHolds(p) && LinesServed(db, p.items, k)
    case Judged(p, k, conflict) => VerdictStands(db, p, k, conflict)
    case HeaderIn(p, k, conflict) =>
      VerdictStands(db, p, k, conflict) && p.device in db.devices && !UuidTaken(db.txs, p.uuid)
    case RowsIn(p, k, conflict, j, written) =>
      && VerdictStands(db, p, k, conflict) && p.device in db.devices && !UuidTaken(db.txs, p.uuid)
      && ProductsKnown(db.stock, p.items) && WrittenOk(db, p, j, written)
      && (conflict ==> j == 0 && written == map[])
    case Failing(p, error) => true
  }

  ghost predicate LocksExclusive(sys: Sys)
  {
    forall v, w, q | 0 <= v < w < |sys.workers| && Holds(sys.db, sys.workers[v], q) ::
      !Holds(sys.db, sys.workers[w], q)
  }

  ghost predicate PendingDistinct(workers: seq<Phase>)
  {
    forall v, w | 0 <= v < w < |workers| && Pending(workers[v]) && Pending(workers[w]) ::
      workers[v].p.uuid != workers[w].p.uuid
  }

  ghost predicate SysInv(sys: Sys)
  {
    && CatalogInv(sys.db.active, sys.db.stock)
    && (forall v | 0 <= v < |sys.workers| :: PhaseOk(sys.db, sys.workers[v]))
    && LocksExclusive(sys)
    && PendingDistinct(sys.workers)
  }

  // ---- Stability: what others may do to the database under a worker's feet ----

  ghost predicate SameRow(a: Db, b: Db, q: ProductId)
  {
    && q in a.stock && q in b.stock && b.stock[q] == a.stock[q]
    && q in a.active && q in b.active && b.active[q] == a.active[q]
  }

  /** From this worker's point of view the database has only changed in harmless ways. */
  ghost predicate Undisturbed(a: Db, b: Db, w: Phase)
  {
    && a.devices <= b.devices
    && CatalogInv(b.active, b.stock)
    && (forall q | Names(w, q) :: q in a.stock <==> q in b.stock)
    && (forall q | Holds(a, w, q) :: SameRow(a, b, q))
    && (Pending(w) && UuidTaken(b.txs, w.p.uuid) ==> UuidTaken(a.txs, w.p.uuid))
  }

  lemma LineStable(a: Db, b: Db, w: Phase, i: nat)
    requires CatalogInv(a.active, a.stock) && Undisturbed(a, b, w)
    requires !w.Idle? && i < |w.p.items| && i < LocksAsked(w)
    ensures LineConflicts(b, w.p.items[i]) == LineConflicts(a, w.p.items[i])
  {
    var q := w.p.items[i].product;
    assert Names(w, q);
    if q in a.stock {
      assert Holds(a, w, q);
    }
  }

  lemma {:induction false} NotListed(items: seq<Item>, j: nat, q: ProductId)
    requires !Lists(items, q) && j <= |items|
    ensures ItemQty(items[..j], q) == 0
  {
    if j > 0 {
      NotListed(items, j - 1, q);
      assert items[..j][..j - 1] == items[..j - 1];
      assert items[j - 1].product != q;
    }
  }

  lemma WrittenStable(a: Db, b: Db, w: Phase)
    requires PhaseOk(a, w) && CatalogInv(a.active, a.stock) && Undisturbed(a, b, w) && w.RowsIn?
    ensures WrittenOk(b, w.p, w.j, w.written)
  {
    if !w.conflict {
      forall q | q in b.stock
        ensures Seen(b, w.written, q) == b.stock[q] - ItemQty(w.p.items[..w.j], q)
      {
        if Lists(w.p.items, q) {
          var i :| 0 <= i < |w.p.items| && w.p.items[i].product == q;
          assert Holds(a, w, q);
        } else {
          NotListed(w.p.items, w.j, q);
        }
      }
      forall q | q in w.written
        ensures q in b.stock
      {
        assert Names(w, q);
      }
    }
  }

  lemma PhaseStable(a: Db, b: Db, w: Phase)
    requires PhaseOk(a, w) && CatalogInv(a.active, a.stock) && Undisturbed(a, b, w)
    ensures PhaseOk(b, w)
  {
    if !w.Idle? {
      forall i | 0 <= i < |w.p.items| && i < LocksAsked(w)
        ensures LineConflicts(b, w.p.items[i]) == LineConflicts(a, w.p.items[i])
      {
        LineStable(a, b, w, i);
      }
      if w.RowsIn? {
        WrittenStable(a, b, w);
        forall i | 0 <= i < |w.p.items|
          ensures w.p.items[i].product in b.stock
        {
          assert Names(w, w.p.items[i].product);
        }
      }
    }
  }

  lemma HoldsStable(a: Db, b: Db, w: Phase, q: ProductId)
    requires Undisturbed(a, b, w)
    ensures Holds(b, w, q) == Holds(a, w, q)
  {
    if Holds(b, w, q) {
      assert Names(w, q);
    }
  }

  // ---- Every transition keeps the invariant ----

  /** A step that only moves one worker. */
  lemma WorkerMoves(sys: Sys, w: nat, phase: Phase)
    requires SysInv(sys) && w < |sys.workers| && PhaseOk(sys.db, phase)
    requires forall q | Holds(sys.db, phase, q) :: Holds(sys.db, sys.workers[w], q) || !HeldByOther(sys, w, q)
    requires Pending(phase) ==> !UuidPendingElsewhere(sys, w, phase.p.uuid)
    ensures SysInv(sys.(workers := sys.workers[w := phase]))
  {
    var sys' := sys.(workers := sys.workers[w := phase]);
    forall u, v, q | 0 <= u < v < |sys'.workers| && Holds(sys'.db, sys'.workers[u], q)
      ensures !Holds(sys'.db, sys'.workers[v], q)
    {
      assert Holds(sys.db, sys.workers[u], q) || u == w;
    }
  }

  /** A step in which the database moves on and worker `w`, if it is one, goes idle. */
  lemma DatabaseMoves(sys: Sys, db: Db, w: nat)
    requires SysInv(sys) && CatalogInv(db.active, db.stock)
    requires forall v | 0 <= v < |sys.workers| && v != w :: Undisturbed(sys.db, db, sys.workers[v])
    ensures SysInv(Sys(db, if w < |sys.workers| then sys.workers[w := Idle] else sys.workers))
  {
    var sys' := Sys(db, if w < |sys.workers| then sys.workers[w := Idle] else sys.workers);
    forall v | 0 <= v < |sys'.workers|
      ensures PhaseOk(db, sys'.workers[v])
    {
      if v != w {
        PhaseStable(sys.db, db, sys.workers[v]);
      }
    }
    forall u, v, q | 0 <= u < v < |sys'.workers| && Holds(db, sys'.workers[u], q)
      ensures !Holds(db, sys'.workers[v], q)
    {
      if u != w && v != w {
        HoldsStable(sys.db, db, sys.workers[u], q);
        HoldsStable(sys.db, db, sys.workers[v], q);
      }
    }
  }

  lemma QtyOf(items: seq<Item>, k: nat, q: ProductId)
    requires k < |items|
    ensures ItemQty(items[..k + 1], q) == ItemQty(items[..k], q) + if items[k].product == q then items[k].quantity else 0
  {
    assert items[..k + 1][..k] == items[..k];
  }

  lemma DeductionKeeps(db: Db, w: Phase)
    requires w.RowsIn? && !w.conflict && w.j < |w.p.items| && PhaseOk(db, w)
    ensures PhaseOk(db, DeductLine(db, w))
  {
    var q := w.p.items[w.j].product;
    assert Lists(w.p.items, q);
    var written := w.written[q := Seen(db, w.written, q) - w.p.items[w.j].quantity];
    forall r | r in db.stock
      ensures Seen(db, written, r) == db.stock[r] - ItemQty(w.p.items[..w.j + 1], r)
    {
      QtyOf(w.p.items, w.j, r);
    }
  }

  /** What is committed is what the atomic step would store, verdict included. */
  lemma CommitIsAtomic(db: Db, w: Phase)
    requires CatalogInv(db.active, db.stock)
    requires PhaseOk(db, w) && w.RowsIn? && (w.conflict || w.j == |w.p.items|)
    ensures ProcessTransaction(db, w.p) == Success(Commit(db, w.p, w.conflict, w.j, w.written))
  {
    assert StockConflict(db, w.p.items) == w.conflict;
    var t := |db.txs|;
    if w.conflict {
      assert db.ledger + MovementRows(w.p.items[..0], t, SALE, Out) == db.ledger;
      assert db.stock + map[] == db.stock;
    } else {
      assert w.p.items[..w.j] == w.p.items;
      assert db.stock + w.written == Shift(db.stock, w.p.items, Out) by {
        forall q | q in db.stock
          ensures (db.stock + w.written)[q] == Shift(db.stock, w.p.items, Out)[q]
        {
          assert (db.stock + w.written)[q] == Seen(db, w.written, q);
        }
      }
    }
  }

  lemma WrittenIsHeld(db: Db, w: Phase, q: ProductId)
    requires PhaseOk(db, w) && w.RowsIn? && (w.conflict || w.j == |w.p.items|) && q in w.written
    ensures Holds(db, w, q)
  {
    var i :| 0 <= i < |w.p.items| && w.p.items[i].product == q;
    assert i < LocksAsked(w);
  }

  lemma NotHeldTwice(sys: Sys, v: nat, w: nat, q: ProductId)
    requires LocksExclusive(sys) && v < |sys.workers| && w < |sys.workers| && v != w
    requires Holds(sys.db, sys.workers[v], q)
    ensures !Holds(sys.db, sys.workers[w], q)
  {
  }

  /** A commit only touches rows its worker holds and one offline identifier nobody else has pending. */
  lemma CommitDisturbsNobody(sys: Sys, w: nat, v: nat)
    requires SysInv(sys) && w < |sys.workers| && v < |sys.workers| && v != w
    requires sys.workers[w].RowsIn? && (sys.workers[w].conflict || sys.workers[w].j == |sys.workers[w].p.items|)
    ensures
      var me := sys.workers[w];
      Undisturbed(sys.db, Commit(sys.db, me.p, me.conflict, me.j, me.written), sys.workers[v])
  {
    var me := sys.workers[w];
    assert PhaseOk(sys.db, me);
    var db' := Commit(sys.db, me.p, me.conflict, me.j, me.written);
    assert db'.stock.Keys == sys.db.stock.Keys;
    forall q | q in me.written
      ensures !Holds(sys.db, sys.workers[v], q)
    {
      WrittenIsHeld(sys.db, me, q);
      NotHeldTwice(sys, w, v, q);
    }
  }

  lemma AdvanceKeeps(sys: Sys, w: nat)
    requires SysInv(sys) && w < |sys.workers|
    ensures SysInv(Progress(sys, w))
  {
    var me := sys.workers[w];
    assert PhaseOk(sys.db, me);
    match me
    case Idle =>
    case Picked(p) =>
      WorkerMoves(sys, w, if ArithmeticHolds(p) then Checking(p, 0) else Failing(p, ArithmeticError));
    case Checking(p, k) => CheckingKeeps(sys, w);
    case Judged(p, k, conflict) => JudgedKeeps(sys, w);
    case HeaderIn(p, k, conflict) => HeaderKeeps(sys, w);
    case RowsIn(p, k, conflict, j, written) => RowsKeeps(sys, w);
    case Failing(_, _) =>
  }

  lemma PendingIsMine(sys: Sys, w: nat)
    requires SysInv(sys) && w < |sys.workers| && Pending(sys.workers[w])
    ensures !UuidPendingElsewhere(sys, w, sys.workers[w].p.uuid)
  {
  }

  lemma RowsKeeps(sys: Sys, w: nat)
    requires SysInv(sys) && w < |sys.workers| && sys.workers[w].RowsIn?
    ensures SysInv(Progress(sys, w))
  {
    assert PhaseOk(sys.db, sys.workers[w]);
    if sys.workers[w].conflict || sys.workers[w].j == |sys.workers[w].p.items| {
      CommitKeeps(sys, w);
    } else {
      var me := sys.workers[w];
      DeductionKeeps(sys.db, me);
      KeepsStanding(sys, w, DeductLine(sys.db, me));
    }
  }

  lemma CommitKeeps(sys: Sys, w: nat)
    requires SysInv(sys) && w < |sys.workers|
    requires sys.workers[w].RowsIn? && (sys.workers[w].conflict || sys.workers[w].j == |sys.workers[w].p.items|)
    ensures
      var me := sys.workers[w];
      me.j <= |me.p.items| &&
      SysInv(Sys(Commit(sys.db, me.p, me.conflict, me.j, me.written), sys.workers[w := Idle]))
  {
    var me := sys.workers[w];
    assert PhaseOk(sys.db, me);
    var db' := Commit(sys.db, me.p, me.conflict, me.j, me.written);
    forall v | 0 <= v < |sys.workers| && v != w
      ensures Undisturbed(sys.db, db', sys.workers[v])
    {
      CommitDisturbsNobody(sys, w, v);
    }
    assert db'.stock.Keys == sys.db.stock.Keys;
    DatabaseMoves(sys, db', w);
  }

  /** A worker that keeps its sale, its locks and its verdict. */
  lemma KeepsStanding(sys: Sys, w: nat, phase: Phase)
    requires SysInv(sys) && w < |sys.workers| && sys.workers[w].RowsIn? && PhaseOk(sys.db, phase)
    requires phase.RowsIn? && phase.p == sys.workers[w].p
    requires phase.k == sys.workers[w].k && phase.conflict == sys.workers[w].conflict
    ensures SysInv(sys.(workers := sys.workers[w := phase]))
  {
    PendingIsMine(sys, w);
    assert LocksAsked(phase) == LocksAsked(sys.workers[w]);
    WorkerMoves(sys, w, phase);
  }

  lemma CheckingKeeps(sys: Sys, w: nat)
    requires SysInv(sys) && w < |sys.workers| && sys.workers[w].Checking?
    ensures SysInv(Progress(sys, w))
  {
    var me := sys.workers[w];
    assert PhaseOk(sys.db, me);
    var p, k := me.p, me.k;
    if k >= |p.items| {
      WorkerMoves(sys, w, Judged(p, k, false));
    } else if p.items[k].product !in sys.db.stock {
      forall q | Holds(sys.db, Judged(p, k, true), q)
        ensures Holds(sys.db, me, q)
      {
      }
      WorkerMoves(sys, w, Judged(p, k, true));
    } else if HeldByOther(sys, w, p.items[k].product) {
    } else {
      var me' := if LineConflicts(sys.db, p.items[k]) then Judged(p, k, true) else Checking(p, k + 1);
      forall q | Holds(sys.db, me', q)
        ensures Holds(sys.db, me, q) || !HeldByOther(sys, w, q)
      {
        var i :| 0 <= i < |p.items| && i < k + 1 && p.items[i].product == q;
        assert i < k || q == p.items[k].product;
      }
      WorkerMoves(sys, w, me');
    }
  }

  lemma JudgedKeeps(sys: Sys, w: nat)
    requires SysInv(sys) && w < |sys.workers| && sys.workers[w].Judged?
    ensures SysInv(Progress(sys, w))
  {
    var me := sys.workers[w];
    assert PhaseOk(sys.db, me);
    if me.p.device !in sys.db.devices {
      WorkerMoves(sys, w, Failing(me.p, DeviceNotFound));
    } else if UuidTaken(sys.db.txs, me.p.uuid) {
      WorkerMoves(sys, w, Failing(me.p, UniqueViolation));
    } else if !UuidPendingElsewhere(sys, w, me.p.uuid) {
      forall q | Holds(sys.db, HeaderIn(me.p, me.k, me.conflict), q)
        ensures Holds(sys.db, me, q)
      {
      }
      WorkerMoves(sys, w, HeaderIn(me.p, me.k, me.conflict));
    }
  }

  lemma HeaderKeeps(sys: Sys, w: nat)
    requires SysInv(sys) && w < |sys.workers| && sys.workers[w].HeaderIn?
    ensures SysInv(Progress(sys, w))
  {
    var me := sys.workers[w];
    assert PhaseOk(sys.db, me);
    PendingIsMine(sys, w);
    if ProductsKnown(sys.db.stock, me.p.items) {
      assert me.p.items[..0] == [];
      var me' := RowsIn(me.p, me.k, me.conflict, 0, map[]);
      forall q | Holds(sys.db, me', q)
        ensures Holds(sys.db, me, q)
      {
      }
      WorkerMoves(sys, w, me');
    } else {
      WorkerMoves(sys, w, Failing(me.p, ForeignKeyViolation));
    }
  }

  /** Owner operations that are not blocked leave every worker's view intact. */
  lemma OwnerDisturbsNobody(sys: Sys, s: Step, v: nat)
    requires SysInv(sys) && !Blocked(sys, s) && v < |sys.workers|
    ensures Undisturbed(sys.db, Apply(sys.db, s), sys.workers[v])
  {
    var me := sys.workers[v];
    var db, db' := sys.db, Apply(sys.db, s);
    OwnerKeepsCatalog(db, s);
    OwnerTakesNoUuid(db, s);
    forall q | Names(me, q)
      ensures q in db.stock <==> q in db'.stock
    {
      var i :| 0 <= i < |me.p.items| && me.p.items[i].product == q;
      assert ItemsOf(me)[i].product == q;
    }
    forall q | Holds(db, me, q)
      ensures SameRow(db, db', q)
    {
      var i :| 0 <= i < |me.p.items| && i < LocksAsked(me) && me.p.items[i].product == q;
      assert ItemsOf(me)[i].product == q;
      OwnerWrites(db, s, q);
    }
  }

  lemma OwnerKeepsCatalog(db: Db, s: Step)
    requires CatalogInv(db.active, db.stock)
    ensures CatalogInv(Apply(db, s).active, Apply(db, s).stock)
    ensures db.devices <= Apply(db, s).devices
    ensures forall q | !(s.AddProduct? && s.id == q) :: q in db.stock <==> q in Apply(db, s).stock
  {
  }

  lemma OwnerTakesNoUuid(db: Db, s: Step)
    requires !s.Sync?
    ensures forall u: Uuid | UuidTaken(Apply(db, s).txs, u) :: UuidTaken(db.txs, u)
  {
    forall u: Uuid | UuidTaken(Apply(db, s).txs, u)
      ensures UuidTaken(db.txs, u)
    {
      var t :| 0 <= t < |Apply(db, s).txs| && Apply(db, s).txs[t].uuid == Some(u);
      assert t < |db.txs| && db.txs[t].uuid == Some(u);
    }
  }

  lemma OwnerWrites(db: Db, s: Step, q: ProductId)
    requires !s.Sync? && CatalogInv(db.active, db.stock) && q in db.stock
    requires !Writes(db, s, q) && !(s.AddProduct? && s.id == q)
    ensures SameRow(db, Apply(db, s), q)
  {
    match s
    case Resolve(key, action) =>
      var found := FindOne(db.txs, key);
      if found.Some? && action == CONFIRM {
        var items := db.txs[found.value].items;
        NotListed(items, |items|, q);
        assert items[..|items|] == items;
      }
    case Correct(key, dto) =>
      var found := FindOne(db.txs, key);
      if found.Some? {
        var items := db.txs[found.value].items;
        NotListed(items, |items|, q);
        assert items[..|items|] == items;
        NotListed(dto.items, |dto.items|, q);
        assert dto.items[..|dto.items|] == dto.items;
      }
    case _ =>
  }

  lemma NextKeeps(sys: Sys, m: Move)
    requires SysInv(sys)
    ensures SysInv(Next(sys, m))
  {
    match m
    case Pick(w, p) =>
      if w < |sys.workers| {
        WorkerMoves(sys, w, Picked(p));
      }
    case Advance(w) =>
      if w < |sys.workers| {
        AdvanceKeeps(sys, w);
      }
    case Abort(w) =>
      if w < |sys.workers| && !sys.workers[w].Idle? && !sys.workers[w].Failing? {
        WorkerMoves(sys, w, Failing(sys.workers[w].p, InfrastructureAbort));
      }
    case Note(w, written) =>
      if w < |sys.workers| && sys.workers[w].Failing? {
        DatabaseMoves(sys, Next(sys, m).db, w);
      }
    case Owner(s) =>
      if !Blocked(sys, s) {
        forall v | 0 <= v < |sys.workers|
          ensures Undisturbed(sys.db, Apply(sys.db, s), sys.workers[v])
        {
          OwnerDisturbsNobody(sys, s, v);
        }
        OwnerKeepsCatalog(sys.db, s);
        DatabaseMoves(sys, Apply(sys.db, s), |sys.workers|);
      }
  }

  // ---- Refinement ----

  /** The atomic step a transition amounts to: nothing until a commit, a note or an owner operation. */
  function Atomic(sys: Sys, m: Move): seq<Step>
  {
    match m
    case Pick(_, _) => []
    case Abort(_) => []
    case Advance(w) =>
      if w < |sys.workers| && sys.workers[w].RowsIn? &&
         (sys.workers[w].conflict || sys.workers[w].j >= |sys.workers[w].p.items|)
      then [Sync(sys.workers[w].p)]
      else []
    case Note(w, written) =>
      if w < |sys.workers| && sys.workers[w].Failing? && written
      then [NoteFailure(sys.workers[w].p, NoteFor(sys.workers[w].error))]
      else []
    case Owner(s) => if Blocked(sys, s) then [] else [s]
  }

  /** The atomic steps of a whole interleaving, in commit order. */
  function Trace(sys: Sys, moves: seq<Move>): seq<Step>
  {
    if |moves| == 0 then []
    else
      var init := moves[..|moves| - 1];
      Trace(sys, init) + Atomic(Exec(sys, init), moves[|moves| - 1])
  }

  lemma RunOne(db: Db, s: Step)
    ensures Run(db, [s]) == Apply(db, s)
  {
    assert [s][..0] == [];
  }

  lemma NextIsAtomic(sys: Sys, m: Move)
    requires SysInv(sys)
    ensures Next(sys, m).db == Run(sys.db, Atomic(sys, m))
  {
    if Atomic(sys, m) != [] {
      RunOne(sys.db, Atomic(sys, m)[0]);
      assert Atomic(sys, m) == [Atomic(sys, m)[0]];
      if m.Advance? {
        assert PhaseOk(sys.db, sys.workers[m.w]);
        CommitIsAtomic(sys.db, sys.workers[m.w]);
      }
    }
  }

  /** All workers idle and a consistent catalogue. */
  ghost predicate Start(sys: Sys)
  {
    CatalogInv(sys.db.active, sys.db.stock) && forall w | 0 <= w < |sys.workers| :: sys.workers[w].Idle?
  }

  lemma {:induction false} ExecKeeps(sys: Sys, moves: seq<Move>)
    requires Start(sys)
    ensures SysInv(Exec(sys, moves))
  {
    if |moves| > 0 {
      ExecKeeps(sys, moves[..|moves| - 1]);
      NextKeeps(Exec(sys, moves[..|moves| - 1]), moves[|moves| - 1]);
    }
  }

  /**
   Every interleaving of any number of workers with owner operations and aborts leaves the
   database, failure notes included, exactly as running its sales atomically in commit order.
   */
  lemma {:induction false} InterleavingIsAtomic(sys: Sys, moves: seq<Move>)
    requires Start(sys)
    ensures Exec(sys, moves).db == Run(sys.db, Trace(sys, moves))
  {
    if |moves| > 0 {
      var init, last := moves[..|moves| - 1], moves[|moves| - 1];
      InterleavingIsAtomic(sys, init);
      ExecKeeps(sys, init);
      NextIsAtomic(Exec(sys, init), last);
      RunAppend(sys.db, Trace(sys, init), Atomic(Exec(sys, init), last));
    }
  }

  /** So everything proved of runs holds of interleavings. */
  lemma InterleavingsKeep(sys: Sys, moves: seq<Move>)
    requires Start(sys) && Initial(sys.db)
    ensures Inv(sys.db.stock, Exec(sys, moves).db)
  {
    InterleavingIsAtomic(sys, moves);
    RunKeeps(sys.db, Trace(sys, moves));
  }

  /**
   The verdict reached line by line under locks, including one reached early at line `k`, is at
   commit the verdict of the whole stock check.
   */
  lemma VerdictAtCommit(sys: Sys, moves: seq<Move>, w: nat)
    requires Start(sys) && w < |sys.workers|
    requires w < |Exec(sys, moves).workers| && Exec(sys, moves).workers[w].RowsIn?
    ensures
      var now := Exec(sys, moves);
      now.workers[w].conflict <==> StockConflict(now.db, now.workers[w].p.items)
  {
    ExecKeeps(sys, moves);
    assert PhaseOk(Exec(sys, moves).db, Exec(sys, moves).workers[w]);
  }

  /**
   A worker that fails without an abort fails with the very error the atomic operation would
   return on the database of that moment, and has changed nothing.
   */
  lemma FailureIsAtomic(sys: Sys, w: nat)
    requires SysInv(sys) && w < |sys.workers|
    requires !sys.workers[w].Failing? && Progress(sys, w).workers[w].Failing?
    ensures Progress(sys, w).db == sys.db
    ensures ProcessTransaction(sys.db, sys.workers[w].p) == Failure(Progress(sys, w).workers[w].error)
  {
    assert PhaseOk(sys.db, sys.workers[w]);
  }

  /**
   Two workers may both miss a sale in their idempotency lookup and process it at the same time;
   still an offline identifier never has two rows.
   */
  lemma InterleavingsStoreOnce(sys: Sys, moves: seq<Move>, s: TxId, t: TxId)
    requires Start(sys) && Initial(sys.db)
    requires s < |Exec(sys, moves).db.txs| && t < |Exec(sys, moves).db.txs|
    requires Exec(sys, moves).db.txs[s].uuid.Some?
    requires Exec(sys, moves).db.txs[s].uuid == Exec(sys, moves).db.txs[t].uuid
    ensures s == t
  {
    InterleavingsKeep(sys, moves);
  }

  /**
   The assumption that a generated product id is never one a sale in flight names is needed: a
   line judged in conflict because its product did not exist is no longer in conflict once the
   product is created and stocked, since there was no row to lock.
   */
  lemma MissingRowsCannotBeLocked(db: Db, p: Payload, stocked: int)
    requires CatalogInv(db.active, db.stock) && ArithmeticHolds(p) && |p.items| == 1
    requires p.items[0].product !in db.stock && 0 <= p.items[0].quantity <= stocked
    ensures
      var id := p.items[0].product;
      var db' := Run(db, [AddProduct(id, true), Adjust(id, stocked)]);
      PhaseOk(db, Judged(p, 0, true)) && !PhaseOk(db', Judged(p, 0, true))
  {
    var id := p.items[0].product;
    var steps := [AddProduct(id, true), Adjust(id, stocked)];
    RunOne(db, AddProduct(id, true));
    assert steps[..1] == [AddProduct(id, true)];
    assert Run(db, steps) == Apply(Apply(db, AddProduct(id, true)), Adjust(id, stocked));
  }
}
