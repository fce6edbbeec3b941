/**
 Things do happen. A worker that is not waiting for a lock or an identifier that another worker
 holds comes nearer its end with every step, and left alone it ends as the atomic operation does;
 every run of atomic steps is an interleaving; a message delivered to a worker left alone is
 handled sale by sale and acknowledged; and a crash on the way only means that it is done again.
 */
module Liveness {
  import opened Schema
  import opened Operations
  import opened Invariants
  import opened ExactlyOnce
  import Workers
  import Delivery
  import NoLoss
  import InFlight

  // ---- One worker ----

  predicate Working(phase: Workers.Phase)
  {
    !phase.Idle? && !phase.Failing?
  }

  /** A bound on the small steps still before a worker. */
  ghost function StepsLeft(phase: Workers.Phase): int
  {
    match phase
    case Idle => 0
    case Failing(_, _) => 0
    case Picked(p) => 2 * |p.items| + 5
    case Checking(p, k) => 2 * |p.items| + 4 - k
    case Judged(p, _, _) => |p.items| + 3
    case HeaderIn(p, _, _) => |p.items| + 2
    case RowsIn(p, _, conflict, j, _) => if conflict then 1 else |p.items| - j + 1
  }

  lemma StepsLeftBounds(db: Db, phase: Workers.Phase)
    requires Workers.PhaseOk(db, phase)
    ensures 0 <= StepsLeft(phase)
    ensures Working(phase) ==> 0 < StepsLeft(phase) <= 2 * |phase.p.items| + 5
  {
  }

  /** What a worker can be kept waiting by: a locked row it needs, or its identifier in an open insert. */
  ghost predicate KeptBy(sys: Workers.Sys, w: nat, v: nat)
    requires w < |sys.workers| && v < |sys.workers|
  {
    var me, other := sys.workers[w], sys.workers[v];
    v != w && !other.Idle? &&
    ((me.Checking? && me.k < |me.p.items| && Workers.Holds(sys.db, other, me.p.items[me.k].product)) ||
     (me.Judged? && Workers.Pending(other) && other.p.uuid == me.p.uuid))
  }

  ghost predicate IsKept(sys: Workers.Sys, w: nat)
    requires w < |sys.workers|
  {
    exists v | 0 <= v < |sys.workers| :: KeptBy(sys, w, v)
  }

  /**
   A working worker advances or is kept waiting by another one: it stands still only then, and
   otherwise it comes nearer its end, so that it takes at most 2 * |items| + 5 steps in all.
   */
  lemma AdvanceOrWait(sys: Workers.Sys, w: nat)
    requires Workers.SysInv(sys) && w < |sys.workers| && Working(sys.workers[w])
    ensures IsKept(sys, w) || StepsLeft(Workers.Progress(sys, w).workers[w]) < StepsLeft(sys.workers[w])
    ensures Workers.Progress(sys, w) == sys ==> IsKept(sys, w)
    ensures 0 < StepsLeft(sys.workers[w]) <= 2 * |sys.workers[w].p.items| + 5
  {
    var me := sys.workers[w];
    assert Workers.PhaseOk(sys.db, me);
    StepsLeftBounds(sys.db, me);
    match me
    case Checking(p, k) =>
      if k < |p.items| && p.items[k].product in sys.db.stock && Workers.HeldByOther(sys, w, p.items[k].product) {
        var v :| 0 <= v < |sys.workers| && v != w && Workers.Holds(sys.db, sys.workers[v], p.items[k].product);
        assert KeptBy(sys, w, v);
      }
    case Judged(p, k, conflict) =>
      if Workers.UuidPendingElsewhere(sys, w, p.uuid) {
        var v :| 0 <= v < |sys.workers| && v != w && Workers.Pending(sys.workers[v]) && sys.workers[v].p.uuid == p.uuid;
        assert KeptBy(sys, w, v);
      }
    case _ =>
  }

  ghost predicate Alone(sys: Workers.Sys, w: nat)
  {
    w < |sys.workers| && forall v | 0 <= v < |sys.workers| && v != w :: sys.workers[v].Idle?
  }

  function Solo(sys: Workers.Sys, w: nat, n: nat): Workers.Sys
    requires w < |sys.workers|
    ensures |Solo(sys, w, n).workers| == |sys.workers|
  {
    if n == 0 then sys else Workers.Progress(Solo(sys, w, n - 1), w)
  }

  /** Ended as the atomic operation on this database: committed with its result, or failed with its error. */
  ghost predicate EndedAs(db: Db, p: Payload, now: Workers.Sys, w: nat)
    requires w < |now.workers|
  {
    || (now.workers[w].Idle? && ProcessTransaction(db, p) == Success(now.db))
    || (now.workers[w].Failing? && now.workers[w].p == p && now.db == db && ProcessTransaction(db, p) == Failure(now.workers[w].error))
  }

  /** One step of a lone worker: nearer the end with the database as it was, or at the end. */
  lemma LoneStep(sys: Workers.Sys, w: nat)
    requires Workers.SysInv(sys) && Alone(sys, w) && Working(sys.workers[w])
    ensures Workers.SysInv(Workers.Progress(sys, w)) && Alone(Workers.Progress(sys, w), w)
    ensures
      var next := Workers.Progress(sys, w);
      EndedAs(sys.db, sys.workers[w].p, next, w) ||
      (next.db == sys.db && Working(next.workers[w]) && next.workers[w].p == sys.workers[w].p &&
       StepsLeft(next.workers[w]) < StepsLeft(sys.workers[w]))
  {
    var me := sys.workers[w];
    assert Workers.PhaseOk(sys.db, me);
    Workers.AdvanceKeeps(sys, w);
    AdvanceOrWait(sys, w);
    if me.RowsIn? && (me.conflict || me.j == |me.p.items|) {
      Workers.CommitIsAtomic(sys.db, me);
    } else if Workers.Progress(sys, w).workers[w].Failing? {
      Workers.FailureIsAtomic(sys, w);
    }
  }

  lemma {:induction false} SoloFrom(sys: Workers.Sys, w: nat, n: nat)
    requires w < |sys.workers| && n > 0
    ensures |Workers.Progress(sys, w).workers| == |sys.workers|
    ensures Solo(sys, w, n) == Solo(Workers.Progress(sys, w), w, n - 1)
  {
    if n > 1 {
      SoloFrom(sys, w, n - 1);
    }
  }

  /**
   A worker left alone, from whatever point of its sale, ends within the bound exactly as the
   atomic operation would.
   */
  lemma {:induction false} AloneEnds(sys: Workers.Sys, w: nat) returns (n: nat)
    requires Workers.SysInv(sys) && Alone(sys, w) && Working(sys.workers[w])
    ensures 0 < n <= StepsLeft(sys.workers[w]) <= 2 * |sys.workers[w].p.items| + 5
    ensures EndedAs(sys.db, sys.workers[w].p, Solo(sys, w, n), w)
    ensures Workers.SysInv(Solo(sys, w, n)) && Alone(Solo(sys, w, n), w)
    decreases StepsLeft(sys.workers[w])
  {
    assert Workers.PhaseOk(sys.db, sys.workers[w]);
    StepsLeftBounds(sys.db, sys.workers[w]);
    LoneStep(sys, w);
    var next := Workers.Progress(sys, w);
    if EndedAs(sys.db, sys.workers[w].p, next, w) {
      n := 1;
      SoloFrom(sys, w, 1);
    } else {
      assert Workers.PhaseOk(next.db, next.workers[w]);
      StepsLeftBounds(next.db, next.workers[w]);
      var rest := AloneEnds(next, w);
      n := rest + 1;
      SoloFrom(sys, w, n);
    }
  }

  /** An abort is possible at any point, rolls everything back and lets go of every lock. */
  lemma AbortLetsGo(sys: Workers.Sys, w: nat)
    requires w < |sys.workers| && Working(sys.workers[w])
    ensures
      var after := Workers.Next(sys, Workers.Abort(w));
      && after.db == sys.db && after.workers == sys.workers[w := Workers.Failing(sys.workers[w].p, InfrastructureAbort)]
      && (forall q :: !Workers.Holds(after.db, after.workers[w], q)) && !Workers.Pending(after.workers[w])
  {
  }

  // ---- Atomic runs are interleavings ----

  function Advances(w: nat, n: nat): seq<Workers.Move>
  {
    seq(n, _ => Workers.Advance(w))
  }

  lemma {:induction false} ExecConcat(sys: Workers.Sys, a: seq<Workers.Move>, b: seq<Workers.Move>)
    ensures Workers.Exec(sys, a + b) == Workers.Exec(Workers.Exec(sys, a), b)
  {
    if |b| == 0 {
      assert a + b == a;
    } else {
      assert (a + b)[..|a + b| - 1] == a + b[..|b| - 1];
      ExecConcat(sys, a, b[..|b| - 1]);
    }
  }

  lemma ExecOne(sys: Workers.Sys, m: Workers.Move)
    ensures Workers.Exec(sys, [m]) == Workers.Next(sys, m)
  {
    assert [m][..0] == [];
  }

  lemma {:induction false} ExecAdvances(sys: Workers.Sys, w: nat, n: nat)
    requires w < |sys.workers|
    ensures Workers.Exec(sys, Advances(w, n)) == Solo(sys, w, n)
  {
    if n > 0 {
      assert Advances(w, n)[..n - 1] == Advances(w, n - 1);
      ExecAdvances(sys, w, n - 1);
    }
  }

  /** One sale by one worker, the others idle, its failure noted or not. */
  lemma SaleIsInterleaved(sys: Workers.Sys, w: nat, p: Payload, written: bool) returns (moves: seq<Workers.Move>)
    requires Workers.Start(sys) && w < |sys.workers| && !Stored(sys.db.txs, p.device, p.uuid)
    ensures Workers.Start(Workers.Exec(sys, moves)) && |Workers.Exec(sys, moves).workers| == |sys.workers|
    ensures Workers.Exec(sys, moves).db == if written then HandleOne(sys.db, p) else Apply(sys.db, Sync(p))
  {
    var picked := Workers.Next(sys, Workers.Pick(w, p));
    Workers.NextKeeps(sys, Workers.Pick(w, p));
    var n := AloneEnds(picked, w);
    var ended := Solo(picked, w, n);
    moves := [Workers.Pick(w, p)] + Advances(w, n);
    ExecConcat(sys, [Workers.Pick(w, p)], Advances(w, n));
    ExecOne(sys, Workers.Pick(w, p));
    ExecAdvances(picked, w, n);
    if ended.workers[w].Failing? {
      ExecConcat(sys, moves, [Workers.Note(w, written)]);
      ExecOne(ended, Workers.Note(w, written));
      moves := moves + [Workers.Note(w, written)];
    }
  }

  /** Nobody at work, nothing is blocked but what only workers do. */
  lemma IdleBlocksNothing(sys: Workers.Sys, s: Step)
    requires Workers.Start(sys)
    ensures Workers.Blocked(sys, s) <==> s.Sync?
  {
  }

  ghost predicate LockedByAny(sys: Workers.Sys, q: ProductId)
  {
    exists v | 0 <= v < |sys.workers| :: Workers.Holds(sys.db, sys.workers[v], q)
  }

  ghost predicate AnyLineLocked(sys: Workers.Sys, items: seq<Item>)
  {
    exists i | 0 <= i < |items| :: LockedByAny(sys, items[i].product)
  }

  lemma HeldIsAnItem(sys: Workers.Sys, v: nat, q: ProductId)
    requires v < |sys.workers| && Workers.Holds(sys.db, sys.workers[v], q)
    ensures exists i | 0 <= i < |Workers.ItemsOf(sys.workers[v])| :: Workers.ItemsOf(sys.workers[v])[i].product == q
  {
    var i :| 0 <= i < |sys.workers[v].p.items| && i < Workers.LocksAsked(sys.workers[v]) && sys.workers[v].p.items[i].product == q;
    assert Workers.ItemsOf(sys.workers[v])[i].product == q;
  }

  lemma BlockedByWrite(sys: Workers.Sys, s: Step)
    requires !s.Sync? && !s.AddProduct?
    ensures Workers.Blocked(sys, s) <==> exists q: ProductId :: LockedByAny(sys, q) && Workers.Writes(sys.db, s, q)
  {
    if q: ProductId :| LockedByAny(sys, q) && Workers.Writes(sys.db, s, q) {
      var v :| 0 <= v < |sys.workers| && Workers.Holds(sys.db, sys.workers[v], q);
      HeldIsAnItem(sys, v, q);
    }
  }

  /** Manual changes of a product wait exactly for its row lock. */
  lemma ProductWriteBlockedIff(sys: Workers.Sys, id: ProductId, quantity: int, isActive: bool)
    ensures Workers.Blocked(sys, Adjust(id, quantity)) <==> LockedByAny(sys, id)
    ensures Workers.Blocked(sys, Activate(id, isActive)) <==> LockedByAny(sys, id)
  {
    BlockedByWrite(sys, Adjust(id, quantity));
    BlockedByWrite(sys, Activate(id, isActive));
    assert LockedByAny(sys, id) ==> Workers.Writes(sys.db, Adjust(id, quantity), id) && Workers.Writes(sys.db, Activate(id, isActive), id);
  }

  /** A product is not created only while a sale in flight names its identifier. */
  lemma CreationBlockedIff(sys: Workers.Sys, id: ProductId, isActive: bool)
    ensures Workers.Blocked(sys, AddProduct(id, isActive)) <==>
              exists v | 0 <= v < |sys.workers| :: Workers.Names(sys.workers[v], id)
  {
    if v :| 0 <= v < |sys.workers| && Workers.Names(sys.workers[v], id) {
      var i :| 0 <= i < |sys.workers[v].p.items| && sys.workers[v].p.items[i].product == id;
      assert Workers.ItemsOf(sys.workers[v])[i].product == id;
    }
  }

  /** Confirming and correcting a sale wait exactly for the locks on its rows, and on those of its replacement. */
  lemma SaleWriteBlockedIff(sys: Workers.Sys, key: Key, dto: CorrectDto)
    ensures Workers.Blocked(sys, Resolve(key, CONFIRM)) <==>
              FindOne(sys.db.txs, key).Some? && AnyLineLocked(sys, sys.db.txs[FindOne(sys.db.txs, key).value].items)
    ensures Workers.Blocked(sys, Correct(key, dto)) <==>
              FindOne(sys.db.txs, key).Some? &&
              (AnyLineLocked(sys, sys.db.txs[FindOne(sys.db.txs, key).value].items) || AnyLineLocked(sys, dto.items))
  {
    BlockedByWrite(sys, Resolve(key, CONFIRM));
    BlockedByWrite(sys, Correct(key, dto));
    if FindOne(sys.db.txs, key).Some? {
      LineLockedIff(sys, sys.db.txs[FindOne(sys.db.txs, key).value].items);
      LineLockedIff(sys, dto.items);
    }
  }

  lemma LineLockedIff(sys: Workers.Sys, items: seq<Item>)
    ensures AnyLineLocked(sys, items) <==> exists q: ProductId :: LockedByAny(sys, q) && Workers.Lists(items, q)
  {
    if AnyLineLocked(sys, items) {
      var i :| 0 <= i < |items| && LockedByAny(sys, items[i].product);
      assert Workers.Lists(items, items[i].product);
    }
  }

  /** What writes neither stock nor catalogue is never blocked, whoever is at work. */
  lemma LocksBlockWritersOnly(sys: Workers.Sys, s: Step)
    requires s.Void? || s.OpenByTransaction? || s.OpenByPayment? || s.Close? || s.AddDevice? || s.NoteFailure? || s.NoteTerminal? ||
             (s.Resolve? && s.action == VOID)
    ensures !Workers.Blocked(sys, s)
  {
  }

  /**
   The other half of the refinement: every run of atomic steps is some interleaving of small
   steps, already with a single worker.
   */
  lemma {:induction false} RunsAreInterleavings(sys: Workers.Sys, steps: seq<Step>) returns (moves: seq<Workers.Move>)
    requires Workers.Start(sys) && |sys.workers| > 0
    ensures Workers.Exec(sys, moves).db == Run(sys.db, steps)
    ensures Workers.Start(Workers.Exec(sys, moves)) && |Workers.Exec(sys, moves).workers| == |sys.workers|
  {
    if |steps| == 0 {
      moves := [];
    } else {
      var before := RunsAreInterleavings(sys, steps[..|steps| - 1]);
      var mid, s := Workers.Exec(sys, before), steps[|steps| - 1];
      var last := StepIsInterleaved(mid, s);
      moves := before + last;
      ExecConcat(sys, before, last);
    }
  }

  lemma StepIsInterleaved(sys: Workers.Sys, s: Step) returns (moves: seq<Workers.Move>)
    requires Workers.Start(sys) && |sys.workers| > 0
    ensures Workers.Exec(sys, moves).db == Apply(sys.db, s)
    ensures Workers.Start(Workers.Exec(sys, moves)) && |Workers.Exec(sys, moves).workers| == |sys.workers|
  {
    if s.Sync? {
      if Stored(sys.db.txs, s.p.device, s.p.uuid) {
        moves := [];
      } else {
        moves := SaleIsInterleaved(sys, 0, s.p, false);
      }
    } else {
      moves := [Workers.Owner(s)];
      IdleBlocksNothing(sys, s);
      ExecOne(sys, Workers.Owner(s));
      Workers.OwnerKeepsCatalog(sys.db, s);
    }
  }

  // ---- The network ----

  /** The message carries these sales, at whatever attempts. */
  ghost predicate Carries(msg: Delivery.Message, batch: seq<Payload>)
  {
    |msg| == |batch| && forall k | 0 <= k < |batch| :: NoLoss.IsSale(msg[k], batch[k])
  }

  lemma NetExtends(net: Delivery.Net, run: seq<Delivery.Move>, m: Delivery.Move)
    requires Delivery.IsRun(net, run) && Delivery.Enabled(Delivery.Exec(net, run), m)
    ensures Delivery.IsRun(net, run + [m]) && Delivery.Exec(net, run + [m]) == Delivery.Next(Delivery.Exec(net, run), m)
  {
    assert (run + [m])[..|run|] == run;
  }

  /** Some run leads from one state to the other. */
  ghost predicate Leads(net: Delivery.Net, net': Delivery.Net)
  {
    exists run :: Delivery.IsRun(net, run) && Delivery.Exec(net, run) == net'
  }

  lemma LeadsOn(net: Delivery.Net, mid: Delivery.Net, m: Delivery.Move)
    requires Leads(net, mid) && Delivery.Enabled(mid, m)
    ensures Leads(net, Delivery.Next(mid, m))
  {
    var run :| Delivery.IsRun(net, run) && Delivery.Exec(net, run) == mid;
    NetExtends(net, run, m);
  }

  lemma LeadsNowhere(net: Delivery.Net)
    ensures Leads(net, net)
  {
    assert Delivery.IsRun(net, []) && Delivery.Exec(net, []) == net;
  }

  /** The state in which a worker has handled `k` sales of message `i`. */
  ghost function At(net: Delivery.Net, i: nat, k: nat, db: Db): Delivery.Net
    requires i < |net.msgs|
  {
    Delivery.Relocate(net, i, Delivery.AtWorker(k)).(db := db)
  }

  /** Delivered and worked on `k` times, the network holds what the batch handler leaves of `k` sales. */
  lemma {:induction false} WorkIsBatch(start: Delivery.Net, net: Delivery.Net, i: nat, batch: seq<Payload>, k: nat)
    requires Leads(start, net) && Delivery.Enabled(net, Delivery.Deliver(i)) && Carries(net.msgs[i].msg, batch) && k <= |batch|
    ensures Leads(start, At(net, i, k, HandleBatch(net.db, batch[..k])))
  {
    if k == 0 {
      LeadsOn(start, net, Delivery.Deliver(i));
      assert At(net, i, 0, HandleBatch(net.db, batch[..0])) == Delivery.Next(net, Delivery.Deliver(i));
    } else {
      WorkIsBatch(start, net, i, batch, k - 1);
      var mid := At(net, i, k - 1, HandleBatch(net.db, batch[..k - 1]));
      assert batch[..k][..k - 1] == batch[..k - 1];
      assert NoLoss.IsSale(net.msgs[i].msg[k - 1], batch[k - 1]);
      assert mid.msgs[i] == net.msgs[i].(place := Delivery.AtWorker(k - 1));
      LeadsOn(start, mid, Delivery.Work(i, None));
      assert Delivery.Next(mid, Delivery.Work(i, None)) == At(net, i, k, HandleBatch(net.db, batch[..k]));
    }
  }

  /** A batch in the main queue can be delivered, handled and acknowledged, with the effect of the batch handler. */
  lemma DeliveryIsBatch(start: Delivery.Net, net: Delivery.Net, i: nat, batch: seq<Payload>)
    requires Leads(start, net) && Delivery.Enabled(net, Delivery.Deliver(i)) && Carries(net.msgs[i].msg, batch)
    ensures Leads(start, net.(db := HandleBatch(net.db, batch), msgs := Delivery.Remove(net.msgs, i)))
  {
    WorkIsBatch(start, net, i, batch, |batch|);
    assert batch[..|batch|] == batch;
    var done := At(net, i, |batch|, HandleBatch(net.db, batch));
    assert done.msgs[i] == net.msgs[i].(place := Delivery.AtWorker(|batch|));
    LeadsOn(start, done, Delivery.Ack(i));
    assert Delivery.Remove(done.msgs, i) == Delivery.Remove(net.msgs, i);
  }

  /** The worker may die after any `k` sales; the batch is delivered again and ends with the same sales. */
  lemma CrashedDeliveryIsRepeated(net: Delivery.Net, i: nat, batch: seq<Payload>, k: nat) returns (db: Db)
    requires Delivery.Enabled(net, Delivery.Deliver(i)) && Carries(net.msgs[i].msg, batch) && k <= |batch|
    ensures Leads(net, net.(db := HandleBatch(net.db, batch[..k])))
    ensures Leads(net, net.(db := db, msgs := Delivery.Remove(net.msgs, i)))
    ensures db == HandleBatch(HandleBatch(net.db, batch[..k]), batch) && SameSales(db, HandleBatch(net.db, batch))
  {
    LeadsNowhere(net);
    WorkIsBatch(net, net, i, batch, k);
    var mid := At(net, i, k, HandleBatch(net.db, batch[..k]));
    LeadsOn(net, mid, Delivery.Crash(i));
    var again := net.(db := HandleBatch(net.db, batch[..k]));
    assert Delivery.Next(mid, Delivery.Crash(i)).msgs == net.msgs;
    assert Delivery.Next(mid, Delivery.Crash(i)) == again;
    DeliveryIsBatch(net, again, i, batch);
    db := HandleBatch(again.db, batch);
    RedeliveryAfterCrash(net.db, batch, k);
  }

  /** A sale in a delay queue comes back to the workers and is handled like any other. */
  lemma RetryIsHandled(net: Delivery.Net, i: nat, p: Payload)
    requires i < |net.msgs| && Delivery.IsRetry(net.msgs[i].place) && Carries(net.msgs[i].msg, [p])
    ensures Leads(net, net.(db := HandleBatch(net.db, [p]), msgs := Delivery.Remove(net.msgs, i)))
  {
    LeadsNowhere(net);
    LeadsOn(net, net, Delivery.Expire(i));
    var back := Delivery.Next(net, Delivery.Expire(i));
    DeliveryIsBatch(net, back, i, [p]);
    assert Delivery.Remove(back.msgs, i) == Delivery.Remove(net.msgs, i);
  }

  /**
   A worker may refuse what it was given: a sale with retries left then lies in the delay queue of
   its next attempt and nowhere else, the database as it was.
   */
  lemma RefusalRequeues(net: Delivery.Net, i: nat, p: Payload, attempt: nat)
    requires Delivery.Enabled(net, Delivery.Deliver(i)) && net.msgs[i].msg == [Delivery.Entry(p, attempt)] && attempt < 3
    ensures
      var queue := if attempt == 0 then Delivery.Retry5s else if attempt == 1 then Delivery.Retry30s else Delivery.Retry120s;
      Leads(net, Delivery.Net(net.db, Delivery.Remove(net.msgs, i) + [Delivery.Parked(queue, [Delivery.Entry(p, attempt + 1)])],
                              net.log + [Delivery.Event(p, Delivery.Sent(queue))]))
  {
    LeadsNowhere(net);
    LeadsOn(net, net, Delivery.Deliver(i));
    var taken := Delivery.Next(net, Delivery.Deliver(i));
    LeadsOn(net, taken, Delivery.Reject(i));
    var dead := Delivery.Next(taken, Delivery.Reject(i));
    LeadsOn(net, dead, Delivery.Dead(i, []));
    var rest := dead.(msgs := Delivery.Remove(dead.msgs, i));
    assert dead.msgs[i].msg == [Delivery.Entry(p, attempt)];
    DispatchSingle(rest, Delivery.Entry(p, attempt));
    assert Delivery.Next(dead, Delivery.Dead(i, [])) == Delivery.Dispatch(rest, Delivery.Entry(p, attempt), true);
    assert rest.msgs == Delivery.Remove(net.msgs, i);
  }

  lemma DispatchSingle(net: Delivery.Net, e: Delivery.Entry)
    ensures Delivery.DispatchAll(net, [e], []) == Delivery.Dispatch(net, e, true)
  {
    var msg := [e];
    assert msg[..|msg| - 1] == [];
    assert Delivery.Up([], 0);
  }

  /** Every run of the database is one of the network that leaves the messages alone. */
  lemma {:induction false} NetworkAllowsRuns(net: Delivery.Net, steps: seq<Step>)
    ensures Leads(net, net.(db := Run(net.db, steps)))
  {
    if |steps| == 0 {
      LeadsNowhere(net);
    } else {
      NetworkAllowsRuns(net, steps[..|steps| - 1]);
      LeadsOn(net, net.(db := Run(net.db, steps[..|steps| - 1])), Delivery.Elsewhere(steps[|steps| - 1]));
    }
  }

  // ---- The whole system ----

  /** Some run of the whole system leads from one state to the other. */
  ghost predicate Reaches(sys: InFlight.System, sys': InFlight.System)
  {
    exists moves :: InFlight.IsRun(sys, moves) && InFlight.Exec(sys, moves) == sys'
  }

  lemma ReachesItself(sys: InFlight.System)
    ensures Reaches(sys, sys)
  {
    assert InFlight.IsRun(sys, []) && InFlight.Exec(sys, []) == sys;
  }

  lemma ReachesOn(sys: InFlight.System, mid: InFlight.System, m: InFlight.Move)
    requires Reaches(sys, mid) && InFlight.Enabled(mid, m)
    ensures Reaches(sys, InFlight.Next(mid, m))
  {
    var moves :| InFlight.IsRun(sys, moves) && InFlight.Exec(sys, moves) == mid;
    assert (moves + [m])[..|moves|] == moves;
    assert InFlight.IsRun(sys, moves + [m]) && InFlight.Exec(sys, moves + [m]) == InFlight.Next(mid, m);
  }

  ghost predicate AllIdle(phases: seq<Workers.Phase>)
  {
    forall j | 0 <= j < |phases| :: phases[j].Idle?
  }

  ghost predicate OthersIdle(phases: seq<Workers.Phase>, i: nat)
  {
    forall j | 0 <= j < |phases| && j != i :: phases[j].Idle?
  }

  /** The system after message `i` has got past a sale that left this database. */
  ghost function PastSale(sys: InFlight.System, i: nat, db: Db): InFlight.System
    requires i < |sys.net.msgs| == |sys.phases| && sys.net.msgs[i].place.AtWorker?
  {
    InFlight.System(InFlight.Past(sys.net, i).(db := db), sys.phases[i := Workers.Idle])
  }

  /** A worker in the midst of a sale, the others idle, gets past it with the effect of handling it in one go. */
  lemma {:induction false} SaleFinishes(start: InFlight.System, sys: InFlight.System, i: nat)
    requires Reaches(start, sys) && InFlight.SystemInv(sys) && InFlight.Busy(sys, i) && OthersIdle(sys.phases, i)
    requires !Stored(sys.net.db.txs, sys.phases[i].p.device, sys.phases[i].p.uuid)
    requires sys.phases[i].Failing? ==> ProcessTransaction(sys.net.db, sys.phases[i].p) == Failure(sys.phases[i].error)
    ensures Reaches(start, PastSale(sys, i, HandleOne(sys.net.db, sys.phases[i].p)))
    decreases StepsLeft(sys.phases[i])
  {
    if sys.phases[i].Failing? {
      ReachesOn(start, sys, InFlight.Note(i));
      assert InFlight.Next(sys, InFlight.Note(i)) == PastSale(sys, i, HandleOne(sys.net.db, sys.phases[i].p));
    } else {
      var db := InFlight.Database(sys);
      LoneStep(db, i);
      StepKeepsBound(db, i);
      var after := Workers.Progress(db, i);
      InFlight.AdvanceCommitsOrNot(db, i);
      ReachesOn(start, sys, InFlight.Advance(i));
      InFlight.NextIsDelivery(sys, InFlight.Advance(i));
      if after.workers[i].Idle? {
        assert after.workers == sys.phases[i := Workers.Idle];
      } else {
        var next := InFlight.Next(sys, InFlight.Advance(i));
        assert next == sys.(phases := after.workers);
        SaleFinishes(start, next, i);
        assert next.phases[i := Workers.Idle] == sys.phases[i := Workers.Idle];
      }
    }
  }

  lemma StepKeepsBound(sys: Workers.Sys, w: nat)
    requires Workers.SysInv(sys) && Alone(sys, w) && Working(sys.workers[w])
    ensures 0 <= StepsLeft(Workers.Progress(sys, w).workers[w]) < StepsLeft(sys.workers[w])
  {
    LoneStep(sys, w);
    AdvanceOrWait(sys, w);
    assert Workers.PhaseOk(sys.db, sys.workers[w]);
    StepsLeftBounds(Workers.Progress(sys, w).db, Workers.Progress(sys, w).workers[w]);
  }

  /** What handling the first `k` elements of a message leaves. */
  ghost function WorkedOff(db: Db, msg: Delivery.Message, k: nat): Db
    requires k <= |msg|
  {
    if k == 0 then db else Delivery.WorkOne(WorkedOff(db, msg, k - 1), msg[k - 1], None)
  }

  ghost function NextElement(sys: InFlight.System, i: nat): Delivery.Entry
    requires Delivery.Enabled(sys.net, Delivery.Work(i, None))
  {
    sys.net.msgs[i].msg[sys.net.msgs[i].place.done]
  }

  /** An unusable element, or a sale already stored, is passed over. */
  lemma PassedOver(sys: InFlight.System, i: nat)
    requires InFlight.Enabled(sys, InFlight.Begin(i))
    requires
      var e := NextElement(sys, i);
      e.Garbage? || Stored(sys.net.db.txs, e.p.device, e.p.uuid)
    ensures InFlight.Next(sys, InFlight.Begin(i)) == sys.(net := Delivery.Next(sys.net, Delivery.Work(i, None)))
  {
  }

  lemma PickedUp(sys: InFlight.System, i: nat)
    requires InFlight.Enabled(sys, InFlight.Begin(i))
    requires
      var e := NextElement(sys, i);
      e.Entry? && !Stored(sys.net.db.txs, e.p.device, e.p.uuid)
    ensures InFlight.Next(sys, InFlight.Begin(i)) == sys.(phases := sys.phases[i := Workers.Picked(NextElement(sys, i).p)])
  {
  }

  lemma PickedFinishes(start: InFlight.System, sys: InFlight.System, i: nat)
    requires InFlight.SystemInv(sys) && AllIdle(sys.phases) && Delivery.Enabled(sys.net, Delivery.Work(i, None))
    requires
      var e := NextElement(sys, i);
      e.Entry? && !Stored(sys.net.db.txs, e.p.device, e.p.uuid)
    requires
      var begun := sys.(phases := sys.phases[i := Workers.Picked(NextElement(sys, i).p)]);
      Reaches(start, begun) && InFlight.SystemInv(begun)
    ensures Reaches(start, sys.(net := Delivery.Next(sys.net, Delivery.Work(i, None))))
  {
    var p := NextElement(sys, i).p;
    var begun := sys.(phases := sys.phases[i := Workers.Picked(p)]);
    SaleFinishes(start, begun, i);
    assert begun.phases[i := Workers.Idle] == sys.phases;
    assert PastSale(begun, i, HandleOne(sys.net.db, p)) == sys.(net := Delivery.Next(sys.net, Delivery.Work(i, None)));
  }

  /** The next element of a message, from lookup to commit or note. */
  lemma ElementFinishes(start: InFlight.System, sys: InFlight.System, i: nat)
    requires Reaches(start, sys) && InFlight.SystemInv(sys) && AllIdle(sys.phases)
    requires Delivery.Enabled(sys.net, Delivery.Work(i, None))
    ensures Reaches(start, sys.(net := Delivery.Next(sys.net, Delivery.Work(i, None))))
    ensures InFlight.SystemInv(sys.(net := Delivery.Next(sys.net, Delivery.Work(i, None))))
  {
    var e := NextElement(sys, i);
    ReachesOn(start, sys, InFlight.Begin(i));
    if e.Garbage? || Stored(sys.net.db.txs, e.p.device, e.p.uuid) {
      PassedOver(sys, i);
    } else {
      InFlight.NextIsDelivery(sys, InFlight.Begin(i));
      PickedUp(sys, i);
      PickedFinishes(start, sys, i);
    }
    WorkKeepsCatalog(sys.net, i);
    StaysIdle(sys, sys.(net := Delivery.Next(sys.net, Delivery.Work(i, None))));
  }

  lemma WorkKeepsCatalog(net: Delivery.Net, i: nat)
    requires Delivery.Enabled(net, Delivery.Work(i, None)) && CatalogInv(net.db.active, net.db.stock)
    ensures CatalogInv(Delivery.Next(net, Delivery.Work(i, None)).db.active, Delivery.Next(net, Delivery.Work(i, None)).db.stock)
    ensures |Delivery.Next(net, Delivery.Work(i, None)).msgs| == |net.msgs|
  {
  }

  /** The state in which `k` elements of message `i` have been worked off and nobody is at work. */
  ghost function WorkedTo(sys: InFlight.System, i: nat, k: nat): InFlight.System
    requires i < |sys.net.msgs| && k <= |sys.net.msgs[i].msg|
  {
    sys.(net := At(sys.net, i, k, WorkedOff(sys.net.db, sys.net.msgs[i].msg, k)))
  }

  lemma WorkedOneMore(sys: InFlight.System, i: nat, k: nat)
    requires i < |sys.net.msgs| && k < |sys.net.msgs[i].msg|
    ensures Delivery.Enabled(WorkedTo(sys, i, k).net, Delivery.Work(i, None))
    ensures WorkedTo(sys, i, k).(net := Delivery.Next(WorkedTo(sys, i, k).net, Delivery.Work(i, None))) == WorkedTo(sys, i, k + 1)
  {
    var x := sys.net.msgs[i];
    assert WorkedTo(sys, i, k).net.msgs[i] == x.(place := Delivery.AtWorker(k));
    assert WorkedTo(sys, i, k).net.msgs[i := x.(place := Delivery.AtWorker(k + 1))] == WorkedTo(sys, i, k + 1).net.msgs;
  }

  lemma DeliveryStarts(start: InFlight.System, sys: InFlight.System, i: nat)
    requires Reaches(start, sys) && InFlight.SystemInv(sys)
    requires Delivery.Enabled(sys.net, Delivery.Deliver(i))
    ensures Reaches(start, WorkedTo(sys, i, 0)) && InFlight.SystemInv(WorkedTo(sys, i, 0))
  {
    ReachesOn(start, sys, InFlight.Broker(Delivery.Deliver(i)));
    InFlight.NextIsDelivery(sys, InFlight.Broker(Delivery.Deliver(i)));
    assert InFlight.Next(sys, InFlight.Broker(Delivery.Deliver(i))) == WorkedTo(sys, i, 0);
  }

  ghost predicate GotTo(start: InFlight.System, sys: InFlight.System)
  {
    Reaches(start, sys) && InFlight.SystemInv(sys) && AllIdle(sys.phases)
  }

  lemma ElementsStep(start: InFlight.System, sys: InFlight.System, i: nat, k: nat)
    requires i < |sys.net.msgs| && k < |sys.net.msgs[i].msg|
    requires GotTo(start, WorkedTo(sys, i, k))
    ensures GotTo(start, WorkedTo(sys, i, k + 1))
  {
    WorkedOneMore(sys, i, k);
    ElementFinishes(start, WorkedTo(sys, i, k), i);
  }

  lemma {:induction false} ElementsFinish(start: InFlight.System, sys: InFlight.System, i: nat, k: nat)
    requires GotTo(start, sys)
    requires Delivery.Enabled(sys.net, Delivery.Deliver(i)) && k <= |sys.net.msgs[i].msg|
    ensures GotTo(start, WorkedTo(sys, i, k))
  {
    if k == 0 {
      DeliveryStarts(start, sys, i);
    } else {
      ElementsFinish(start, sys, i, k - 1);
      ElementsStep(start, sys, i, k - 1);
    }
  }

  lemma StaysIdle(mid: InFlight.System, now: InFlight.System)
    requires InFlight.SystemInv(mid) && AllIdle(mid.phases) && now.phases == mid.phases
    requires |now.net.msgs| == |mid.net.msgs| && now.net.db.active.Keys == now.net.db.stock.Keys
    ensures InFlight.SystemInv(now)
  {
  }

  /**
   A message of any content in the main queue, its worker left alone, goes all the way: delivered,
   worked off element by element in small steps, and acknowledged.
   */
  lemma MessageIsAcknowledged(sys: InFlight.System, i: nat)
    requires InFlight.SystemInv(sys) && AllIdle(sys.phases) && Delivery.Enabled(sys.net, Delivery.Deliver(i))
    ensures
      var msg := sys.net.msgs[i].msg;
      Reaches(sys, InFlight.System(
        sys.net.(db := WorkedOff(sys.net.db, msg, |msg|), msgs := Delivery.Remove(sys.net.msgs, i)), InFlight.Drop(sys.phases, i)))
  {
    var msg := sys.net.msgs[i].msg;
    ReachesItself(sys);
    ElementsFinish(sys, sys, i, |msg|);
    var done := WorkedTo(sys, i, |msg|);
    assert done.net.msgs[i] == sys.net.msgs[i].(place := Delivery.AtWorker(|msg|));
    ReachesOn(sys, done, InFlight.Broker(Delivery.Ack(i)));
    assert Delivery.Remove(done.net.msgs, i) == Delivery.Remove(sys.net.msgs, i);
  }

  lemma {:induction false} WorkedOffIsBatch(db: Db, msg: Delivery.Message, batch: seq<Payload>, k: nat)
    requires Carries(msg, batch) && k <= |batch|
    ensures WorkedOff(db, msg, k) == HandleBatch(db, batch[..k])
  {
    if k > 0 {
      WorkedOffIsBatch(db, msg, batch, k - 1);
      assert batch[..k][..k - 1] == batch[..k - 1];
      assert NoLoss.IsSale(msg[k - 1], batch[k - 1]);
    }
  }

  /** For a batch of sales, with the effect of the batch handler on the database. */
  lemma BatchIsAcknowledged(sys: InFlight.System, i: nat, batch: seq<Payload>)
    requires InFlight.SystemInv(sys) && AllIdle(sys.phases) && Delivery.Enabled(sys.net, Delivery.Deliver(i))
    requires Carries(sys.net.msgs[i].msg, batch)
    ensures Reaches(sys, InFlight.System(
              sys.net.(db := HandleBatch(sys.net.db, batch), msgs := Delivery.Remove(sys.net.msgs, i)), InFlight.Drop(sys.phases, i)))
  {
    MessageIsAcknowledged(sys, i);
    WorkedOffIsBatch(sys.net.db, sys.net.msgs[i].msg, batch, |batch|);
    assert batch[..|batch|] == batch;
  }

  // ---- Runs of the network are runs of the system ----

  /** Moves of the network as they come about: no sale handled outside a worker, no note but an abort's ahead of its time. */
  ghost predicate Genuine(net: Delivery.Net, d: Delivery.Move)
    requires Delivery.Enabled(net, d)
  {
    match d
    case Elsewhere(s) => !s.Sync?
    case Work(i, failed) =>
      failed.Some? ==>
        var e := net.msgs[i].msg[net.msgs[i].place.done];
        failed.value == SyncUnknownError && e.Entry? && !Stored(net.db.txs, e.p.device, e.p.uuid)
    case _ => true
  }

  /** The phase of message `i` alone is changed. */
  ghost function WithPhase(sys: InFlight.System, i: nat, phase: Workers.Phase): InFlight.System
    requires i < |sys.phases|
  {
    sys.(phases := sys.phases[i := phase])
  }

  lemma AbortedPhase(sys: InFlight.System, i: nat, p: Payload)
    requires i < |sys.phases| && InFlight.Enabled(WithPhase(sys, i, Workers.Picked(p)), InFlight.Abort(i))
    ensures InFlight.Next(WithPhase(sys, i, Workers.Picked(p)), InFlight.Abort(i)) ==
              WithPhase(sys, i, Workers.Failing(p, InfrastructureAbort))
  {
    var picked := WithPhase(sys, i, Workers.Picked(p));
    AbortLetsGo(InFlight.Database(picked), i);
    assert picked.phases[i := Workers.Failing(p, InfrastructureAbort)] ==
           WithPhase(sys, i, Workers.Failing(p, InfrastructureAbort)).phases;
  }

  lemma NotedPhase(sys: InFlight.System, i: nat)
    requires Delivery.Enabled(sys.net, Delivery.Work(i, None)) && NextElement(sys, i).Entry?
    requires i < |sys.phases| && sys.phases[i].Idle?
    requires InFlight.Enabled(WithPhase(sys, i, Workers.Failing(NextElement(sys, i).p, InfrastructureAbort)), InFlight.Note(i))
    ensures InFlight.Next(WithPhase(sys, i, Workers.Failing(NextElement(sys, i).p, InfrastructureAbort)), InFlight.Note(i)) ==
              sys.(net := Delivery.Next(sys.net, Delivery.Work(i, Some(SyncUnknownError))))
  {
    var failing := WithPhase(sys, i, Workers.Failing(NextElement(sys, i).p, InfrastructureAbort));
    assert failing.phases[i := Workers.Idle] == sys.phases;
  }

  lemma AbortedElement(start: InFlight.System, sys: InFlight.System, i: nat)
    requires Reaches(start, sys) && InFlight.SystemInv(sys) && AllIdle(sys.phases)
    requires Delivery.Enabled(sys.net, Delivery.Work(i, Some(SyncUnknownError)))
    requires Genuine(sys.net, Delivery.Work(i, Some(SyncUnknownError)))
    ensures Reaches(start, sys.(net := Delivery.Next(sys.net, Delivery.Work(i, Some(SyncUnknownError)))))
  {
    var p := NextElement(sys, i).p;
    ReachesOn(start, sys, InFlight.Begin(i));
    PickedUp(sys, i);
    AbortedPhase(sys, i, p);
    ReachesOn(start, WithPhase(sys, i, Workers.Picked(p)), InFlight.Abort(i));
    NotedPhase(sys, i);
    ReachesOn(start, WithPhase(sys, i, Workers.Failing(p, InfrastructureAbort)), InFlight.Note(i));
  }

  lemma BrokerMoveIsReal(start: InFlight.System, sys: InFlight.System, d: Delivery.Move)
    requires Reaches(start, sys) && InFlight.SystemInv(sys) && AllIdle(sys.phases)
    requires Delivery.Enabled(sys.net, d) && Genuine(sys.net, d) && !d.Work?
    ensures InFlight.Enabled(sys, InFlight.Broker(d))
    ensures Reaches(start, InFlight.Next(sys, InFlight.Broker(d))) && AllIdle(InFlight.Next(sys, InFlight.Broker(d)).phases)
  {
    if d.Elsewhere? {
      IdleBlocksNothing(InFlight.Database(sys), d.s);
    }
    ReachesOn(start, sys, InFlight.Broker(d));
  }

  lemma MoveIsReal(start: InFlight.System, sys: InFlight.System, d: Delivery.Move) returns (sys': InFlight.System)
    requires Reaches(start, sys) && InFlight.SystemInv(sys) && AllIdle(sys.phases)
    requires Delivery.Enabled(sys.net, d) && Genuine(sys.net, d)
    ensures Reaches(start, sys') && AllIdle(sys'.phases) && sys'.net == Delivery.Next(sys.net, d)
  {
    if d.Work? {
      sys' := sys.(net := Delivery.Next(sys.net, d));
      if d.failed == None {
        ElementFinishes(start, sys, d.i);
      } else {
        AbortedElement(start, sys, d.i);
      }
    } else {
      BrokerMoveIsReal(start, sys, d);
      sys' := InFlight.Next(sys, InFlight.Broker(d));
    }
  }

  ghost predicate AllGenuine(net: Delivery.Net, run: seq<Delivery.Move>)
    requires Delivery.IsRun(net, run)
  {
    |run| == 0 ||
    (AllGenuine(net, run[..|run| - 1]) && Genuine(Delivery.Exec(net, run[..|run| - 1]), run[|run| - 1]))
  }

  /**
   The other half of the refinement: every genuine run of the one-step network comes about in the
   whole system, with the same database and messages.
   */
  lemma {:induction false} NetworkRunsAreReal(sys: InFlight.System, run: seq<Delivery.Move>) returns (sys': InFlight.System)
    requires InFlight.SystemInv(sys) && AllIdle(sys.phases)
    requires Delivery.IsRun(sys.net, run) && AllGenuine(sys.net, run)
    ensures Reaches(sys, sys') && AllIdle(sys'.phases) && sys'.net == Delivery.Exec(sys.net, run)
  {
    if |run| == 0 {
      ReachesItself(sys);
      sys' := sys;
    } else {
      var mid := NetworkRunsAreReal(sys, run[..|run| - 1]);
      ReachedKeeps(sys, mid);
      sys' := MoveIsReal(sys, mid, run[|run| - 1]);
    }
  }

  lemma ReachedKeeps(sys: InFlight.System, sys': InFlight.System)
    requires InFlight.SystemInv(sys) && Reaches(sys, sys')
    ensures InFlight.SystemInv(sys')
  {
    var moves :| InFlight.IsRun(sys, moves) && InFlight.Exec(sys, moves) == sys';
    InFlight.RunIsDelivery(sys, moves);
  }
}
