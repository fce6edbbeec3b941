/**
 Broker and workers as one system. Every message a worker holds has a phase of its own, so a sale
 is locked, checked, inserted, deducted and committed line by line while messages are delivered,
 dead-lettered and redelivered around it, owners operate, and workers crash with a transaction
 open. `Workers` knows no broker and `Delivery` handles a sale in one step; here every run of the
 whole is shown to be a run of `Delivery`, so what is proved of the network holds of it.
 */
module InFlight {
  import opened Schema
  import opened Operations
  import opened Invariants
  import Workers
  import Delivery
  import NoLoss

  type Net = Delivery.Net
  type Phase = Workers.Phase

  /** A phase for each message; it is idle unless a worker is in the midst of one of its sales. */
  datatype System = System(net: Net, phases: seq<Phase>)

  function Database(sys: System): Workers.Sys
  {
    Workers.Sys(sys.net.db, sys.phases)
  }

  datatype Move =
    | Broker(m: Delivery.Move)  // anything but the handling of a sale
    | Begin(i: nat)             // the idempotency lookup for the next sale of a message
    | Advance(i: nat)           // the next small step of its transaction
    | Abort(i: nat)             // the infrastructure fails
    | Note(i: nat)              // the failure is recorded

  predicate Busy(sys: System, i: nat)
  {
    i < |sys.phases| && i < |sys.net.msgs| && !sys.phases[i].Idle? && sys.net.msgs[i].place.AtWorker?
  }

  predicate Enabled(sys: System, m: Move)
  {
    |sys.phases| == |sys.net.msgs| &&
    match m
    case Broker(d) => Delivery.Enabled(sys.net, d) && !d.Work? && (d.Elsewhere? ==> !Workers.Blocked(Database(sys), d.s))
    case Begin(i) => Delivery.Enabled(sys.net, Delivery.Work(i, None)) && sys.phases[i].Idle?
    case Advance(i) => Busy(sys, i)
    case Abort(i) => Busy(sys, i)
    case Note(i) => Busy(sys, i) && sys.phases[i].Failing?
  }

  function Drop(phases: seq<Phase>, i: nat): seq<Phase>
    requires i < |phases|
  {
    phases[..i] + phases[i + 1..]
  }

  /** New messages have idle phases. */
  function Pad(phases: seq<Phase>, n: nat): seq<Phase>
  {
    if |phases| < n then phases + seq(n - |phases|, _ => Workers.Idle) else phases
  }

  /** A message that leaves its worker takes an open transaction with it, which is rolled back. */
  function Left(sys: System, d: Delivery.Move): seq<Phase>
    requires Enabled(sys, Broker(d))
  {
    match d
    case Ack(i) => Drop(sys.phases, i)
    case Dead(i, _) => Drop(sys.phases, i)
    case Crash(i) => sys.phases[i := Workers.Idle]
    case Reject(i) => sys.phases[i := Workers.Idle]
    case _ => sys.phases
  }

  function PhasesAfter(sys: System, d: Delivery.Move): seq<Phase>
    requires Enabled(sys, Broker(d))
  {
    Pad(Left(sys, d), |Delivery.Next(sys.net, d).msgs|)
  }

  /** The worker goes on to the next sale of the message. */
  function Past(net: Net, i: nat): Net
    requires i < |net.msgs| && net.msgs[i].place.AtWorker?
  {
    Delivery.Relocate(net, i, Delivery.AtWorker(net.msgs[i].place.done + 1))
  }

  function Next(sys: System, m: Move): System
    requires Enabled(sys, m)
  {
    match m
    case Broker(d) => System(Delivery.Next(sys.net, d), PhasesAfter(sys, d))
    case Begin(i) =>
      var e := sys.net.msgs[i].msg[sys.net.msgs[i].place.done];
      if e.Garbage? || Stored(sys.net.db.txs, e.p.device, e.p.uuid) then sys.(net := Past(sys.net, i))
      else sys.(phases := Workers.Next(Database(sys), Workers.Pick(i, e.p)).workers)
    case Advance(i) =>
      var after := Workers.Progress(Database(sys), i);
      if after.workers[i].Idle? then System(Past(sys.net, i).(db := after.db), after.workers)
      else sys.(phases := after.workers)
    case Abort(i) => sys.(phases := Workers.Next(Database(sys), Workers.Abort(i)).workers)
    case Note(i) =>
      var after := Workers.Next(Database(sys), Workers.Note(i, true));
      System(Past(sys.net, i).(db := after.db), after.workers)
  }

  ghost predicate IsRun(sys: System, moves: seq<Move>)
    decreases |moves|, 0
  {
    if |moves| == 0 then true
    else
      var init := moves[..|moves| - 1];
      IsRun(sys, init) && Enabled(Exec(sys, init), moves[|moves| - 1])
  }

  ghost function Exec(sys: System, moves: seq<Move>): System
    requires IsRun(sys, moves)
    decreases |moves|, 1
  {
    if |moves| == 0 then sys
    else Next(Exec(sys, moves[..|moves| - 1]), moves[|moves| - 1])
  }

  // ---- What holds in between ----

  /** A busy phase is about the sale its message has come to. */
  ghost predicate Attends(x: Delivery.Parked, phase: Phase)
  {
    phase.Idle? || (x.place.AtWorker? && x.place.done < |x.msg| && NoLoss.IsSale(x.msg[x.place.done], phase.p))
  }

  ghost predicate Attended(msgs: seq<Delivery.Parked>, phases: seq<Phase>)
  {
    |phases| == |msgs| && forall i | 0 <= i < |msgs| :: Attends(msgs[i], phases[i])
  }

  ghost predicate SystemInv(sys: System)
  {
    Attended(sys.net.msgs, sys.phases) && Workers.SysInv(Database(sys))
  }

  /** No sale in the midst of being handled. */
  ghost predicate Quiescent(sys: System)
  {
    && |sys.phases| == |sys.net.msgs| && CatalogInv(sys.net.db.active, sys.net.db.stock)
    && forall i | 0 <= i < |sys.phases| :: sys.phases[i].Idle?
  }

  // ---- Workers coming and going ----

  lemma DropKeeps(sys: Workers.Sys, i: nat)
    requires Workers.SysInv(sys) && i < |sys.workers|
    ensures Workers.SysInv(sys.(workers := Drop(sys.workers, i)))
  {
    var left := Drop(sys.workers, i);
    assert forall j | 0 <= j < |left| :: left[j] == sys.workers[if j < i then j else j + 1];
    forall u, v, q | 0 <= u < v < |left| && Workers.Holds(sys.db, left[u], q)
      ensures !Workers.Holds(sys.db, left[v], q)
    {
      assert Workers.Holds(sys.db, sys.workers[if u < i then u else u + 1], q);
    }
  }

  lemma PadKeeps(sys: Workers.Sys, n: nat)
    requires Workers.SysInv(sys)
    ensures Workers.SysInv(sys.(workers := Pad(sys.workers, n)))
  {
    var more := Pad(sys.workers, n);
    assert forall j | 0 <= j < |more| :: more[j] == if j < |sys.workers| then sys.workers[j] else Workers.Idle;
    forall u, v, q | 0 <= u < v < |more| && Workers.Holds(sys.db, more[u], q)
      ensures !Workers.Holds(sys.db, more[v], q)
    {
      assert Workers.Holds(sys.db, sys.workers[u], q);
    }
  }

  /** Failure notes concern no worker. */
  lemma NotesKeep(sys: Workers.Sys, db: Db)
    requires Workers.SysInv(sys) && db == sys.db.(failures := db.failures)
    ensures Workers.SysInv(sys.(db := db))
  {
    forall v | 0 <= v < |sys.workers|
      ensures Workers.Undisturbed(sys.db, db, sys.workers[v])
    {
      assert forall q | Workers.Holds(sys.db, sys.workers[v], q) :: q in sys.db.active;
    }
    Workers.DatabaseMoves(sys, db, |sys.workers|);
  }

  lemma {:induction false} DispatchOnlyNotes(net: Net, msg: Delivery.Message, outcomes: seq<Delivery.Outcome>)
    ensures
      var after := Delivery.DispatchAll(net, msg, outcomes);
      after.db == net.db.(failures := after.db.failures) && net.msgs <= after.msgs
  {
    if |msg| > 0 {
      DispatchOnlyNotes(net, msg[..|msg| - 1], outcomes);
    }
  }

  // ---- Broker moves ----

  lemma BrokerKeepsWorkers(sys: System, d: Delivery.Move)
    requires SystemInv(sys) && Enabled(sys, Broker(d))
    ensures Workers.SysInv(Database(Next(sys, Broker(d))))
  {
    var now := Database(sys).(db := Delivery.Next(sys.net, d).db);
    assert Workers.SysInv(now) by { BrokerKeepsViews(sys, d); }
    match d {
      case Ack(i) => DropKeeps(now, i);
      case Dead(i, _) => DropKeeps(now, i);
      case Crash(i) => IdleKeeps(now, i);
      case Reject(i) => IdleKeeps(now, i);
      case _ =>
    }
    PadKeeps(now.(workers := Left(sys, d)), |Delivery.Next(sys.net, d).msgs|);
  }

  lemma IdleKeeps(sys: Workers.Sys, i: nat)
    requires Workers.SysInv(sys) && i < |sys.workers|
    ensures Workers.SysInv(sys.(workers := sys.workers[i := Workers.Idle]))
  {
    Workers.WorkerMoves(sys, i, Workers.Idle);
  }

  lemma BrokerKeepsViews(sys: System, d: Delivery.Move)
    requires SystemInv(sys) && Enabled(sys, Broker(d))
    ensures Workers.SysInv(Database(sys).(db := Delivery.Next(sys.net, d).db))
  {
    match d
    case Elsewhere(s) => Workers.NextKeeps(Database(sys), Workers.Owner(s));
    case Dead(i, outcomes) =>
      DispatchOnlyNotes(sys.net.(msgs := Delivery.Remove(sys.net.msgs, i)), sys.net.msgs[i].msg, outcomes);
      NotesKeep(Database(sys), Delivery.Next(sys.net, d).db);
    case DeadCrash(i, k, outcomes) =>
      DispatchOnlyNotes(sys.net, sys.net.msgs[i].msg[..k], outcomes);
      NotesKeep(Database(sys), Delivery.Next(sys.net, d).db);
    case _ =>
  }

  lemma AttendedPad(msgs: seq<Delivery.Parked>, phases: seq<Phase>, more: seq<Delivery.Parked>)
    requires Attended(msgs, phases) && msgs <= more
    ensures Attended(more, Pad(phases, |more|))
  {
    forall j | 0 <= j < |more|
      ensures Attends(more[j], Pad(phases, |more|)[j])
    {
      if j < |msgs| {
        assert Attends(msgs[j], phases[j]);
      }
    }
  }

  lemma AttendedRemove(msgs: seq<Delivery.Parked>, phases: seq<Phase>, i: nat)
    requires Attended(msgs, phases) && i < |msgs|
    ensures Attended(Delivery.Remove(msgs, i), Drop(phases, i))
  {
    forall j | 0 <= j < |msgs| - 1
      ensures Attends(Delivery.Remove(msgs, i)[j], Drop(phases, i)[j])
    {
      assert Attends(msgs[if j < i then j else j + 1], phases[if j < i then j else j + 1]);
    }
  }

  lemma BrokerKeepsAttended(sys: System, d: Delivery.Move)
    requires Attended(sys.net.msgs, sys.phases) && Enabled(sys, Broker(d))
    ensures Attended(Delivery.Next(sys.net, d).msgs, PhasesAfter(sys, d))
  {
    var msgs := Delivery.Next(sys.net, d).msgs;
    match d
    case Submit(_, _) => AttendedPad(sys.net.msgs, sys.phases, msgs);
    case Ack(i) => AttendedRemove(sys.net.msgs, sys.phases, i);
    case Dead(i, outcomes) =>
      AttendedRemove(sys.net.msgs, sys.phases, i);
      DispatchOnlyNotes(sys.net.(msgs := Delivery.Remove(sys.net.msgs, i)), sys.net.msgs[i].msg, outcomes);
      AttendedPad(Delivery.Remove(sys.net.msgs, i), Drop(sys.phases, i), msgs);
    case DeadCrash(i, k, outcomes) =>
      DispatchOnlyNotes(sys.net, sys.net.msgs[i].msg[..k], outcomes);
      AttendedPad(sys.net.msgs, sys.phases, msgs);
    case Deliver(i) => AttendedElsewhere(sys.net.msgs, sys.phases, i, Delivery.AtWorker(0));
    case Expire(i) => AttendedElsewhere(sys.net.msgs, sys.phases, i, Delivery.Main);
    case Crash(i) => AttendedIdle(sys.net.msgs, sys.phases, i, Delivery.Main);
    case Reject(i) => AttendedIdle(sys.net.msgs, sys.phases, i, Delivery.DeadLetter);
    case Elsewhere(_) =>
  }

  lemma AttendedIdle(msgs: seq<Delivery.Parked>, phases: seq<Phase>, i: nat, place: Delivery.Place)
    requires Attended(msgs, phases) && i < |msgs|
    ensures Attended(msgs[i := msgs[i].(place := place)], phases[i := Workers.Idle])
  {
    assert forall j | 0 <= j < |msgs| && j != i :: Attends(msgs[j], phases[j]);
  }

  lemma AttendedElsewhere(msgs: seq<Delivery.Parked>, phases: seq<Phase>, i: nat, place: Delivery.Place)
    requires Attended(msgs, phases) && i < |msgs| && !msgs[i].place.AtWorker?
    ensures Attended(msgs[i := msgs[i].(place := place)], phases)
  {
    assert Attends(msgs[i], phases[i]);
    AttendedIdle(msgs, phases, i, place);
    assert phases[i := Workers.Idle] == phases;
  }

  // ---- Small steps of one sale ----

  /** Either the worker commits, and the sale has been handled in one go; or nothing is visible yet. */
  lemma AdvanceCommitsOrNot(sys: Workers.Sys, i: nat)
    requires Workers.SysInv(sys) && i < |sys.workers| && !sys.workers[i].Idle?
    ensures
      var after := Workers.Progress(sys, i);
      && |after.workers| == |sys.workers| && after.workers == sys.workers[i := after.workers[i]]
      && if after.workers[i].Idle? then after.db == HandleOne(sys.db, sys.workers[i].p)
         else after.db == sys.db && after.workers[i].p == sys.workers[i].p
  {
    var me := sys.workers[i];
    assert Workers.PhaseOk(sys.db, me);
    if me.RowsIn? && (me.conflict || me.j == |me.p.items|) {
      Workers.CommitIsAtomic(sys.db, me);
    }
  }

  /** The phase of one message changes; it still is about the same sale. */
  lemma AttendedStays(msgs: seq<Delivery.Parked>, phases: seq<Phase>, i: nat, phase: Phase)
    requires Attended(msgs, phases) && i < |msgs| && Attends(msgs[i], phase)
    ensures Attended(msgs, phases[i := phase])
  {
    assert forall j | 0 <= j < |msgs| && j != i :: Attends(msgs[j], phases[j]);
  }

  // ---- Refinement ----

  /** The move of `Delivery` that a move amounts to, if any. */
  function Visible(sys: System, m: Move): seq<Delivery.Move>
    requires Enabled(sys, m)
  {
    match m
    case Broker(d) => [d]
    case Begin(i) =>
      var e := sys.net.msgs[i].msg[sys.net.msgs[i].place.done];
      if e.Garbage? || Stored(sys.net.db.txs, e.p.device, e.p.uuid) then [Delivery.Work(i, None)] else []
    case Advance(i) => if Workers.Progress(Database(sys), i).workers[i].Idle? then [Delivery.Work(i, None)] else []
    case Abort(_) => []
    case Note(i) => [Delivery.Work(i, Some(NoteFor(sys.phases[i].error)))]
  }

  ghost predicate Amounts(net: Net, ds: seq<Delivery.Move>, net': Net)
  {
    (ds == [] && net' == net) ||
    (|ds| == 1 && Delivery.Enabled(net, ds[0]) && net' == Delivery.Next(net, ds[0]))
  }

  lemma AdvanceStep(sys: System, i: nat)
    requires SystemInv(sys) && Enabled(sys, Advance(i))
    ensures SystemInv(Next(sys, Advance(i)))
    ensures Amounts(sys.net, Visible(sys, Advance(i)), Next(sys, Advance(i)).net)
  {
    var after := Workers.Progress(Database(sys), i);
    assert Attends(sys.net.msgs[i], sys.phases[i]);
    AdvanceCommitsOrNot(Database(sys), i);
    Workers.AdvanceKeeps(Database(sys), i);
    if after.workers[i].Idle? {
      AttendedIdle(sys.net.msgs, sys.phases, i, Delivery.AtWorker(sys.net.msgs[i].place.done + 1));
    } else {
      AttendedStays(sys.net.msgs, sys.phases, i, after.workers[i]);
      assert Database(Next(sys, Advance(i))) == after;
    }
  }

  lemma NoteStep(sys: System, i: nat)
    requires SystemInv(sys) && Enabled(sys, Note(i))
    ensures SystemInv(Next(sys, Note(i)))
    ensures Amounts(sys.net, Visible(sys, Note(i)), Next(sys, Note(i)).net)
  {
    assert Attends(sys.net.msgs[i], sys.phases[i]);
    Workers.NextKeeps(Database(sys), Workers.Note(i, true));
    AttendedIdle(sys.net.msgs, sys.phases, i, Delivery.AtWorker(sys.net.msgs[i].place.done + 1));
  }

  lemma AbortStep(sys: System, i: nat)
    requires SystemInv(sys) && Enabled(sys, Abort(i))
    ensures SystemInv(Next(sys, Abort(i)))
  {
    assert Attends(sys.net.msgs[i], sys.phases[i]);
    var after := Workers.Next(Database(sys), Workers.Abort(i));
    Workers.NextKeeps(Database(sys), Workers.Abort(i));
    AttendedStays(sys.net.msgs, sys.phases, i, after.workers[i]);
    assert after.workers == sys.phases[i := after.workers[i]];
    assert Database(Next(sys, Abort(i))) == after;
  }

  lemma BeginStep(sys: System, i: nat)
    requires SystemInv(sys) && Enabled(sys, Begin(i))
    ensures SystemInv(Next(sys, Begin(i)))
    ensures Amounts(sys.net, Visible(sys, Begin(i)), Next(sys, Begin(i)).net)
  {
    var e := sys.net.msgs[i].msg[sys.net.msgs[i].place.done];
    if e.Garbage? || Stored(sys.net.db.txs, e.p.device, e.p.uuid) {
      AttendedIdle(sys.net.msgs, sys.phases, i, Delivery.AtWorker(sys.net.msgs[i].place.done + 1));
      assert sys.phases[i := Workers.Idle] == sys.phases;
    } else {
      var after := Workers.Next(Database(sys), Workers.Pick(i, e.p));
      Workers.NextKeeps(Database(sys), Workers.Pick(i, e.p));
      AttendedStays(sys.net.msgs, sys.phases, i, Workers.Picked(e.p));
      assert Database(Next(sys, Begin(i))) == after;
    }
  }

  /** Every move keeps the invariant and is one move of `Delivery` or none. */
  lemma NextIsDelivery(sys: System, m: Move)
    requires SystemInv(sys) && Enabled(sys, m)
    ensures SystemInv(Next(sys, m))
    ensures Amounts(sys.net, Visible(sys, m), Next(sys, m).net)
  {
    match m
    case Broker(d) =>
      BrokerKeepsAttended(sys, d);
      BrokerKeepsWorkers(sys, d);
    case Begin(i) => BeginStep(sys, i);
    case Advance(i) => AdvanceStep(sys, i);
    case Abort(i) => AbortStep(sys, i);
    case Note(i) => NoteStep(sys, i);
  }

  /** The run of `Delivery` that a run amounts to. */
  ghost function Trace(sys: System, moves: seq<Move>): seq<Delivery.Move>
    requires IsRun(sys, moves)
  {
    if |moves| == 0 then []
    else
      var init := moves[..|moves| - 1];
      Trace(sys, init) + Visible(Exec(sys, init), moves[|moves| - 1])
  }

  lemma RunExtends(net: Net, run: seq<Delivery.Move>, ds: seq<Delivery.Move>, net': Net)
    requires Delivery.IsRun(net, run) && Amounts(Delivery.Exec(net, run), ds, net')
    ensures Delivery.IsRun(net, run + ds) && Delivery.Exec(net, run + ds) == net'
  {
    if ds == [] {
      assert run + ds == run;
    } else {
      assert (run + ds)[..|run + ds| - 1] == run;
    }
  }

  /**
   Every run of broker, interleaved workers and owners is a run of the network in which each sale
   is handled in one step, with the same database and the same messages.
   */
  lemma {:induction false} RunIsDelivery(sys: System, moves: seq<Move>)
    requires IsRun(sys, moves) && SystemInv(sys)
    ensures SystemInv(Exec(sys, moves))
    ensures Delivery.IsRun(sys.net, Trace(sys, moves))
    ensures Delivery.Exec(sys.net, Trace(sys, moves)) == Exec(sys, moves).net
  {
    if |moves| > 0 {
      var init, m := moves[..|moves| - 1], moves[|moves| - 1];
      RunIsDelivery(sys, init);
      NextIsDelivery(Exec(sys, init), m);
      RunExtends(sys.net, Trace(sys, init), Visible(Exec(sys, init), m), Exec(sys, moves).net);
    }
  }

  lemma QuiescentInv(sys: System)
    requires Quiescent(sys)
    ensures SystemInv(sys)
  {
  }

  // ---- What follows ----

  /** The whole invariant holds of the database after any run of the whole system. */
  lemma SystemKeeps(sys: System, moves: seq<Move>)
    requires Quiescent(sys) && IsRun(sys, moves) && Initial(sys.net.db)
    ensures Inv(sys.net.db.stock, Exec(sys, moves).net.db)
  {
    QuiescentInv(sys);
    RunIsDelivery(sys, moves);
    NoLoss.NetworkKeeps(sys.net, Trace(sys, moves));
  }

  /** In the dead-letter acknowledgements of this run the sale's own publishes arrive. */
  ghost predicate OwnPublishesArrive(sys: System, moves: seq<Move>, p: Payload)
    requires IsRun(sys, moves)
  {
    |moves| == 0 ||
    (var now, m := Exec(sys, moves[..|moves| - 1]), moves[|moves| - 1];
     && OwnPublishesArrive(sys, moves[..|moves| - 1], p)
     && (m.Broker? && m.m.Dead? ==> NoLoss.OwnArrive(now.net.msgs[m.m.i].msg, m.m.outcomes, p)))
  }

  lemma ArrivalsExtend(net: Net, run: seq<Delivery.Move>, d: Delivery.Move, p: Payload)
    requires Delivery.IsRun(net, run) && Delivery.Enabled(Delivery.Exec(net, run), d) && NoLoss.OwnPublishesArrive(net, run, p)
    requires d.Dead? ==> NoLoss.OwnArrive(Delivery.Exec(net, run).msgs[d.i].msg, d.outcomes, p)
    ensures Delivery.IsRun(net, run + [d]) && NoLoss.OwnPublishesArrive(net, run + [d], p)
  {
    assert (run + [d])[..|run + [d]| - 1] == run;
  }

  /** Only a dead-letter acknowledgement of the broker is one to the network. */
  lemma VisibleDead(sys: System, m: Move)
    requires Enabled(sys, m)
    ensures |Visible(sys, m)| <= 1
    ensures |Visible(sys, m)| == 1 && Visible(sys, m)[0].Dead? ==> m.Broker? && m.m == Visible(sys, m)[0]
  {
  }

  lemma ArrivalsStep(sys: System, now: System, run: seq<Delivery.Move>, m: Move, p: Payload)
    requires Delivery.IsRun(sys.net, run) && Delivery.Exec(sys.net, run) == now.net && NoLoss.OwnPublishesArrive(sys.net, run, p)
    requires SystemInv(now) && Enabled(now, m)
    requires m.Broker? && m.m.Dead? ==> NoLoss.OwnArrive(now.net.msgs[m.m.i].msg, m.m.outcomes, p)
    ensures Delivery.IsRun(sys.net, run + Visible(now, m)) && NoLoss.OwnPublishesArrive(sys.net, run + Visible(now, m), p)
  {
    var ds := Visible(now, m);
    VisibleDead(now, m);
    NextIsDelivery(now, m);
    if ds == [] {
      assert run + ds == run;
    } else {
      assert ds == [ds[0]];
      ArrivalsExtend(sys.net, run, ds[0], p);
    }
  }

  lemma {:induction false} OwnArrivalsAgree(sys: System, moves: seq<Move>, p: Payload)
    requires IsRun(sys, moves) && SystemInv(sys) && OwnPublishesArrive(sys, moves, p)
    ensures Delivery.IsRun(sys.net, Trace(sys, moves)) && NoLoss.OwnPublishesArrive(sys.net, Trace(sys, moves), p)
  {
    if |moves| > 0 {
      var init := moves[..|moves| - 1];
      OwnArrivalsAgree(sys, init, p);
      RunIsDelivery(sys, init);
      ArrivalsStep(sys, Exec(sys, init), Trace(sys, init), moves[|moves| - 1], p);
    }
  }

  /**
   No sale is lost between broker and database while workers interleave and crash in the midst of
   their transactions, if its own retry publishes arrive.
   */
  lemma SystemLosesNothing(sys: System, moves: seq<Move>, p: Payload)
    requires SystemInv(sys) && IsRun(sys, moves) && OwnPublishesArrive(sys, moves, p)
    requires p.device in sys.net.db.devices && NoLoss.Present(sys.net, p)
    ensures NoLoss.Present(Exec(sys, moves).net, p)
  {
    RunIsDelivery(sys, moves);
    OwnArrivalsAgree(sys, moves, p);
    NoLoss.NothingLost(sys.net, Trace(sys, moves), p);
  }

  /** And a batch is acknowledged only when each of its sales is stored or noted as failed. */
  lemma SystemAckedIsHeld(sys: System, moves: seq<Move>, i: nat, k: nat, p: Payload)
    requires SystemInv(sys) && IsRun(sys, moves) && NoLoss.WorkDone(sys.net, p) && p.device in sys.net.db.devices
    requires Enabled(Exec(sys, moves), Broker(Delivery.Ack(i)))
    requires k < |Exec(sys, moves).net.msgs[i].msg| && NoLoss.IsSale(Exec(sys, moves).net.msgs[i].msg[k], p)
    ensures NoLoss.Held(Next(Exec(sys, moves), Broker(Delivery.Ack(i))).net.db, p)
  {
    RunIsDelivery(sys, moves);
    NoLoss.AckedIsHeld(sys.net, Trace(sys, moves), i, k, p);
  }
}
