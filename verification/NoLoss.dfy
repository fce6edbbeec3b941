/**
 What is accepted is not lost: a sale from a known device is at all times in the broker or known
 to the database, unless a publish of this very sale to a retry queue fails. Messages may be
 delivered in any order, redelivered after a crash, refused and dead-lettered, publishes of other
 sales may fail, and the database may undergo anything else it can undergo. One move loses a
 sale in exactly one way, and the condition is given for all moves.
 */
module NoLoss {
  import opened Schema
  import opened Operations
  import opened Evolution
  import opened Invariants
  import opened Delivery

  ghost predicate IsSale(e: Entry, p: Payload)
  {
    e.Entry? && e.p == p
  }

  /** The message still has the sale before it: a worker has not come to that element yet. */
  ghost predicate Waiting(x: Parked, p: Payload)
  {
    exists k | 0 <= k < |x.msg| && (x.place.AtWorker? ==> x.place.done <= k) :: IsSale(x.msg[k], p)
  }

  ghost predicate Queued(msgs: seq<Parked>, p: Payload)
  {
    exists i | 0 <= i < |msgs| :: Waiting(msgs[i], p)
  }

  ghost predicate HasNote(failures: seq<QueueRow>, device: DeviceId, uuid: Uuid)
  {
    exists i | 0 <= i < |failures| :: failures[i].device == device && failures[i].uuid == uuid
  }

  /** The database knows of the sale: as a transaction or as a recorded failure. */
  ghost predicate Held(db: Db, p: Payload)
  {
    Stored(db.txs, p.device, p.uuid) || HasNote(db.failures, p.device, p.uuid)
  }

  ghost predicate Present(net: Net, p: Payload)
  {
    Queued(net.msgs, p) || Held(net.db, p)
  }

  lemma HeldForGood(a: Db, b: Db, p: Payload)
    requires Evolves(a, b) && Held(a, p)
    ensures Held(b, p)
  {
    if Stored(a.txs, p.device, p.uuid) {
      var t :| 0 <= t < |a.txs| && a.txs[t].uuid == Some(p.uuid) && a.txs[t].device == p.device;
      assert TxEvolves(a.txs[t], b.txs[t]);
    } else {
      var i :| 0 <= i < |a.failures| && a.failures[i].device == p.device && a.failures[i].uuid == p.uuid;
      assert b.failures[i].device == p.device && b.failures[i].uuid == p.uuid;
    }
  }

  // ---- The worker ----

  lemma WorkEvolves(db: Db, e: Entry, failed: Option<FailureNote>)
    ensures Evolves(db, WorkOne(db, e, failed))
  {
    if e.Entry? {
      StepEvolves(db, if failed.Some? then NoteFailure(e.p, failed.value) else Sync(e.p));
    }
  }

  lemma WorkedIsHeld(db: Db, p: Payload, attempt: nat, failed: Option<FailureNote>)
    requires p.device in db.devices
    ensures Held(WorkOne(db, Entry(p, attempt), failed), p)
  {
    var after := WorkOne(db, Entry(p, attempt), failed);
    if |after.txs| > |db.txs| {
      assert after.txs[|db.txs|].uuid == Some(p.uuid) && after.txs[|db.txs|].device == p.device;
    } else if |after.failures| > |db.failures| {
      assert after.failures[|db.failures|].uuid == p.uuid && after.failures[|db.failures|].device == p.device;
    }
  }

  // ---- The dead-letter consumer ----

  /**
   However often a terminal failure is recorded, it leaves one mark: the first note of the sale
   is overwritten, or one is added when there was none.
   */
  lemma TerminalLeavesOneMark(db: Db, device: DeviceId, uuid: Uuid)
    requires device in db.devices
    ensures
      var after := RecordTerminal(db, device, uuid);
      && RecordTerminal(after, device, uuid) == after
      && (|after.failures| == |db.failures| <==> HasNote(db.failures, device, uuid))
      && (|after.failures| == |db.failures| + 1 <==> !HasNote(db.failures, device, uuid))
      && exists i | 0 <= i < |after.failures| ::
           && after.failures[i] == QueueRow(device, uuid, ExceededRetries)
           && forall j | 0 <= j < |db.failures| && j != i :: after.failures[j] == db.failures[j]
  {
    var after := RecordTerminal(db, device, uuid);
    var at := FindFailure(db.failures, device, uuid);
    var i := if at.Some? then at.value else |db.failures|;
    assert after.failures[i] == QueueRow(device, uuid, ExceededRetries);
    assert forall j | 0 <= j < i :: after.failures[j] == db.failures[j];
    assert FindFailure(after.failures, device, uuid) == Some(i);
  }

  /** Recording the failure of one sale makes that sale known, and no other. */
  lemma TerminalHolds(db: Db, device: DeviceId, uuid: Uuid, p: Payload)
    requires p.device in db.devices
    ensures Held(RecordTerminal(db, device, uuid), p) <==> Held(db, p) || (device == p.device && uuid == p.uuid)
  {
    var after := RecordTerminal(db, device, uuid);
    StepEvolves(db, NoteTerminal(device, uuid));
    if Held(db, p) {
      HeldForGood(db, after, p);
    } else if device == p.device && uuid == p.uuid {
      assert after.failures[|db.failures|].device == device && after.failures[|db.failures|].uuid == uuid;
    } else {
      forall i | 0 <= i < |after.failures|
        ensures !(after.failures[i].device == p.device && after.failures[i].uuid == p.uuid)
      {
      }
    }
  }

  lemma QueuedAppend(msgs: seq<Parked>, x: Parked, p: Payload)
    ensures Queued(msgs + [x], p) <==> Queued(msgs, p) || Waiting(x, p)
  {
    assert (msgs + [x])[|msgs|] == x;
    if Queued(msgs, p) {
      var i :| 0 <= i < |msgs| && Waiting(msgs[i], p);
      assert (msgs + [x])[i] == msgs[i];
    }
  }

  /** The sale gets through as this element: sent on to a retry queue, or recorded for good. */
  ghost predicate SurvivesAs(e: Entry, up: bool, p: Payload)
  {
    e.Entry? &&
    if e.attempt < MAX_RETRIES then e.p == p && up
    else e.p.device == p.device && e.p.uuid == p.uuid
  }

  ghost predicate Survives(msg: Message, outcomes: seq<Outcome>, p: Payload)
  {
    exists k | 0 <= k < |msg| :: SurvivesAs(msg[k], Up(outcomes, k), p)
  }

  lemma DispatchPresent(net: Net, e: Entry, up: bool, p: Payload)
    requires p.device in net.db.devices
    ensures Present(Dispatch(net, e, up), p) <==> Present(net, p) || SurvivesAs(e, up, p)
    ensures Dispatch(net, e, up).db.devices == net.db.devices
  {
    if e.Entry? && e.attempt < MAX_RETRIES && up {
      var single := Parked(QueueFor(e.attempt + 1), [Entry(e.p, e.attempt + 1)]);
      QueuedAppend(net.msgs, single, p);
      assert single.msg[0] == Entry(e.p, e.attempt + 1);
      assert IsSale(single.msg[0], p) <==> e.p == p;
    } else if e.Entry? && e.attempt >= MAX_RETRIES {
      TerminalHolds(net.db, e.p.device, e.p.uuid, p);
    }
  }

  /**
   After a dead-letter message has been split, a sale is present exactly when it was present
   elsewhere before or got through as one of the elements.
   */
  lemma {:induction false} DispatchAllPresent(net: Net, msg: Message, outcomes: seq<Outcome>, p: Payload)
    requires p.device in net.db.devices
    ensures Present(DispatchAll(net, msg, outcomes), p) <==> Present(net, p) || Survives(msg, outcomes, p)
    ensures DispatchAll(net, msg, outcomes).db.devices == net.db.devices
  {
    if |msg| > 0 {
      var n := |msg| - 1;
      DispatchAllPresent(net, msg[..n], outcomes, p);
      DispatchPresent(DispatchAll(net, msg[..n], outcomes), msg[n], Up(outcomes, n), p);
      SurvivesSplit(msg, outcomes, p);
    }
  }

  lemma SurvivesSplit(msg: Message, outcomes: seq<Outcome>, p: Payload)
    requires |msg| > 0
    ensures
      var n := |msg| - 1;
      Survives(msg, outcomes, p) <==> Survives(msg[..n], outcomes, p) || SurvivesAs(msg[n], Up(outcomes, n), p)
  {
    var n := |msg| - 1;
    assert forall k | 0 <= k < n :: msg[..n][k] == msg[k];
  }

  lemma {:induction false} DispatchAllEvolves(net: Net, msg: Message, outcomes: seq<Outcome>)
    ensures Evolves(net.db, DispatchAll(net, msg, outcomes).db)
    ensures net.msgs <= DispatchAll(net, msg, outcomes).msgs
  {
    if |msg| > 0 {
      var mid := DispatchAll(net, msg[..|msg| - 1], outcomes);
      var e := msg[|msg| - 1];
      DispatchAllEvolves(net, msg[..|msg| - 1], outcomes);
      if e.Entry? {
        StepEvolves(mid.db, NoteTerminal(e.p.device, e.p.uuid));
      }
      EvolvesTransitive(net.db, mid.db, DispatchAll(net, msg, outcomes).db);
    }
  }

  // ---- One move ----

  lemma MoveEvolves(net: Net, m: Move)
    requires Enabled(net, m)
    ensures Evolves(net.db, Next(net, m).db)
  {
    match m
    case Work(i, failed) => WorkEvolves(net.db, net.msgs[i].msg[net.msgs[i].place.done], failed);
    case Dead(i, outcomes) => DispatchAllEvolves(net.(msgs := Remove(net.msgs, i)), net.msgs[i].msg, outcomes);
    case DeadCrash(i, k, outcomes) => DispatchAllEvolves(net, net.msgs[i].msg[..k], outcomes);
    case Elsewhere(s) => StepEvolves(net.db, s);
    case _ =>
  }

  /** A dead-letter message is acknowledged and the sale, which is nowhere else, got through as no element. */
  ghost predicate Drops(net: Net, m: Move, p: Payload)
    requires Enabled(net, m)
  {
    m.Dead? && !Held(net.db, p) && !Queued(Remove(net.msgs, m.i), p) && !Survives(net.msgs[m.i].msg, m.outcomes, p)
  }

  lemma RemoveKeepsOthers(msgs: seq<Parked>, i: nat, p: Payload)
    requires i < |msgs| && Queued(msgs, p) && !Waiting(msgs[i], p)
    ensures Queued(Remove(msgs, i), p)
  {
    var j :| 0 <= j < |msgs| && Waiting(msgs[j], p);
    assert Remove(msgs, i)[if j < i then j else j - 1] == msgs[j];
  }

  /** A message that moves, other than past this sale, keeps it. */
  lemma RelocateKeeps(net: Net, i: nat, place: Place, p: Payload)
    requires i < |net.msgs| && Queued(net.msgs, p)
    requires Waiting(net.msgs[i], p) ==> Waiting(net.msgs[i].(place := place), p)
    ensures Queued(Relocate(net, i, place).msgs, p)
  {
    var j :| 0 <= j < |net.msgs| && Waiting(net.msgs[j], p);
    assert Waiting(Relocate(net, i, place).msgs[j], p);
  }

  /** Anywhere but at a worker the whole message is still to be handled. */
  lemma BackFromWorker(x: Parked, place: Place, p: Payload)
    requires Waiting(x, p) && (place.AtWorker? ==> place.done == 0)
    ensures Waiting(x.(place := place), p)
  {
    var k :| 0 <= k < |x.msg| && (x.place.AtWorker? ==> x.place.done <= k) && IsSale(x.msg[k], p);
    assert IsSale(x.(place := place).msg[k], p);
  }

  lemma RelocateWhole(net: Net, i: nat, place: Place, p: Payload)
    requires i < |net.msgs| && Queued(net.msgs, p) && (place.AtWorker? ==> place.done == 0)
    ensures Queued(Relocate(net, i, place).msgs, p)
  {
    if Waiting(net.msgs[i], p) {
      BackFromWorker(net.msgs[i], place, p);
    }
    RelocateKeeps(net, i, place, p);
  }

  lemma WorkKeepsPresent(net: Net, i: nat, failed: Option<FailureNote>, p: Payload)
    requires Enabled(net, Work(i, failed)) && p.device in net.db.devices && Queued(net.msgs, p)
    ensures Present(Next(net, Work(i, failed)), p)
  {
    var x := net.msgs[i];
    var e := x.msg[x.place.done];
    if IsSale(e, p) {
      WorkedIsHeld(net.db, p, e.attempt, failed);
    } else {
      if Waiting(x, p) {
        var k :| 0 <= k < |x.msg| && x.place.done <= k && IsSale(x.msg[k], p);
        assert IsSale(x.(place := AtWorker(x.place.done + 1)).msg[k], p);
      }
      RelocateKeeps(net, i, AtWorker(x.place.done + 1), p);
    }
  }

  lemma QueuedNext(net: Net, m: Move, p: Payload)
    requires Enabled(net, m) && p.device in net.db.devices
    requires Queued(net.msgs, p) && !m.Dead?
    ensures Present(Next(net, m), p)
  {
    match m
    case Submit(batch, outcome) => QueuedAppend(net.msgs, Parked(Main, Fresh(batch)), p);
    case Deliver(i) => RelocateWhole(net, i, AtWorker(0), p);
    case Work(i, failed) => WorkKeepsPresent(net, i, failed, p);
    case Ack(i) => RemoveKeepsOthers(net.msgs, i, p);
    case Crash(i) => RelocateWhole(net, i, Main, p);
    case Reject(i) => RelocateWhole(net, i, DeadLetter, p);
    case DeadCrash(i, k, outcomes) => DispatchAllPresent(net, net.msgs[i].msg[..k], outcomes, p);
    case Expire(i) => RelocateWhole(net, i, Main, p);
    case Elsewhere(s) =>
  }

  /**
   The one way to lose a sale. Whatever the move and whatever the state, a sale that is present
   stays present exactly when the move does not drop it.
   */
  lemma MoveLosesIffDrops(net: Net, m: Move, p: Payload)
    requires Enabled(net, m) && p.device in net.db.devices && Present(net, p)
    ensures Present(Next(net, m), p) <==> !Drops(net, m, p)
    ensures p.device in Next(net, m).db.devices
  {
    MoveEvolves(net, m);
    if m.Dead? {
      DispatchAllPresent(net.(msgs := Remove(net.msgs, m.i)), net.msgs[m.i].msg, m.outcomes, p);
    } else if Held(net.db, p) {
      HeldForGood(net.db, Next(net, m).db, p);
    } else {
      QueuedNext(net, m, p);
    }
  }

  /**
   The publish has to arrive: when a dead-letter message of any length is split, a sale that is
   nowhere else survives exactly when some copy of it with retries left reaches its retry queue
   or a copy without retries left is recorded. The failure of a publish is swallowed and the
   message acknowledged all the same.
   */
  lemma LostIffPublishFails(net: Net, msg: Message, outcomes: seq<Outcome>, p: Payload)
    requires p.device in net.db.devices && !Present(net, p)
    ensures Present(DispatchAll(net, msg, outcomes), p) <==>
              exists k | 0 <= k < |msg| ::
                || (msg[k].Entry? && msg[k].p == p && msg[k].attempt < MAX_RETRIES && Up(outcomes, k))
                || (msg[k].Entry? && msg[k].p.device == p.device && msg[k].p.uuid == p.uuid && msg[k].attempt >= MAX_RETRIES)
  {
    DispatchAllPresent(net, msg, outcomes, p);
    if Survives(msg, outcomes, p) {
      var k :| 0 <= k < |msg| && SurvivesAs(msg[k], Up(outcomes, k), p);
      assert msg[k].Entry?;
    }
    forall k | 0 <= k < |msg| && msg[k].Entry?
      ensures msg[k].p == p && msg[k].attempt < MAX_RETRIES && Up(outcomes, k) ==> SurvivesAs(msg[k], Up(outcomes, k), p)
      ensures msg[k].p.device == p.device && msg[k].p.uuid == p.uuid && msg[k].attempt >= MAX_RETRIES ==>
                SurvivesAs(msg[k], Up(outcomes, k), p)
    {
    }
  }

  // ---- Whole runs ----

  ghost predicate NeverDrops(net: Net, moves: seq<Move>, p: Payload)
    requires IsRun(net, moves)
  {
    |moves| == 0 ||
    (NeverDrops(net, moves[..|moves| - 1], p) && !Drops(Exec(net, moves[..|moves| - 1]), moves[|moves| - 1], p))
  }

  ghost predicate PresentThroughout(net: Net, moves: seq<Move>, p: Payload)
    requires IsRun(net, moves)
  {
    Present(Exec(net, moves), p) && (|moves| == 0 || PresentThroughout(net, moves[..|moves| - 1], p))
  }

  lemma {:induction false} DevicesStay(net: Net, moves: seq<Move>)
    requires IsRun(net, moves)
    ensures net.db.devices <= Exec(net, moves).db.devices
  {
    if |moves| > 0 {
      DevicesStay(net, moves[..|moves| - 1]);
      MoveEvolves(Exec(net, moves[..|moves| - 1]), moves[|moves| - 1]);
    }
  }

  /** Over any run from any state a sale is present all along exactly when no move drops it. */
  lemma {:induction false} PresentThroughoutIff(net: Net, moves: seq<Move>, p: Payload)
    requires IsRun(net, moves) && p.device in net.db.devices && Present(net, p)
    ensures PresentThroughout(net, moves, p) <==> NeverDrops(net, moves, p)
  {
    if |moves| > 0 {
      var init := moves[..|moves| - 1];
      PresentThroughoutIff(net, init, p);
      DevicesStay(net, init);
      if Present(Exec(net, init), p) {
        MoveLosesIffDrops(Exec(net, init), moves[|moves| - 1], p);
      }
    }
  }

  /** In a dead-letter message that is acknowledged, the publishes of this sale arrive. */
  ghost predicate OwnArrive(msg: Message, outcomes: seq<Outcome>, p: Payload)
  {
    forall k | 0 <= k < |msg| && IsSale(msg[k], p) && msg[k].attempt < MAX_RETRIES :: Up(outcomes, k)
  }

  ghost predicate OwnPublishesArrive(net: Net, moves: seq<Move>, p: Payload)
    requires IsRun(net, moves)
  {
    |moves| == 0 ||
    (var now, m := Exec(net, moves[..|moves| - 1]), moves[|moves| - 1];
     OwnPublishesArrive(net, moves[..|moves| - 1], p) && (m.Dead? ==> OwnArrive(now.msgs[m.i].msg, m.outcomes, p)))
  }

  lemma OwnArrivalKeeps(net: Net, m: Move, p: Payload)
    requires Enabled(net, m) && Present(net, p)
    requires m.Dead? ==> OwnArrive(net.msgs[m.i].msg, m.outcomes, p)
    ensures !Drops(net, m, p)
  {
    if m.Dead? && Queued(net.msgs, p) {
      if Waiting(net.msgs[m.i], p) {
        var k :| 0 <= k < |net.msgs[m.i].msg| && IsSale(net.msgs[m.i].msg[k], p);
        assert SurvivesAs(net.msgs[m.i].msg[k], Up(m.outcomes, k), p);
      } else {
        RemoveKeepsOthers(net.msgs, m.i, p);
      }
    }
  }

  /** No run from any state loses a sale that is present, if its own retry publishes arrive. */
  lemma {:induction false} NothingLost(net: Net, moves: seq<Move>, p: Payload)
    requires IsRun(net, moves) && OwnPublishesArrive(net, moves, p)
    requires p.device in net.db.devices && Present(net, p)
    ensures Present(Exec(net, moves), p)
  {
    if |moves| > 0 {
      var init := moves[..|moves| - 1];
      NothingLost(net, init, p);
      DevicesStay(net, init);
      OwnArrivalKeeps(Exec(net, init), moves[|moves| - 1], p);
      MoveLosesIffDrops(Exec(net, init), moves[|moves| - 1], p);
    }
  }

  /** A batch that reached the queue is present, also when the client was told it had timed out. */
  lemma AcceptedIsPresent(net: Net, batch: seq<Payload>, outcome: Outcome, k: nat)
    requires k < |batch| && Arrives(outcome)
    ensures Present(Next(net, Submit(batch, outcome)), batch[k])
  {
    var x := Parked(Main, Fresh(batch));
    assert IsSale(x.msg[k], batch[k]);
    QueuedAppend(net.msgs, x, batch[k]);
  }

  /**
   The promise to the client, whole: from any state of the network whatsoever, a sale of an
   accepted batch whose device is known by then is in the broker or in the database after every
   later run in which its own retry publishes arrive.
   */
  lemma AcceptedIsNeverLost(net: Net, batch: seq<Payload>, k: nat, later: seq<Move>)
    requires k < |batch| && batch[k].device in net.db.devices
    requires IsRun(Next(net, Submit(batch, Confirmed)), later)
    requires OwnPublishesArrive(Next(net, Submit(batch, Confirmed)), later, batch[k])
    ensures Present(Exec(Next(net, Submit(batch, Confirmed)), later), batch[k])
  {
    AcceptedIsPresent(net, batch, Confirmed, k);
    NothingLost(Next(net, Submit(batch, Confirmed)), later, batch[k]);
  }

  // ---- Acknowledged batches ----

  /** Whatever a worker has already handled of its message is known to the database. */
  ghost predicate WorkDone(net: Net, p: Payload)
  {
    forall i, k | 0 <= i < |net.msgs| && net.msgs[i].place.AtWorker? && 0 <= k < net.msgs[i].place.done && k < |net.msgs[i].msg| ::
      IsSale(net.msgs[i].msg[k], p) ==> Held(net.db, p)
  }

  /** Dispatching parks new messages only in retry queues. */
  lemma {:induction false} DispatchParks(net: Net, msg: Message, outcomes: seq<Outcome>, i: nat)
    requires |net.msgs| <= i < |DispatchAll(net, msg, outcomes).msgs|
    ensures IsRetry(DispatchAll(net, msg, outcomes).msgs[i].place)
  {
    if |msg| > 0 {
      var mid := DispatchAll(net, msg[..|msg| - 1], outcomes);
      if i < |mid.msgs| {
        DispatchParks(net, msg[..|msg| - 1], outcomes, i);
      }
    }
  }

  lemma DispatchedNotAtWorker(net: Net, msg: Message, outcomes: seq<Outcome>)
    ensures
      var after := DispatchAll(net, msg, outcomes).msgs;
      net.msgs <= after && forall i | |net.msgs| <= i < |after| :: !after[i].place.AtWorker?
  {
    DispatchAllEvolves(net, msg, outcomes);
    var after := DispatchAll(net, msg, outcomes).msgs;
    forall i | |net.msgs| <= i < |after|
      ensures !after[i].place.AtWorker?
    {
      DispatchParks(net, msg, outcomes, i);
    }
  }

  /** Every message at a worker was already there, as far advanced. */
  ghost predicate NoNewWork(a: seq<Parked>, b: seq<Parked>)
  {
    forall j | 0 <= j < |b| && b[j].place.AtWorker? :: b[j].place.done == 0 || b[j] in a
  }

  lemma WorkDoneFrame(net: Net, net': Net, p: Payload)
    requires WorkDone(net, p) && Evolves(net.db, net'.db) && NoNewWork(net.msgs, net'.msgs)
    ensures WorkDone(net', p)
  {
    forall j, k | 0 <= j < |net'.msgs| && net'.msgs[j].place.AtWorker? && 0 <= k < net'.msgs[j].place.done &&
                  k < |net'.msgs[j].msg| && IsSale(net'.msgs[j].msg[k], p)
      ensures Held(net'.db, p)
    {
      var i :| 0 <= i < |net.msgs| && net.msgs[i] == net'.msgs[j];
      assert IsSale(net.msgs[i].msg[k], p);
      HeldForGood(net.db, net'.db, p);
    }
  }

  lemma MovesBringNoWork(net: Net, m: Move)
    requires Enabled(net, m) && !m.Work?
    ensures NoNewWork(net.msgs, Next(net, m).msgs)
  {
    match m
    case Ack(i) =>
    case Dead(i, outcomes) => DispatchedNotAtWorker(net.(msgs := Remove(net.msgs, i)), net.msgs[i].msg, outcomes);
    case DeadCrash(i, k, outcomes) => DispatchedNotAtWorker(net, net.msgs[i].msg[..k], outcomes);
    case _ =>
  }

  lemma WorkDoneAfterWork(net: Net, m: Move, p: Payload)
    requires m.Work? && Enabled(net, m) && WorkDone(net, p) && p.device in net.db.devices
    ensures WorkDone(Next(net, m), p)
  {
    var e := net.msgs[m.i].msg[net.msgs[m.i].place.done];
    WorkEvolves(net.db, e, m.failed);
    if Held(net.db, p) {
      HeldForGood(net.db, Next(net, m).db, p);
    } else if IsSale(e, p) {
      WorkedIsHeld(net.db, p, e.attempt, m.failed);
    }
  }

  lemma WorkDoneStays(net: Net, m: Move, p: Payload)
    requires Enabled(net, m) && WorkDone(net, p) && p.device in net.db.devices
    ensures WorkDone(Next(net, m), p)
  {
    if m.Work? {
      WorkDoneAfterWork(net, m, p);
    } else {
      MoveEvolves(net, m);
      MovesBringNoWork(net, m);
      WorkDoneFrame(net, Next(net, m), p);
    }
  }

  lemma {:induction false} WorkIsDone(net: Net, moves: seq<Move>, p: Payload)
    requires IsRun(net, moves) && WorkDone(net, p) && p.device in net.db.devices
    ensures WorkDone(Exec(net, moves), p)
  {
    if |moves| > 0 {
      var init := moves[..|moves| - 1];
      WorkIsDone(net, init, p);
      DevicesStay(net, init);
      WorkDoneStays(Exec(net, init), moves[|moves| - 1], p);
    }
  }

  /**
   When a worker acknowledges a batch, every sale of it is stored or noted as failed, provided its
   device was known before any worker had come past a copy of it.
   */
  lemma AckedIsHeld(net: Net, moves: seq<Move>, i: nat, k: nat, p: Payload)
    requires IsRun(net, moves) && WorkDone(net, p) && p.device in net.db.devices
    requires Enabled(Exec(net, moves), Ack(i))
    requires k < |Exec(net, moves).msgs[i].msg| && IsSale(Exec(net, moves).msgs[i].msg[k], p)
    ensures Held(Next(Exec(net, moves), Ack(i)).db, p)
  {
    WorkIsDone(net, moves, p);
  }

  // ---- The database under the network ----

  lemma WorkKeeps(opening: map<ProductId, int>, db: Db, e: Entry, failed: Option<FailureNote>)
    requires Inv(opening, db)
    ensures Inv(opening, WorkOne(db, e, failed))
  {
    if e.Entry? {
      StepKeeps(opening, db, if failed.Some? then NoteFailure(e.p, failed.value) else Sync(e.p));
    }
  }

  lemma {:induction false} DispatchKeeps(opening: map<ProductId, int>, net: Net, msg: Message, outcomes: seq<Outcome>)
    requires Inv(opening, net.db)
    ensures Inv(opening, DispatchAll(net, msg, outcomes).db)
  {
    if |msg| > 0 {
      var mid := DispatchAll(net, msg[..|msg| - 1], outcomes);
      DispatchKeeps(opening, net, msg[..|msg| - 1], outcomes);
      var e := msg[|msg| - 1];
      if e.Entry? {
        StepKeeps(opening, mid.db, NoteTerminal(e.p.device, e.p.uuid));
      }
    }
  }

  lemma MoveKeeps(opening: map<ProductId, int>, net: Net, m: Move)
    requires Enabled(net, m) && Inv(opening, net.db)
    ensures Inv(opening, Next(net, m).db)
  {
    match m
    case Work(i, failed) => WorkKeeps(opening, net.db, net.msgs[i].msg[net.msgs[i].place.done], failed);
    case Dead(i, outcomes) => DispatchKeeps(opening, net.(msgs := Remove(net.msgs, i)), net.msgs[i].msg, outcomes);
    case DeadCrash(i, k, outcomes) => DispatchKeeps(opening, net, net.msgs[i].msg[..k], outcomes);
    case Elsewhere(s) => StepKeeps(opening, net.db, s);
    case _ =>
  }

  /**
   Redelivery, refusals, crashes and retries included: whatever the network does, the database
   satisfies everything proved of runs.
   */
  lemma {:induction false} NetworkKeeps(net: Net, moves: seq<Move>)
    requires IsRun(net, moves) && Initial(net.db)
    ensures Inv(net.db.stock, Exec(net, moves).db)
  {
    if |moves| == 0 {
      InitialInv(net.db);
    } else {
      NetworkKeeps(net, moves[..|moves| - 1]);
      MoveKeeps(net.db.stock, Exec(net, moves[..|moves| - 1]), moves[|moves| - 1]);
    }
  }
}
