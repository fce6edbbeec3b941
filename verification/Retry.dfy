/**
 The retry routing against a worker that refuses everything: it ends, and every sale takes the
 same route through the three delay queues before its failure is recorded for good.
 */
module Retry {
  import opened Schema
  import opened Delivery
  import opened NoLoss

  /** The moves that remain when every delivered message is refused and nothing crashes. */
  ghost predicate Rejecting(m: Move)
  {
    m.Deliver? || m.Reject? || m.Dead? || m.Expire?
  }

  // ---- Sums over what is parked ----

  ghost function Sum(msgs: seq<Parked>, f: Parked -> nat): nat
  {
    if |msgs| == 0 then 0
    else Sum(msgs[..|msgs| - 1], f) + f(msgs[|msgs| - 1])
  }

  lemma {:induction false} SumAppend(a: seq<Parked>, b: seq<Parked>, f: Parked -> nat)
    ensures Sum(a + b, f) == Sum(a, f) + Sum(b, f)
  {
    if |b| == 0 {
      assert a + b == a;
    } else {
      assert (a + b)[..|a + b| - 1] == a + b[..|b| - 1];
      SumAppend(a, b[..|b| - 1], f);
    }
  }

  lemma SumOne(x: Parked, f: Parked -> nat)
    ensures Sum([x], f) == f(x)
  {
    assert [x][..0] == [];
  }

  lemma {:induction false} SumRemove(msgs: seq<Parked>, i: nat, f: Parked -> nat)
    requires i < |msgs|
    ensures Sum(msgs, f) == Sum(Remove(msgs, i), f) + f(msgs[i])
  {
    var n := |msgs| - 1;
    if i < n {
      SumRemove(msgs[..n], i, f);
      assert Remove(msgs, i)[..n - 1] == Remove(msgs[..n], i);
      assert Remove(msgs, i)[n - 1] == msgs[n];
    } else {
      assert Remove(msgs, i) == msgs[..n];
    }
  }

  lemma SumUpdate(msgs: seq<Parked>, i: nat, x: Parked, f: Parked -> nat)
    requires i < |msgs|
    ensures Sum(msgs[i := x], f) + f(msgs[i]) == Sum(msgs, f) + f(x)
  {
    SumRemove(msgs, i, f);
    SumRemove(msgs[i := x], i, f);
    assert Remove(msgs[i := x], i) == Remove(msgs, i);
  }

  // ---- Termination ----

  /** Distance of a queue from the dead-letter consumer. */
  ghost function Distance(place: Place): nat
  {
    match place
    case DeadLetter => 1
    case AtWorker(_) => 2
    case Main => 3
    case _ => 4
  }

  /** Rounds an element still has before it, each four moves long. */
  ghost function RoundsLeft(e: Entry): nat
  {
    if e.Entry? && e.attempt < MAX_RETRIES then 4 * (MAX_RETRIES - e.attempt) else 0
  }

  ghost function Rounds(msg: Message): nat
  {
    if |msg| == 0 then 0 else Rounds(msg[..|msg| - 1]) + RoundsLeft(msg[|msg| - 1])
  }

  ghost function Weight(x: Parked): nat
  {
    Distance(x.place) + Rounds(x.msg)
  }

  ghost function Measure(net: Net): nat
  {
    Sum(net.msgs, Weight)
  }

  lemma DispatchOneMeasure(net: Net, e: Entry, up: bool)
    ensures Measure(Dispatch(net, e, up)) <= Measure(net) + RoundsLeft(e)
  {
    if e.Entry? && e.attempt < MAX_RETRIES && up {
      var single := [Entry(e.p, e.attempt + 1)];
      var parked := Parked(QueueFor(e.attempt + 1), single);
      SumAppend(net.msgs, [parked], Weight);
      SumOne(parked, Weight);
      assert single[..0] == [];
      assert Rounds(single) == RoundsLeft(single[0]);
    }
  }

  /** Splitting a message into singles costs no more than the rounds its elements give up. */
  lemma {:induction false} DispatchMeasure(net: Net, msg: Message, outcomes: seq<Outcome>)
    ensures Measure(DispatchAll(net, msg, outcomes)) <= Measure(net) + Rounds(msg)
  {
    if |msg| > 0 {
      var mid := DispatchAll(net, msg[..|msg| - 1], outcomes);
      DispatchMeasure(net, msg[..|msg| - 1], outcomes);
      DispatchOneMeasure(mid, msg[|msg| - 1], Up(outcomes, |msg| - 1));
    }
  }

  lemma RejectingDecreases(net: Net, m: Move)
    requires Rejecting(m) && Enabled(net, m)
    ensures Measure(Next(net, m)) < Measure(net)
  {
    match m
    case Deliver(i) => SumUpdate(net.msgs, i, net.msgs[i].(place := AtWorker(0)), Weight);
    case Reject(i) => SumUpdate(net.msgs, i, net.msgs[i].(place := DeadLetter), Weight);
    case Expire(i) => SumUpdate(net.msgs, i, net.msgs[i].(place := Main), Weight);
    case Dead(i, outcomes) =>
      SumRemove(net.msgs, i, Weight);
      DispatchMeasure(net.(msgs := Remove(net.msgs, i)), net.msgs[i].msg, outcomes);
  }

  /**
   Against a worker that refuses everything the routing ends: no run of it is longer than the
   measure of its first state, however messages are ordered and whichever publishes fail.
   */
  lemma {:induction false} RejectionEnds(net: Net, moves: seq<Move>)
    requires IsRun(net, moves) && forall i | 0 <= i < |moves| :: Rejecting(moves[i])
    ensures |moves| + Measure(Exec(net, moves)) <= Measure(net)
  {
    if |moves| > 0 {
      RejectionEnds(net, moves[..|moves| - 1]);
      RejectingDecreases(Exec(net, moves[..|moves| - 1]), moves[|moves| - 1]);
    }
  }

  /** Nothing is left to do only when the broker is empty. */
  lemma StuckMeansEmpty(net: Net)
    requires forall m: Move | Rejecting(m) :: !Enabled(net, m)
    ensures net.msgs == []
  {
    if |net.msgs| > 0 {
      var m := match net.msgs[0].place
        case Main => Deliver(0)
        case AtWorker(_) => Reject(0)
        case DeadLetter => Dead(0, [])
        case _ => Expire(0);
      assert Rejecting(m) && Enabled(net, m);
    }
  }

  // ---- The route of a sale ----

  const ROUTE: seq<Stop> := [Sent(Retry5s), Sent(Retry30s), Sent(Retry120s), Terminal]

  /** The stops of one sale, in order. */
  ghost function StopsOf(log: seq<Event>, p: Payload): seq<Stop>
  {
    if |log| == 0 then []
    else
      var last := log[|log| - 1];
      StopsOf(log[..|log| - 1], p) + if last.p == p then [last.stop] else []
  }

  ghost function Count(stops: seq<Stop>, stop: Stop): nat
  {
    if |stops| == 0 then 0
    else Count(stops[..|stops| - 1], stop) + if stops[|stops| - 1] == stop then 1 else 0
  }

  /** The stage of a copy, by its attempt counter: which stop of the route is its next. */
  ghost function Stage(e: Entry): nat
    requires e.Entry?
  {
    if e.attempt < MAX_RETRIES then e.attempt else MAX_RETRIES
  }

  ghost function CountIn(msg: Message, p: Payload, stage: nat): nat
  {
    if |msg| == 0 then 0
    else
      var last := msg[|msg| - 1];
      CountIn(msg[..|msg| - 1], p, stage) + if IsSale(last, p) && Stage(last) == stage then 1 else 0
  }

  ghost function CountFor(p: Payload, stage: nat): Parked -> nat
  {
    (x: Parked) => CountIn(x.msg, p, stage)
  }

  /** How many copies of the sale at this stage the broker holds. */
  ghost function CopiesAt(net: Net, p: Payload, stage: nat): nat
  {
    Sum(net.msgs, CountFor(p, stage))
  }

  ghost function Copies(net: Net, p: Payload): nat
  {
    CopiesAt(net, p, 0) + CopiesAt(net, p, 1) + CopiesAt(net, p, 2) + CopiesAt(net, p, 3)
  }

  /** Its failure is recorded for good. */
  ghost predicate Marked(db: Db, p: Payload)
  {
    exists i | 0 <= i < |db.failures| :: db.failures[i] == QueueRow(p.device, p.uuid, ExceededRetries)
  }

  /** Copies at the four stages in the state a run starts from. */
  type Stages = s: seq<nat> | |s| == 4 witness [0, 0, 0, 0]

  ghost function StartOf(net: Net, p: Payload): Stages
  {
    [CopiesAt(net, p, 0), CopiesAt(net, p, 1), CopiesAt(net, p, 2), CopiesAt(net, p, 3)]
  }

  /** How many copies have come to a stage: those that started there and those sent on to it. */
  ghost function Arrived(stops: seq<Stop>, start: Stages, stage: nat): nat
    requires stage < 4
  {
    start[stage] + if stage == 0 then 0 else Count(stops, ROUTE[stage - 1])
  }

  /** At every point no stop has been made more often than copies had come to the stage before it. */
  ghost predicate InOrder(stops: seq<Stop>, start: Stages)
  {
    && (forall stage | 0 <= stage < 4 :: Count(stops, ROUTE[stage]) <= Arrived(stops, start, stage))
    && (|stops| == 0 || (stops[|stops| - 1] in ROUTE && InOrder(stops[..|stops| - 1], start)))
  }

  // ---- One element ----

  /** The stop this element makes for the sale, if it makes one. */
  ghost function StopMade(e: Entry, up: bool, p: Payload): seq<Stop>
  {
    if IsSale(e, p) && (up || e.attempt >= MAX_RETRIES) then [ROUTE[Stage(e)]] else []
  }

  lemma DispatchStops(net: Net, e: Entry, up: bool, p: Payload)
    ensures StopsOf(Dispatch(net, e, up).log, p) == StopsOf(net.log, p) + StopMade(e, up, p)
  {
    var after := Dispatch(net, e, up);
    if after.log != net.log {
      var event := after.log[|net.log|];
      assert after.log[..|net.log|] == net.log;
      assert event.p == p <==> IsSale(e, p);
    }
  }

  lemma CountSingle(e: Entry, p: Payload, stage: nat)
    ensures CountIn([e], p, stage) == if IsSale(e, p) && Stage(e) == stage then 1 else 0
  {
    assert [e][..0] == [];
  }

  lemma DispatchCopies(net: Net, e: Entry, up: bool, p: Payload, stage: nat)
    ensures CopiesAt(Dispatch(net, e, up), p, stage) == CopiesAt(net, p, stage) +
              if IsSale(e, p) && e.attempt < MAX_RETRIES && up && stage == e.attempt + 1 then 1 else 0
  {
    if e.Entry? && e.attempt < MAX_RETRIES && up {
      var next := Entry(e.p, e.attempt + 1);
      var parked := Parked(QueueFor(e.attempt + 1), [next]);
      assert Dispatch(net, e, up).msgs == net.msgs + [parked];
      SumAppend(net.msgs, [parked], CountFor(p, stage));
      SumOne(parked, CountFor(p, stage));
      CountSingle(next, p, stage);
    }
  }

  lemma DispatchMarks(net: Net, e: Entry, up: bool, p: Payload)
    ensures Marked(net.db, p) ==> Marked(Dispatch(net, e, up).db, p)
    ensures IsSale(e, p) && e.attempt >= MAX_RETRIES && p.device in net.db.devices ==> Marked(Dispatch(net, e, up).db, p)
    ensures Dispatch(net, e, up).db.devices == net.db.devices
  {
    var after := Dispatch(net, e, up);
    if Marked(net.db, p) {
      var i :| 0 <= i < |net.db.failures| && net.db.failures[i] == QueueRow(p.device, p.uuid, ExceededRetries);
      assert after.db.failures[i] == net.db.failures[i];
    }
    if IsSale(e, p) && e.attempt >= MAX_RETRIES && p.device in net.db.devices {
      TerminalLeavesOneMark(net.db, p.device, p.uuid);
    }
  }

  // ---- What flows through the stages ----

  /** Copies at a stage, in the broker or still in `rest`. */
  ghost function Here(net: Net, rest: Message, p: Payload, stage: nat): nat
  {
    CopiesAt(net, p, stage) + CountIn(rest, p, stage)
  }

  /** Copies that came to the stage and neither are there nor made its stop. */
  ghost function Missing(net: Net, rest: Message, p: Payload, stops: seq<Stop>, start: Stages, stage: nat): int
    requires stage < 4
  {
    Arrived(stops, start, stage) - Count(stops, ROUTE[stage]) - Here(net, rest, p, stage)
  }

  ghost predicate NoneMissing(net: Net, rest: Message, p: Payload, stops: seq<Stop>, start: Stages)
  {
    forall stage | 0 <= stage < 4 :: Missing(net, rest, p, stops, start, stage) == 0
  }

  /**
   The account of a sale since the run began, when `past` stops had been made: stops in order, no
   stage overdrawn, and a copy missing exactly when one was `lost`.
   */
  ghost predicate Flow(net: Net, rest: Message, p: Payload, past: seq<Stop>, stops: seq<Stop>, start: Stages, lost: bool)
  {
    && StopsOf(net.log, p) == past + stops && InOrder(stops, start)
    && (forall stage | 0 <= stage < 4 :: Missing(net, rest, p, stops, start, stage) >= 0)
    && (lost <==> !NoneMissing(net, rest, p, stops, start))
    && (Count(stops, Terminal) > 0 && p.device in net.db.devices ==> Marked(net.db, p))
  }

  lemma CountOneMore(stops: seq<Stop>, more: seq<Stop>, stop: Stop)
    requires |more| <= 1
    ensures Count(stops + more, stop) == Count(stops, stop) + if more == [stop] then 1 else 0
  {
    if |more| == 0 {
      assert stops + more == stops;
    } else {
      assert (stops + more)[..|stops|] == stops;
    }
  }

  lemma {:induction false} CountSplit(a: Message, b: Message, p: Payload, stage: nat)
    ensures CountIn(a + b, p, stage) == CountIn(a, p, stage) + CountIn(b, p, stage)
  {
    if |b| == 0 {
      assert a + b == a;
    } else {
      assert (a + b)[..|a + b| - 1] == a + b[..|b| - 1];
      CountSplit(a, b[..|b| - 1], p, stage);
    }
  }

  lemma DispatchHere(net: Net, e: Entry, up: bool, rest: Message, p: Payload, stage: nat)
    ensures Here(Dispatch(net, e, up), rest, p, stage) == Here(net, [e] + rest, p, stage)
              + (if IsSale(e, p) && e.attempt < MAX_RETRIES && up && stage == e.attempt + 1 then 1 else 0)
              - (if IsSale(e, p) && Stage(e) == stage then 1 else 0)
  {
    DispatchCopies(net, e, up, p, stage);
    CountSplit([e], rest, p, stage);
    CountSingle(e, p, stage);
  }

  lemma RouteIsDistinct(i: nat, j: nat)
    requires i < 4 && j < 4
    ensures ROUTE[i] == ROUTE[j] <==> i == j
  {
  }

  lemma StopCounts(e: Entry, up: bool, p: Payload, stops: seq<Stop>, stage: nat)
    requires stage < 4
    ensures Count(stops + StopMade(e, up, p), ROUTE[stage]) == Count(stops, ROUTE[stage]) +
              if IsSale(e, p) && (up || e.attempt >= MAX_RETRIES) && Stage(e) == stage then 1 else 0
  {
    CountOneMore(stops, StopMade(e, up, p), ROUTE[stage]);
    if IsSale(e, p) {
      RouteIsDistinct(Stage(e), stage);
    }
  }

  /** Handling one element leaves every stage's account as it was, or misses the copy whose publish failed. */
  lemma DispatchMissing(net: Net, e: Entry, up: bool, rest: Message, p: Payload, stops: seq<Stop>, start: Stages, stage: nat)
    requires stage < 4
    ensures Missing(Dispatch(net, e, up), rest, p, stops + StopMade(e, up, p), start, stage) ==
              Missing(net, [e] + rest, p, stops, start, stage) +
              if IsSale(e, p) && e.attempt < MAX_RETRIES && !up && stage == e.attempt then 1 else 0
  {
    DispatchHere(net, e, up, rest, p, stage);
    StopCounts(e, up, p, stops, stage);
    if stage > 0 {
      StopCounts(e, up, p, stops, stage - 1);
    }
  }

  lemma InOrderExtends(net: Net, rest: Message, p: Payload, stops: seq<Stop>, more: seq<Stop>, start: Stages)
    requires InOrder(stops, start) && (more == [] || exists stage | 0 <= stage < 4 :: more == [ROUTE[stage]])
    requires forall stage | 0 <= stage < 4 :: Missing(net, rest, p, stops + more, start, stage) >= 0
    ensures InOrder(stops + more, start)
  {
    if more == [] {
      assert stops + more == stops;
    } else {
      assert (stops + more)[..|stops + more| - 1] == stops;
      forall stage | 0 <= stage < 4
        ensures Count(stops + more, ROUTE[stage]) <= Arrived(stops + more, start, stage)
      {
        assert Missing(net, rest, p, stops + more, start, stage) >= 0;
      }
    }
  }

  lemma DispatchLoses(net: Net, e: Entry, up: bool, rest: Message, p: Payload, stops: seq<Stop>, start: Stages)
    requires forall stage | 0 <= stage < 4 :: Missing(net, [e] + rest, p, stops, start, stage) >= 0
    ensures
      var after, stops' := Dispatch(net, e, up), stops + StopMade(e, up, p);
      && (forall stage | 0 <= stage < 4 :: Missing(after, rest, p, stops', start, stage) >= 0)
      && (NoneMissing(after, rest, p, stops', start) <==>
            NoneMissing(net, [e] + rest, p, stops, start) && !(IsSale(e, p) && e.attempt < MAX_RETRIES && !up))
  {
    var after, stops' := Dispatch(net, e, up), stops + StopMade(e, up, p);
    forall stage | 0 <= stage < 4
      ensures Missing(after, rest, p, stops', start, stage) == Missing(net, [e] + rest, p, stops, start, stage) +
                if IsSale(e, p) && e.attempt < MAX_RETRIES && !up && stage == e.attempt then 1 else 0
    {
      DispatchMissing(net, e, up, rest, p, stops, start, stage);
    }
    if IsSale(e, p) && e.attempt < MAX_RETRIES && !up {
      assert Missing(after, rest, p, stops', start, e.attempt) > 0;
    } else {
      assert NoneMissing(after, rest, p, stops', start) <==> NoneMissing(net, [e] + rest, p, stops, start);
    }
  }

  lemma DispatchExtends(net: Net, e: Entry, up: bool, p: Payload, past: seq<Stop>, stops: seq<Stop>)
    requires StopsOf(net.log, p) == past + stops
    ensures StopsOf(Dispatch(net, e, up).log, p) == past + (stops + StopMade(e, up, p))
  {
    DispatchStops(net, e, up, p);
    assert past + stops + StopMade(e, up, p) == past + (stops + StopMade(e, up, p));
  }

  lemma DispatchKeepsMark(net: Net, e: Entry, up: bool, p: Payload, stops: seq<Stop>)
    requires Count(stops, Terminal) > 0 && p.device in net.db.devices ==> Marked(net.db, p)
    ensures
      var after := Dispatch(net, e, up);
      Count(stops + StopMade(e, up, p), Terminal) > 0 && p.device in after.db.devices ==> Marked(after.db, p)
  {
    DispatchMarks(net, e, up, p);
    StopCounts(e, up, p, stops, 3);
  }

  lemma DispatchFlows(net: Net, e: Entry, up: bool, rest: Message, p: Payload, past: seq<Stop>, stops: seq<Stop>, start: Stages, lost: bool)
    requires Flow(net, [e] + rest, p, past, stops, start, lost)
    ensures Flow(Dispatch(net, e, up), rest, p, past, stops + StopMade(e, up, p), start,
                 lost || (IsSale(e, p) && e.attempt < MAX_RETRIES && !up))
  {
    DispatchExtends(net, e, up, p, past, stops);
    DispatchLoses(net, e, up, rest, p, stops, start);
    InOrderExtends(Dispatch(net, e, up), rest, p, stops, StopMade(e, up, p), start);
    DispatchKeepsMark(net, e, up, p, stops);
  }

  lemma OwnArriveStep(msg: Message, outcomes: seq<Outcome>, k: nat, p: Payload)
    requires k < |msg|
    ensures OwnArrive(msg[..k + 1], outcomes, p) <==>
              OwnArrive(msg[..k], outcomes, p) && (IsSale(msg[k], p) && msg[k].attempt < MAX_RETRIES ==> Up(outcomes, k))
  {
    assert forall j | 0 <= j < k :: msg[..k + 1][j] == msg[..k][j];
    assert msg[..k + 1][k] == msg[k];
  }

  lemma {:induction false} DispatchAllFlows(net: Net, msg: Message, outcomes: seq<Outcome>, k: nat, p: Payload,
                                            past: seq<Stop>, stops: seq<Stop>, start: Stages, lost: bool)
    returns (stops': seq<Stop>)
    requires k <= |msg| && Flow(net, msg, p, past, stops, start, lost)
    ensures Flow(DispatchAll(net, msg[..k], outcomes), msg[k..], p, past, stops', start, lost || !OwnArrive(msg[..k], outcomes, p))
  {
    if k == 0 {
      assert msg[0..] == msg;
      stops' := stops;
    } else {
      var before := DispatchAllFlows(net, msg, outcomes, k - 1, p, past, stops, start, lost);
      assert msg[..k][..k - 1] == msg[..k - 1];
      assert msg[k - 1..] == [msg[k - 1]] + msg[k..];
      OwnArriveStep(msg, outcomes, k - 1, p);
      DispatchFlows(DispatchAll(net, msg[..k - 1], outcomes), msg[k - 1], Up(outcomes, k - 1), msg[k..], p, past, before, start,
                    lost || !OwnArrive(msg[..k - 1], outcomes, p));
      stops' := before + StopMade(msg[k - 1], Up(outcomes, k - 1), p);
    }
  }

  // ---- Moves and runs ----

  /** In this move a publish of the sale itself fails. */
  ghost predicate LosesOwn(net: Net, m: Move, p: Payload)
    requires Enabled(net, m)
  {
    m.Dead? && !OwnArrive(net.msgs[m.i].msg, m.outcomes, p)
  }

  lemma SameHereSameFlow(net: Net, rest: Message, net': Net, rest': Message, p: Payload,
                         past: seq<Stop>, stops: seq<Stop>, start: Stages, lost: bool)
    requires Flow(net, rest, p, past, stops, start, lost)
    requires net'.db == net.db && net'.log == net.log
    requires forall stage | 0 <= stage < 4 :: Here(net', rest', p, stage) == Here(net, rest, p, stage)
    ensures Flow(net', rest', p, past, stops, start, lost)
  {
    assert forall stage | 0 <= stage < 4 ::
        Missing(net', rest', p, stops, start, stage) == Missing(net, rest, p, stops, start, stage);
  }

  lemma RelocateFlows(net: Net, i: nat, place: Place, p: Payload, past: seq<Stop>, stops: seq<Stop>, start: Stages, lost: bool)
    requires i < |net.msgs| && Flow(net, [], p, past, stops, start, lost)
    ensures Flow(Relocate(net, i, place), [], p, past, stops, start, lost)
  {
    forall stage | 0 <= stage < 4
      ensures Here(Relocate(net, i, place), [], p, stage) == Here(net, [], p, stage)
    {
      SumUpdate(net.msgs, i, net.msgs[i].(place := place), CountFor(p, stage));
    }
    SameHereSameFlow(net, [], Relocate(net, i, place), [], p, past, stops, start, lost);
  }

  lemma DeadFlows(net: Net, i: nat, outcomes: seq<Outcome>, p: Payload, past: seq<Stop>, stops: seq<Stop>, start: Stages, lost: bool)
    returns (stops': seq<Stop>)
    requires Enabled(net, Dead(i, outcomes)) && Flow(net, [], p, past, stops, start, lost)
    ensures Flow(Next(net, Dead(i, outcomes)), [], p, past, stops', start, lost || LosesOwn(net, Dead(i, outcomes), p))
  {
    var rest, msg := net.(msgs := Remove(net.msgs, i)), net.msgs[i].msg;
    forall stage | 0 <= stage < 4
      ensures Here(rest, msg, p, stage) == Here(net, [], p, stage)
    {
      SumRemove(net.msgs, i, CountFor(p, stage));
    }
    SameHereSameFlow(net, [], rest, msg, p, past, stops, start, lost);
    stops' := DispatchAllFlows(rest, msg, outcomes, |msg|, p, past, stops, start, lost);
    assert msg[..|msg|] == msg && msg[|msg|..] == [];
  }

  lemma MoveFlows(net: Net, m: Move, p: Payload, past: seq<Stop>, stops: seq<Stop>, start: Stages, lost: bool)
    returns (stops': seq<Stop>)
    requires Rejecting(m) && Enabled(net, m) && Flow(net, [], p, past, stops, start, lost)
    ensures Flow(Next(net, m), [], p, past, stops', start, lost || LosesOwn(net, m, p))
  {
    stops' := stops;
    match m
    case Deliver(i) => RelocateFlows(net, i, AtWorker(0), p, past, stops, start, lost);
    case Reject(i) => RelocateFlows(net, i, DeadLetter, p, past, stops, start, lost);
    case Expire(i) => RelocateFlows(net, i, Main, p, past, stops, start, lost);
    case Dead(i, outcomes) => stops' := DeadFlows(net, i, outcomes, p, past, stops, start, lost);
  }

  /** From any state: the account of the whole run, with a copy missing exactly if an own publish failed. */
  lemma {:induction false} RunFlows(net: Net, moves: seq<Move>, p: Payload) returns (stops: seq<Stop>)
    requires IsRun(net, moves) && forall i | 0 <= i < |moves| :: Rejecting(moves[i])
    ensures Flow(Exec(net, moves), [], p, StopsOf(net.log, p), stops, StartOf(net, p), !OwnPublishesArrive(net, moves, p))
  {
    if |moves| == 0 {
      stops := [];
      assert StopsOf(net.log, p) + [] == StopsOf(net.log, p);
    } else {
      var init := moves[..|moves| - 1];
      var before := RunFlows(net, init, p);
      stops := MoveFlows(Exec(net, init), moves[|moves| - 1], p, StopsOf(net.log, p), before, StartOf(net, p),
                         !OwnPublishesArrive(net, init, p));
    }
  }

  /** The stops of the sale that a run has added. */
  ghost function StopsSince(net: Net, moves: seq<Move>, p: Payload): seq<Stop>
    requires IsRun(net, moves)
  {
    var past, now := StopsOf(net.log, p), StopsOf(Exec(net, moves).log, p);
    if |past| <= |now| then now[|past|..] else []
  }

  lemma FlowSince(net: Net, moves: seq<Move>, p: Payload)
    requires IsRun(net, moves) && forall i | 0 <= i < |moves| :: Rejecting(moves[i])
    ensures Flow(Exec(net, moves), [], p, StopsOf(net.log, p), StopsSince(net, moves, p), StartOf(net, p),
                 !OwnPublishesArrive(net, moves, p))
  {
    var stops := RunFlows(net, moves, p);
    assert StopsOf(Exec(net, moves).log, p)[|StopsOf(net.log, p)|..] == stops;
  }

  /**
   From any state of the network, with any number of copies of a sale at any attempts, whichever
   publishes fail: the copies go through the 5 s, 30 s and 120 s queues in this order and then to
   the record, at every point in the history no stop more often than copies came to it; and the
   copies left and the copies recorded make up those at the start exactly when the sale's own
   publishes arrived.
   */
  lemma RouteOfARefusedSale(net: Net, moves: seq<Move>, p: Payload)
    requires IsRun(net, moves) && forall i | 0 <= i < |moves| :: Rejecting(moves[i])
    ensures StopsOf(Exec(net, moves).log, p) == StopsOf(net.log, p) + StopsSince(net, moves, p)
    ensures InOrder(StopsSince(net, moves, p), StartOf(net, p))
    ensures Copies(Exec(net, moves), p) + Count(StopsSince(net, moves, p), Terminal) <= Copies(net, p)
    ensures Copies(Exec(net, moves), p) + Count(StopsSince(net, moves, p), Terminal) == Copies(net, p) <==>
              OwnPublishesArrive(net, moves, p)
  {
    FlowSince(net, moves, p);
    MissingAddUp(Exec(net, moves), p, StopsSince(net, moves, p), net);
  }

  lemma MissingAddUp(now: Net, p: Payload, stops: seq<Stop>, net: Net)
    ensures
      var start := StartOf(net, p);
      Copies(net, p) - Copies(now, p) - Count(stops, Terminal) ==
        Missing(now, [], p, stops, start, 0) + Missing(now, [], p, stops, start, 1) +
        Missing(now, [], p, stops, start, 2) + Missing(now, [], p, stops, start, 3)
  {
  }

  /** Fresh copies only: the four stops in falling number, none more often than there were copies. */
  lemma RouteOfFreshCopies(net: Net, moves: seq<Move>, p: Payload)
    requires IsRun(net, moves) && forall i | 0 <= i < |moves| :: Rejecting(moves[i])
    requires CopiesAt(net, p, 0) == Copies(net, p)
    ensures
      var stops := StopsSince(net, moves, p);
      Copies(net, p) >= Count(stops, ROUTE[0]) >= Count(stops, ROUTE[1]) >= Count(stops, ROUTE[2]) >= Count(stops, ROUTE[3])
  {
    RouteOfARefusedSale(net, moves, p);
    var stops, start := StopsSince(net, moves, p), StartOf(net, p);
    assert forall stage | 0 <= stage < 4 :: Count(stops, ROUTE[stage]) <= Arrived(stops, start, stage);
  }

  lemma {:induction false} PrefixCounts(stops: seq<Stop>, stage: nat)
    requires stops <= ROUTE && stage < 4
    ensures Count(stops, ROUTE[stage]) == if stage < |stops| then 1 else 0
  {
    if |stops| > 0 {
      PrefixCounts(stops[..|stops| - 1], stage);
    }
  }

  /** A copy that starts at the first stage, and no other. */
  const ONE_FRESH: Stages := [1, 0, 0, 0]

  lemma CountsInOrder(stops: seq<Stop>, start: Stages, stage: nat)
    requires InOrder(stops, start) && stage < 4
    ensures Count(stops, ROUTE[stage]) <= start[stage] + if stage == 0 then 0 else Count(stops, ROUTE[stage - 1])
  {
    assert Count(stops, ROUTE[stage]) <= Arrived(stops, start, stage);
  }

  lemma NextOnRoute(init: seq<Stop>, stage: nat)
    requires init <= ROUTE && stage < 4 && InOrder(init + [ROUTE[stage]], ONE_FRESH)
    ensures stage == |init|
  {
    CountsInOrder(init + [ROUTE[stage]], ONE_FRESH, stage);
    PrefixCounts(init, stage);
    CountOneMore(init, [ROUTE[stage]], ROUTE[stage]);
    if stage > 0 {
      PrefixCounts(init, stage - 1);
      CountOneMore(init, [ROUTE[stage]], ROUTE[stage - 1]);
    }
  }

  lemma LastInOrder(stops: seq<Stop>, start: Stages) returns (init: seq<Stop>, stage: nat)
    requires InOrder(stops, start) && |stops| > 0
    ensures InOrder(init, start) && stage < 4 && stops == init + [ROUTE[stage]]
  {
    init := stops[..|stops| - 1];
    var last :| 0 <= last < 4 && ROUTE[last] == stops[|stops| - 1];
    stage := last;
  }

  lemma RouteGrows(init: seq<Stop>)
    requires init <= ROUTE && |init| < 4
    ensures init + [ROUTE[|init|]] <= ROUTE
  {
    assert ROUTE[..|init| + 1] == ROUTE[..|init|] + [ROUTE[|init|]];
  }

  /** Stops in order for one fresh copy are a prefix of the route. */
  lemma {:induction false} SingleInOrder(stops: seq<Stop>)
    requires InOrder(stops, ONE_FRESH)
    ensures stops <= ROUTE
  {
    if |stops| > 0 {
      var init, stage := LastInOrder(stops, ONE_FRESH);
      SingleInOrder(init);
      NextOnRoute(init, stage);
      RouteGrows(init);
    }
  }

  lemma TerminalEndsRoute(stops: seq<Stop>)
    requires stops <= ROUTE
    ensures Count(stops, Terminal) == 1 <==> stops == ROUTE
    ensures Count(stops, Terminal) <= 1
  {
    PrefixCounts(stops, 3);
  }

  /**
   One fresh copy: the sale visits the 5 s, 30 s and 120 s queues in this order, each at most once,
   and then its failure is recorded; and no copy is left exactly when it has completed that route
   or one of its own publishes failed.
   */
  lemma RouteOfOneCopy(net: Net, moves: seq<Move>, p: Payload)
    requires IsRun(net, moves) && forall i | 0 <= i < |moves| :: Rejecting(moves[i])
    requires CopiesAt(net, p, 0) == Copies(net, p) == 1
    ensures StopsSince(net, moves, p) <= ROUTE
    ensures Copies(Exec(net, moves), p) <= 1
    ensures Copies(Exec(net, moves), p) == 0 <==>
              StopsSince(net, moves, p) == ROUTE || !OwnPublishesArrive(net, moves, p)
    ensures StopsSince(net, moves, p) == ROUTE ==> OwnPublishesArrive(net, moves, p)
  {
    RouteOfARefusedSale(net, moves, p);
    assert StartOf(net, p) == ONE_FRESH;
    SingleInOrder(StopsSince(net, moves, p));
    TerminalEndsRoute(StopsSince(net, moves, p));
  }

  /** Every stage has been left by all copies that started at it or before it. */
  ghost predicate AllWentThrough(stops: seq<Stop>, start: Stages)
  {
    && Count(stops, Sent(Retry5s)) == start[0]
    && Count(stops, Sent(Retry30s)) == start[0] + start[1]
    && Count(stops, Sent(Retry120s)) == start[0] + start[1] + start[2]
    && Count(stops, Terminal) == start[0] + start[1] + start[2] + start[3]
  }

  lemma WentThroughIff(net: Net, p: Payload, past: seq<Stop>, stops: seq<Stop>, start: Stages, lost: bool)
    requires net.msgs == [] && Flow(net, [], p, past, stops, start, lost)
    ensures AllWentThrough(stops, start) <==> !lost
  {
    assert forall stage | 0 <= stage < 4 ::
        Missing(net, [], p, stops, start, stage) == Arrived(stops, start, stage) - Count(stops, ROUTE[stage]);
    assert Missing(net, [], p, stops, start, 0) == start[0] - Count(stops, ROUTE[0]);
    assert Missing(net, [], p, stops, start, 1) == start[1] + Count(stops, ROUTE[0]) - Count(stops, ROUTE[1]);
    assert Missing(net, [], p, stops, start, 2) == start[2] + Count(stops, ROUTE[1]) - Count(stops, ROUTE[2]);
    assert Missing(net, [], p, stops, start, 3) == start[3] + Count(stops, ROUTE[2]) - Count(stops, ROUTE[3]);
  }

  /**
   A run that cannot be continued, from any state: all copies have gone through all stages before
   them exactly when the sale's own publishes arrived; and then, if there was any copy and the
   device is known, SyncQueue says that the sale's retries are exhausted.
   */
  lemma RefusedSaleEndsRecorded(net: Net, moves: seq<Move>, p: Payload)
    requires IsRun(net, moves) && forall i | 0 <= i < |moves| :: Rejecting(moves[i])
    requires forall m: Move | Rejecting(m) :: !Enabled(Exec(net, moves), m)
    ensures AllWentThrough(StopsSince(net, moves, p), StartOf(net, p)) <==> OwnPublishesArrive(net, moves, p)
    ensures OwnPublishesArrive(net, moves, p) && Copies(net, p) > 0 && p.device in net.db.devices ==>
              Marked(Exec(net, moves).db, p)
  {
    StuckMeansEmpty(Exec(net, moves));
    FlowSince(net, moves, p);
    WentThroughIff(Exec(net, moves), p, StopsOf(net.log, p), StopsSince(net, moves, p), StartOf(net, p),
                   !OwnPublishesArrive(net, moves, p));
    DevicesStay(net, moves);
  }

  // ---- Queues and counters ----

  /** In a delay queue lie single sales, and the queue is the one of their attempt. */
  ghost predicate InOwnQueue(x: Parked)
  {
    && (x.place == Retry5s ==> |x.msg| == 1 && x.msg[0].Entry? && x.msg[0].attempt == 1)
    && (x.place == Retry30s ==> |x.msg| == 1 && x.msg[0].Entry? && x.msg[0].attempt == 2)
    && (x.place == Retry120s ==> |x.msg| == 1 && x.msg[0].Entry? && x.msg[0].attempt == 3)
  }

  ghost predicate QueuesMatch(msgs: seq<Parked>)
  {
    forall i | 0 <= i < |msgs| :: InOwnQueue(msgs[i])
  }

  lemma {:induction false} DispatchAllMatches(net: Net, msg: Message, outcomes: seq<Outcome>)
    requires QueuesMatch(net.msgs)
    ensures QueuesMatch(DispatchAll(net, msg, outcomes).msgs)
  {
    if |msg| > 0 {
      DispatchAllMatches(net, msg[..|msg| - 1], outcomes);
    }
  }

  lemma MoveMatches(net: Net, m: Move)
    requires Enabled(net, m) && QueuesMatch(net.msgs)
    ensures QueuesMatch(Next(net, m).msgs)
  {
    match m
    case Dead(i, outcomes) => DispatchAllMatches(net.(msgs := Remove(net.msgs, i)), net.msgs[i].msg, outcomes);
    case DeadCrash(i, k, outcomes) => DispatchAllMatches(net, net.msgs[i].msg[..k], outcomes);
    case _ =>
  }

  /** Over any run of the network the delay a sale is under is the one of its attempt. */
  lemma {:induction false} DelaysMatchAttempts(net: Net, moves: seq<Move>)
    requires IsRun(net, moves) && QueuesMatch(net.msgs)
    ensures QueuesMatch(Exec(net, moves).msgs)
  {
    if |moves| > 0 {
      DelaysMatchAttempts(net, moves[..|moves| - 1]);
      MoveMatches(Exec(net, moves[..|moves| - 1]), moves[|moves| - 1]);
    }
  }

  /** Copies of the sale that the first `k` elements have put into the queue of a stage. */
  ghost function SentTo(msg: Message, outcomes: seq<Outcome>, k: nat, p: Payload, stage: nat): nat
    requires k <= |msg|
  {
    if k == 0 then 0
    else
      SentTo(msg, outcomes, k - 1, p, stage) +
      if IsSale(msg[k - 1], p) && msg[k - 1].attempt + 1 == stage <= MAX_RETRIES && Up(outcomes, k - 1) then 1 else 0
  }

  lemma {:induction false} DispatchAllCopies(net: Net, msg: Message, outcomes: seq<Outcome>, k: nat, p: Payload, stage: nat)
    requires k <= |msg|
    ensures CopiesAt(DispatchAll(net, msg[..k], outcomes), p, stage) == CopiesAt(net, p, stage) + SentTo(msg, outcomes, k, p, stage)
  {
    if k > 0 {
      assert msg[..k][..k - 1] == msg[..k - 1];
      DispatchAllCopies(net, msg, outcomes, k - 1, p, stage);
      DispatchCopies(DispatchAll(net, msg[..k - 1], outcomes), msg[k - 1], Up(outcomes, k - 1), p, stage);
    }
  }

  /**
   A dead-letter consumer that dies after `k` elements leaves its message where it was and has
   duplicated exactly the copies it had sent on; one that finishes has moved them.
   */
  lemma CrashDuplicatesWhatWasSent(net: Net, i: nat, k: nat, outcomes: seq<Outcome>, p: Payload, stage: nat)
    requires i < |net.msgs| && net.msgs[i].place == DeadLetter && k <= |net.msgs[i].msg|
    ensures Enabled(net, DeadCrash(i, k, outcomes)) && Enabled(net, Dead(i, outcomes))
    ensures
      var msg := net.msgs[i].msg;
      && net.msgs <= Next(net, DeadCrash(i, k, outcomes)).msgs
      && CopiesAt(Next(net, DeadCrash(i, k, outcomes)), p, stage) == CopiesAt(net, p, stage) + SentTo(msg, outcomes, k, p, stage)
      && CopiesAt(Next(net, Dead(i, outcomes)), p, stage) ==
           CopiesAt(net, p, stage) + SentTo(msg, outcomes, |msg|, p, stage) - CountIn(msg, p, stage)
  {
    var msg := net.msgs[i].msg;
    DispatchAllCopies(net, msg, outcomes, k, p, stage);
    DispatchAllEvolves(net, msg[..k], outcomes);
    var rest := net.(msgs := Remove(net.msgs, i));
    SumRemove(net.msgs, i, CountFor(p, stage));
    DispatchAllCopies(rest, msg, outcomes, |msg|, p, stage);
    assert msg[..|msg|] == msg;
  }
}
