/**
 `sync.service.ts`: the payload-hash guard in front of the queue, and the status report.
 */
module SyncService {
  import opened Schema
  import opened Operations
  import opened Evolution
  import opened Invariants
  import opened ExactlyOnce
  import opened Tables

  // ---- The guard ----

  function HashOf(p: Payload): PayloadHash
  {
    Sha256(p.items, p.payment)
  }

  /** The first stored row among those fetched for this device that bears the identifier. */
  function FindStored(txs: seq<Transaction>, device: DeviceId, uuid: Uuid): (r: Option<TxId>)
    ensures r.Some? ==> r.value < |txs| && txs[r.value].device == device && txs[r.value].uuid == Some(uuid)
    ensures r.None? <==> !Stored(txs, device, uuid)
  {
    if |txs| == 0 then None
    else
      var n := |txs| - 1;
      match FindStored(txs[..n], device, uuid)
      case Some(t) => Some(t)
      case None =>
        assert forall t | 0 <= t < n :: txs[t] == txs[..n][t];
        if txs[n].device == device && txs[n].uuid == Some(uuid) then Some(n) else None
  }

  ghost predicate UniqueUuids(txs: seq<Transaction>)
  {
    forall s, t | 0 <= s < t < |txs| :: txs[s].uuid.Some? ==> txs[s].uuid != txs[t].uuid
  }

  /** Some row stored for the device under this identifier has another hash. */
  ghost predicate HashMismatch(txs: seq<Transaction>, device: DeviceId, p: Payload)
  {
    exists t | 0 <= t < |txs| ::
      txs[t].device == device && txs[t].uuid == Some(p.uuid) && txs[t].hash != Some(HashOf(p))
  }

  /** All or nothing: one mismatch rejects the batch; otherwise each sale leaves with its hash. */
  method ValidateBatch(db: Database, device: DeviceId, batch: seq<Payload>) returns (stamped: Option<seq<Payload>>)
    requires UniqueUuids(db.txs)
    ensures stamped.None? <==> exists i | 0 <= i < |batch| :: HashMismatch(db.txs, device, batch[i])
    ensures stamped.Some? ==> |stamped.value| == |batch|
    ensures stamped.Some? ==> forall i | 0 <= i < |batch| :: stamped.value[i] == batch[i].(hash := Some(HashOf(batch[i])))
  {
    var out := batch;
    var k := 0;
    while k < |batch|
      invariant 0 <= k <= |batch| == |out|
      invariant forall i | 0 <= i < k :: out[i] == batch[i].(hash := Some(HashOf(batch[i])))
      invariant forall i | k <= i < |batch| :: out[i] == batch[i]
      invariant forall i | 0 <= i < k :: !HashMismatch(db.txs, device, batch[i])
    {
      var hash := HashOf(batch[k]);
      out := out[k := out[k].(hash := Some(hash))];
      var existing := FindStored(db.txs, device, batch[k].uuid);
      if existing.Some? && db.txs[existing.value].hash != Some(hash) {
        assert HashMismatch(db.txs, device, batch[k]);
        return None;
      }
      k := k + 1;
    }
    return Some(out);
  }

  /** The payload bears the hash of its own lines and payment. */
  ghost predicate Stamped(p: Payload)
  {
    p.hash == Some(HashOf(p))
  }

  /** What a payment row keeps of the payment as it was sent. */
  ghost function PaymentOf(pay: Payment): PaymentDto
  {
    PaymentDto(pay.amount, pay.payMethod, pay.details)
  }

  /** Stored hashes are those of the stored lines and payment. */
  ghost predicate HashesTell(db: Db)
  {
    |db.payments| == |db.txs| &&
    forall t | 0 <= t < |db.txs| :: db.txs[t].uuid.Some? ==>
      db.txs[t].hash == Some(Sha256(db.txs[t].items, PaymentOf(db.payments[t])))
  }

  /** Rows that stay keep their hash, lines and payment. */
  lemma HashesStay(a: Db, b: Db)
    requires HashesTell(a) && Evolves(a, b) && |b.payments| == |b.txs|
    requires forall t | |a.txs| <= t < |b.txs| :: b.txs[t].uuid.None?
    ensures HashesTell(b)
  {
    forall t | 0 <= t < |b.txs| && b.txs[t].uuid.Some?
      ensures b.txs[t].hash == Some(Sha256(b.txs[t].items, PaymentOf(b.payments[t])))
    {
      assert TxEvolves(a.txs[t], b.txs[t]) && PaymentEvolves(a.payments[t], b.payments[t]);
    }
  }

  lemma OnlySyncAddsUuids(db: Db, s: Step)
    requires PaymentInv(db.txs, db.payments) && !s.Sync?
    ensures forall t | |db.txs| <= t < |Apply(db, s).txs| :: Apply(db, s).txs[t].uuid.None?
    ensures |Apply(db, s).payments| == |Apply(db, s).txs|
  {
    if Quiet(s) {
      QuietSteps(db, s);
    } else if s.Correct? && Try(db, s).Success? {
      PaymentAt(db.txs, db.payments, FindOne(db.txs, s.key).value);
    }
  }

  lemma HashesStep(db: Db, s: Step)
    requires HashesTell(db) && PaymentInv(db.txs, db.payments)
    requires s.Sync? ==> Stamped(s.p)
    ensures HashesTell(Apply(db, s))
  {
    if !s.Sync? {
      StepEvolves(db, s);
      OnlySyncAddsUuids(db, s);
      HashesStay(db, Apply(db, s));
    }
  }

  lemma {:induction false} RunHashes(db: Db, steps: seq<Step>)
    requires Initial(db)
    requires forall i | 0 <= i < |steps| :: steps[i].Sync? ==> Stamped(steps[i].p)
    ensures HashesTell(Run(db, steps))
  {
    if |steps| > 0 {
      var init := steps[..|steps| - 1];
      RunHashes(db, init);
      RunKeeps(db, init);
      HashesStep(Run(db, init), steps[|steps| - 1]);
    }
  }

  /** The sale is stored for the device with other lines or another payment. */
  ghost predicate StoredDifferently(db: Db, device: DeviceId, p: Payload)
  {
    exists t | 0 <= t < |db.txs| && t < |db.payments| ::
      db.txs[t].device == device && db.txs[t].uuid == Some(p.uuid) &&
      !(db.txs[t].items == p.items && PaymentOf(db.payments[t]) == p.payment)
  }

  /**
   In every state reached by stamped deliveries, the guard objects to a payload exactly when the
   same identifier is already stored for the device with different lines or payment.
   */
  lemma GuardIsExact(db: Db, steps: seq<Step>, device: DeviceId, p: Payload)
    requires Initial(db)
    requires forall i | 0 <= i < |steps| :: steps[i].Sync? ==> Stamped(steps[i].p)
    ensures HashMismatch(Run(db, steps).txs, device, p) <==> StoredDifferently(Run(db, steps), device, p)
  {
    RunHashes(db, steps);
    var now := Run(db, steps);
    if HashMismatch(now.txs, device, p) {
      var t :| 0 <= t < |now.txs| && now.txs[t].device == device && now.txs[t].uuid == Some(p.uuid) && now.txs[t].hash != Some(HashOf(p));
      assert t < |now.payments|;
    }
  }

  // ---- The report ----

  datatype Reported = UNKNOWN | FAILED | CONFLICT | SYNCED

  predicate Noted(failures: seq<QueueRow>, uuid: Uuid)
  {
    exists i | 0 <= i < |failures| :: failures[i].uuid == uuid
  }

  /** A stored sale takes precedence over any failure note. */
  function Report(db: Db, uuid: Uuid): Reported
  {
    match FindOne(db.txs, ByUuid(uuid))
    case Some(t) => if db.txs[t].sync == SYNC_CONFLICT then CONFLICT else Reported.SYNCED
    case None => if Noted(db.failures, uuid) then Reported.FAILED else UNKNOWN
  }

  /** The oldest row bearing the identifier. */
  ghost predicate FirstBearing(txs: seq<Transaction>, uuid: Uuid, t: TxId)
  {
    t < |txs| && txs[t].uuid == Some(uuid) && forall s | 0 <= s < t :: txs[s].uuid != Some(uuid)
  }

  /** What each answer says about the tables; there is no fifth, and no two go together. */
  lemma ReportMeans(db: Db, uuid: Uuid)
    ensures Report(db, uuid) == Reported.SYNCED <==> exists t: TxId :: FirstBearing(db.txs, uuid, t) && db.txs[t].sync != SYNC_CONFLICT
    ensures Report(db, uuid) == CONFLICT <==> exists t: TxId :: FirstBearing(db.txs, uuid, t) && db.txs[t].sync == SYNC_CONFLICT
    ensures Report(db, uuid) == Reported.FAILED <==>
              (forall t | 0 <= t < |db.txs| :: db.txs[t].uuid != Some(uuid)) &&
              exists i | 0 <= i < |db.failures| :: db.failures[i].uuid == uuid
    ensures Report(db, uuid) == UNKNOWN <==>
              (forall t | 0 <= t < |db.txs| :: db.txs[t].uuid != Some(uuid)) &&
              (forall i | 0 <= i < |db.failures| :: db.failures[i].uuid != uuid)
  {
    var found := FindOne(db.txs, ByUuid(uuid));
    if found.Some? {
      FirstIs(db.txs, uuid, found.value);
    } else {
      forall t | 0 <= t < |db.txs|
        ensures db.txs[t].uuid != Some(uuid)
      {
        assert !Matches(db.txs, t, ByUuid(uuid));
      }
    }
  }

  lemma FirstIs(txs: seq<Transaction>, uuid: Uuid, t: TxId)
    requires t < |txs|
    ensures FirstBearing(txs, uuid, t) <==> FindOne(txs, ByUuid(uuid)) == Some(t)
    ensures FirstBearing(txs, uuid, t) ==> forall s: TxId | FirstBearing(txs, uuid, s) :: s == t
  {
    assert forall s: TxId | s < |txs| :: Matches(txs, s, ByUuid(uuid)) <==> txs[s].uuid == Some(uuid);
  }

  /**
   What the device is told after each outcome of a delivery: a stored sale is told as it was
   stored, a sale skipped or rejected because of an earlier one as that one stands, and any other
   rejection is a failure if the device is known.
   */
  lemma ReportAfter(db: Db, p: Payload)
    requires db.active.Keys == db.stock.Keys
    ensures
      var told := Report(HandleOne(db, p), p.uuid);
      match OutcomeOf(db, p)
      case Skipped => told == Report(db, p.uuid) && (told == CONFLICT || told == Reported.SYNCED)
      case StoredConfirmed => told == Reported.SYNCED
      case StoredConflict => told == CONFLICT
      case Rejected =>
        if UuidBorne(db, p) then told == Report(db, p.uuid) && (told == CONFLICT || told == Reported.SYNCED)
        else if p.device in db.devices then told == Reported.FAILED
        else told == Report(db, p.uuid)
  {
    var after := HandleOne(db, p);
    Classification(db, p);
    if OutcomeOf(db, p) == StoredConfirmed || OutcomeOf(db, p) == StoredConflict {
      StoredIsTold(db, after, p);
    } else {
      assert after.txs == db.txs;
      if UuidBorne(db, p) {
        BorneIsTold(db, after, p);
      } else if p.device in db.devices {
        NotedIsTold(db, after, p);
      }
    }
  }

  lemma StoredIsTold(db: Db, after: Db, p: Payload)
    requires !UuidBorne(db, p) && |after.txs| == |db.txs| + 1 && db.txs <= after.txs
    requires after.txs[|db.txs|].uuid == Some(p.uuid)
    ensures Report(after, p.uuid) == if after.txs[|db.txs|].sync == SYNC_CONFLICT then CONFLICT else Reported.SYNCED
  {
    assert forall s | 0 <= s < |db.txs| :: after.txs[s] == db.txs[s];
    FirstIs(after.txs, p.uuid, |db.txs|);
  }

  lemma NotedIsTold(db: Db, after: Db, p: Payload)
    requires after.txs == db.txs && !UuidBorne(db, p) && OneMoreFailure(db, after, p)
    ensures Report(after, p.uuid) == Reported.FAILED
  {
    assert after.failures[|db.failures|].uuid == p.uuid;
    assert forall t: TxId | t < |after.txs| :: !Matches(after.txs, t, ByUuid(p.uuid));
  }

  lemma BorneIsTold(db: Db, after: Db, p: Payload)
    requires after.txs == db.txs && UuidBorne(db, p)
    ensures Report(after, p.uuid) == Report(db, p.uuid)
    ensures Report(db, p.uuid) == CONFLICT || Report(db, p.uuid) == Reported.SYNCED
  {
    var t :| 0 <= t < |db.txs| && db.txs[t].uuid.Some? && db.txs[t].uuid.value == p.uuid;
    assert Matches(db.txs, t, ByUuid(p.uuid));
  }

  function Rank(r: Reported): nat
  {
    match r
    case UNKNOWN => 0
    case FAILED => 1
    case CONFLICT => 2
    case SYNCED => 3
  }

  lemma ReportRises(a: Db, b: Db, uuid: Uuid)
    requires Evolves(a, b)
    ensures Rank(Report(a, uuid)) <= Rank(Report(b, uuid))
  {
    var found := FindOne(a.txs, ByUuid(uuid));
    if found.Some? {
      forall t: TxId | t <= found.value
        ensures Matches(b.txs, t, ByUuid(uuid)) == Matches(a.txs, t, ByUuid(uuid))
      {
        assert TxEvolves(a.txs[t], b.txs[t]);
      }
      assert Matches(b.txs, found.value, ByUuid(uuid));
      assert FindOne(b.txs, ByUuid(uuid)) == found;
      assert TxEvolves(a.txs[found.value], b.txs[found.value]);
    } else if Noted(a.failures, uuid) {
      var i :| 0 <= i < |a.failures| && a.failures[i].uuid == uuid;
      assert b.failures[i].uuid == uuid;
    }
  }

  /**
   The reported status of a sale never goes backwards over any run, also when failure notes are
   written for a sale that is already stored.
   */
  lemma ReportNeverGoesBack(db: Db, later: seq<Step>, uuid: Uuid)
    ensures Rank(Report(db, uuid)) <= Rank(Report(Run(db, later), uuid))
  {
    RunEvolves(db, later);
    ReportRises(db, Run(db, later), uuid);
  }

  ghost predicate SameReports(a: Db, b: Db)
  {
    forall u: Uuid :: Report(a, u) == Report(b, u)
  }

  /** The report reads identifiers, sync statuses and failure notes, and nothing else. */
  lemma ReportsStay(a: Db, b: Db)
    requires |a.txs| == |b.txs| && a.failures == b.failures
    requires forall t | 0 <= t < |a.txs| :: b.txs[t].uuid == a.txs[t].uuid && b.txs[t].sync == a.txs[t].sync
    ensures SameReports(a, b)
  {
    forall u: Uuid
      ensures Report(a, u) == Report(b, u)
    {
      assert forall t: TxId | t < |a.txs| :: Matches(a.txs, t, ByUuid(u)) == Matches(b.txs, t, ByUuid(u));
      assert FindOne(a.txs, ByUuid(u)) == FindOne(b.txs, ByUuid(u));
    }
  }

  /** A delivery from a known device always leaves something to report. */
  lemma HandledIsReported(db: Db, p: Payload)
    requires p.device in db.devices
    ensures Report(HandleOne(db, p), p.uuid) != UNKNOWN
  {
    var after := HandleOne(db, p);
    if !Stored(db.txs, p.device, p.uuid) && ProcessTransaction(db, p).Success? {
      assert after.txs[|db.txs|].uuid == Some(p.uuid);
    }
    if UuidTaken(after.txs, p.uuid) {
      var t :| 0 <= t < |after.txs| && after.txs[t].uuid == Some(p.uuid);
      assert Matches(after.txs, t, ByUuid(p.uuid));
    } else {
      assert after.failures[|db.failures|].uuid == p.uuid;
    }
  }
}
