/**
 Sweepers and immediate publishers over one outbox table, as interleaved steps.
 A claimant's batch goes through: locked in an open claim transaction, committed and
 being published, finalized. It may roll back before the commit and crash after it.
 */
module OutboxProtocol {
  import opened Prelude
  import opened Selection
  import opened Outbox
  import Sums

  type Claimant = nat

  const MAX_ATTEMPTS: nat := 5

  /** Crashed batches are kept: nothing ever takes their rows over. */
  datatype Stage = Claiming | Publishing | Crashed | Immediate(at: Time)

  datatype Batch = Batch(stage: Stage, ids: set<OutboxId>, results: map<OutboxId, Result>)

  /** A row a publisher has inserted and claimed in its open transaction; nobody else sees it yet. */
  datatype OpenInsert = OpenInsert(id: OutboxId, event: EventId, at: Time)

  datatype System = System(
    clock: Time, rows: Table, batches: map<Claimant, Batch>, inserts: map<Claimant, OpenInsert>)

  datatype Step =
    | Tick(time: Time)
    | Add(id: OutboxId, event: EventId, createdAt: Time)
    | SweepClaim(t: Claimant, now: Time, limit: nat, chosen: set<OutboxId>)
    | SweepCommit(t: Claimant)
    | SweepPublish(t: Claimant, id: OutboxId, p: Publish)
    | SweepFinalize(t: Claimant)
    | SweepCrash(t: Claimant)
    | ImmediateClaim(t: Claimant, id: OutboxId, now: Time)
    | ImmediateCommit(t: Claimant, delivered: bool, error: string)
    | Rollback(t: Claimant)
    | InsertClaim(t: Claimant, id: OutboxId, event: EventId, now: Time)
    | InsertCommit(t: Claimant, delivered: bool, error: string)
    | InsertRollback(t: Claimant)

  const INIT := System(0, map[], map[], map[])

  /** Neither the table nor an open transaction has the id or the event; an insert of the same event would wait. */
  predicate Insertable(s: System, id: OutboxId, event: EventId) {
    && id !in s.rows && (forall k | k in s.rows :: s.rows[k].eventId != event)
    && forall t | t in s.inserts :: s.inserts[t].id != id && s.inserts[t].event != event
  }

  predicate HoldsLocks(b: Batch) {
    b.stage.Claiming? || b.stage.Immediate?
  }

  /** Rows an open transaction has locked: SKIP LOCKED passes over them, a single-row claim waits for them. */
  function Locked(s: System): set<OutboxId> {
    set t, id | t in s.batches && HoldsLocks(s.batches[t]) && id in s.batches[t].ids :: id
  }

  predicate At(s: System, t: Claimant, stage: Stage) {
    t in s.batches && s.batches[t].stage == stage
  }

  predicate Enabled(s: System, step: Step) {
    match step
    case Tick(time) => s.clock <= time
    case Add(id, event, _) => Insertable(s, id, event)
    case SweepClaim(t, now, limit, chosen) =>
      t !in s.batches && now <= s.clock && IsClaim(s.rows, now, limit, MAX_ATTEMPTS, Locked(s), chosen)
    case SweepCommit(t) => At(s, t, Claiming)
    case SweepPublish(t, id, p) =>
      At(s, t, Publishing) && id in s.batches[t].ids && id !in s.batches[t].results && id in s.rows
    case SweepFinalize(t) => At(s, t, Publishing) && s.batches[t].results.Keys == s.batches[t].ids
    case SweepCrash(t) => At(s, t, Publishing)
    case ImmediateClaim(t, id, now) =>
      && t !in s.batches && now <= s.clock && id in s.rows && id !in Locked(s)
      && Claimable(s.rows[id], now, MAX_ATTEMPTS)
    case ImmediateCommit(t, _, _) => t in s.batches && s.batches[t].stage.Immediate?
    case Rollback(t) => t in s.batches && HoldsLocks(s.batches[t])
    case InsertClaim(t, id, event, now) => t !in s.inserts && now <= s.clock && Insertable(s, id, event)
    case InsertCommit(t, _, _) => t in s.inserts
    case InsertRollback(t) => t in s.inserts
  }

  function ImmediateResult(at: Time, delivered: bool, error: string): Result {
    if delivered then Result(Sent, None, None) else Result(Failed, Some(error), Some(at + Seconds(60)))
  }

  function ImmediateRows(rows: Table, b: Batch, delivered: bool, error: string): Table
    requires b.stage.Immediate?
  {
    map id | id in rows ::
      if id in b.ids then Apply(ClaimRow(rows[id]), ImmediateResult(b.stage.at, delivered, error)) else rows[id]
  }

  /** The row an insert commits: new, claimed once, and updated with the outcome. */
  function Inserted(p: OpenInsert, delivered: bool, error: string): OutboxRow {
    Apply(ClaimRow(NewRow(p.event, p.at)), ImmediateResult(p.at, delivered, error))
  }

  function Next(s: System, step: Step): System
    requires Enabled(s, step)
  {
    match step
    case Tick(time) => s.(clock := time)
    case Add(id, event, createdAt) => s.(rows := s.rows[id := NewRow(event, createdAt)])
    case SweepClaim(t, _, _, chosen) => s.(batches := s.batches[t := Batch(Claiming, chosen, map[])])
    case SweepCommit(t) =>
      s.(rows := ClaimRows(s.rows, s.batches[t].ids),
         batches := s.batches[t := s.batches[t].(stage := Publishing)])
    case SweepPublish(t, id, p) =>
      var b := s.batches[t];
      s.(batches := s.batches[t := b.(results := b.results[id := SweepResult(s.rows[id].attemptCount, p)])])
    case SweepFinalize(t) =>
      s.(rows := FinalizeRows(s.rows, s.batches[t].results), batches := s.batches - {t})
    case SweepCrash(t) => s.(batches := s.batches[t := s.batches[t].(stage := Crashed)])
    case ImmediateClaim(t, id, now) => s.(batches := s.batches[t := Batch(Immediate(now), {id}, map[])])
    case ImmediateCommit(t, delivered, error) =>
      s.(rows := ImmediateRows(s.rows, s.batches[t], delivered, error), batches := s.batches - {t})
    case Rollback(t) => s.(batches := s.batches - {t})
    case InsertClaim(t, id, event, now) => s.(inserts := s.inserts[t := OpenInsert(id, event, now)])
    case InsertCommit(t, delivered, error) =>
      var p := s.inserts[t];
      s.(rows := s.rows[p.id := Inserted(p, delivered, error)], inserts := s.inserts - {t})
    case InsertRollback(t) => s.(inserts := s.inserts - {t})
  }

  predicate ValidRun(s: System, steps: seq<Step>)
    decreases |steps|
  {
    steps == [] || (Enabled(s, steps[0]) && ValidRun(Next(s, steps[0]), steps[1..]))
  }

  function After(s: System, steps: seq<Step>): System
    requires ValidRun(s, steps)
    decreases |steps|
  {
    if steps == [] then s else After(Next(s, steps[0]), steps[1..])
  }

  // ---- The invariant ------------------------------------------------------

  /** No two claimants ever hold the same row. */
  predicate Disjoint(s: System) {
    forall t, u | t in s.batches && u in s.batches && t != u :: s.batches[t].ids !! s.batches[u].ids
  }

  predicate BatchInv(rows: Table, b: Batch) {
    && b.ids <= rows.Keys
    && b.results.Keys <= b.ids
    && (HoldsLocks(b) ==> b.results == map[] && forall id | id in b.ids ::
          rows[id].attemptCount < MAX_ATTEMPTS && (rows[id].status == Pending || rows[id].status == Failed))
    && (!HoldsLocks(b) ==> forall id | id in b.ids :: rows[id].status == Sending)
    && (forall id | id in b.results :: b.results[id].status == Sent || b.results[id].status == Failed)
  }

  predicate Owns(s: System, t: Claimant, id: OutboxId) {
    t in s.batches && !HoldsLocks(s.batches[t]) && id in s.batches[t].ids
  }

  predicate SendingIsOwned(s: System) {
    forall id | id in s.rows && s.rows[id].status == Sending :: exists t | t in s.batches :: Owns(s, t, id)
  }

  predicate CoreInv(s: System) {
    && UniqueEvents(s.rows)
    && (forall id | id in s.rows :: s.rows[id].attemptCount <= MAX_ATTEMPTS)
    && Disjoint(s)
    && (forall t | t in s.batches :: BatchInv(s.rows, s.batches[t]))
    && SendingIsOwned(s)
  }

  /** Eligible unlocked rows are in no batch: locked ones are skipped, the others are SENDING. */
  lemma UnclaimedIsFree(s: System, u: Claimant, ids: set<OutboxId>)
    requires u in s.batches && BatchInv(s.rows, s.batches[u]) && ids !! Locked(s) && ids <= s.rows.Keys
    requires forall id | id in ids :: s.rows[id].status != Sending
    ensures s.batches[u].ids !! ids
  {
    assert HoldsLocks(s.batches[u]) ==> s.batches[u].ids <= Locked(s);
  }

  lemma OpenBatchDisjoint(s: System, t: Claimant, b: Batch)
    requires Disjoint(s) && (forall u | u in s.batches :: BatchInv(s.rows, s.batches[u]))
    requires b.ids !! Locked(s) && b.ids <= s.rows.Keys
    requires forall id | id in b.ids :: s.rows[id].status != Sending
    requires t !in s.batches
    ensures Disjoint(s.(batches := s.batches[t := b]))
  {
    forall u | u in s.batches ensures s.batches[u].ids !! b.ids {
      UnclaimedIsFree(s, u, b.ids);
    }
  }

  /** Opening a claim on eligible unlocked rows. */
  lemma OpenBatchKeeps(s: System, t: Claimant, b: Batch)
    requires CoreInv(s) && t !in s.batches && HoldsLocks(b) && BatchInv(s.rows, b) && b.ids !! Locked(s)
    ensures CoreInv(s.(batches := s.batches[t := b]))
  {
    var s' := s.(batches := s.batches[t := b]);
    OpenBatchDisjoint(s, t, b);
    OwnersStay(s, s');
    assert forall u | u in s'.batches :: BatchInv(s'.rows, s'.batches[u]);
  }

  lemma RollbackKeeps(s: System, t: Claimant)
    requires CoreInv(s) && t in s.batches && HoldsLocks(s.batches[t])
    ensures CoreInv(s.(batches := s.batches - {t}))
  {
    var s' := s.(batches := s.batches - {t});
    OwnersStay(s, s');
    assert forall u | u in s'.batches :: BatchInv(s'.rows, s'.batches[u]);
  }

  /** Replacing a publishing batch by one with the same rows: a recorded result, or a crash. */
  lemma ReplaceKeeps(s: System, t: Claimant, b: Batch)
    requires CoreInv(s) && t in s.batches && !HoldsLocks(s.batches[t])
    requires !HoldsLocks(b) && b.ids == s.batches[t].ids && BatchInv(s.rows, b)
    ensures CoreInv(s.(batches := s.batches[t := b]))
  {
    var s' := s.(batches := s.batches[t := b]);
    assert forall u | u in s'.batches :: BatchInv(s'.rows, s'.batches[u]);
    assert SendingIsOwned(s') by {
      hide BatchInv, HoldsLocks;
      OwnersStay(s, s');
    }
    hide BatchInv, SendingIsOwned, HoldsLocks;
    FromParts(s');
  }

  lemma SweepClaimKeeps(s: System, step: Step)
    requires CoreInv(s) && Enabled(s, step) && step.SweepClaim?
    ensures CoreInv(Next(s, step))
  {
    ClaimedAreEligible(s.rows, step.now, step.limit, MAX_ATTEMPTS, Locked(s), step.chosen);
    OpenBatchKeeps(s, step.t, Batch(Claiming, step.chosen, map[]));
  }

  lemma AddKeeps(s: System, step: Step)
    requires CoreInv(s) && Enabled(s, step) && step.Add?
    ensures CoreInv(Next(s, step))
  {
    var s' := Next(s, step);
    OwnersStay(s, s');
    forall u | u in s'.batches ensures BatchInv(s'.rows, s'.batches[u]) {
      assert BatchInv(s.rows, s.batches[u]);
    }
  }

  lemma OwnersStay(s: System, s': System)
    requires SendingIsOwned(s)
    requires forall id | id in s'.rows && s'.rows[id].status == Sending :: id in s.rows && s.rows[id].status == Sending
    requires forall t | t in s.batches && !HoldsLocks(s.batches[t]) ::
               t in s'.batches && !HoldsLocks(s'.batches[t]) && s'.batches[t].ids == s.batches[t].ids
    ensures SendingIsOwned(s')
  {
    forall id | id in s'.rows && s'.rows[id].status == Sending
      ensures exists t | t in s'.batches :: Owns(s', t, id)
    {
      var t :| t in s.batches && Owns(s, t, id);
      assert Owns(s', t, id);
    }
  }

  /** A statement that keeps keys, events and the attempt cap keeps the rest row by row. */
  lemma FromParts(s: System)
    requires Disjoint(s) && SendingIsOwned(s) && (forall u | u in s.batches :: BatchInv(s.rows, s.batches[u]))
    requires UniqueEvents(s.rows) && forall id | id in s.rows :: s.rows[id].attemptCount <= MAX_ATTEMPTS
    ensures CoreInv(s)
  {
  }

  lemma SweepCommitBatch(s: System, step: Step, u: Claimant)
    requires CoreInv(s) && Enabled(s, step) && step.SweepCommit? && u in s.batches
    ensures BatchInv(Next(s, step).rows, Next(s, step).batches[u])
  {
    hide SendingIsOwned;
    assert BatchInv(s.rows, s.batches[u]) && BatchInv(s.rows, s.batches[step.t]);
  }

  lemma SweepCommitOwned(s: System, step: Step)
    requires CoreInv(s) && Enabled(s, step) && step.SweepCommit?
    ensures SendingIsOwned(Next(s, step))
  {
    var s' := Next(s, step);
    forall id | id in s'.rows && s'.rows[id].status == Sending
      ensures exists t | t in s'.batches :: Owns(s', t, id)
    {
      if id in s.batches[step.t].ids {
        assert Owns(s', step.t, id);
      } else {
        var t :| t in s.batches && Owns(s, t, id);
        assert Owns(s', t, id);
      }
    }
  }

  lemma SweepCommitKeeps(s: System, step: Step)
    requires CoreInv(s) && Enabled(s, step) && step.SweepCommit?
    ensures CoreInv(Next(s, step))
  {
    var s' := Next(s, step);
    SweepCommitOwned(s, step);
    forall u | u in s'.batches ensures BatchInv(s'.rows, s'.batches[u]) {
      SweepCommitBatch(s, step, u);
    }
    assert BatchInv(s.rows, s.batches[step.t]);
    hide BatchInv, SendingIsOwned;
    FromParts(s');
  }

  lemma SweepFinalizeBatch(s: System, step: Step, u: Claimant)
    requires CoreInv(s) && Enabled(s, step) && step.SweepFinalize? && u in s.batches && u != step.t
    ensures BatchInv(Next(s, step).rows, s.batches[u])
  {
    hide SendingIsOwned;
    assert BatchInv(s.rows, s.batches[u]) && BatchInv(s.rows, s.batches[step.t]);
  }

  lemma SweepFinalizeOwned(s: System, step: Step)
    requires CoreInv(s) && Enabled(s, step) && step.SweepFinalize?
    ensures SendingIsOwned(Next(s, step))
  {
    var s' := Next(s, step);
    assert BatchInv(s.rows, s.batches[step.t]);
    forall id | id in s'.rows && s'.rows[id].status == Sending
      ensures exists t | t in s'.batches :: Owns(s', t, id)
    {
      var t :| t in s.batches && Owns(s, t, id);
      assert t != step.t;
      assert Owns(s', t, id);
    }
  }

  lemma SweepFinalizeKeeps(s: System, step: Step)
    requires CoreInv(s) && Enabled(s, step) && step.SweepFinalize?
    ensures CoreInv(Next(s, step))
  {
    var s' := Next(s, step);
    SweepFinalizeOwned(s, step);
    forall u | u in s'.batches ensures BatchInv(s'.rows, s'.batches[u]) {
      SweepFinalizeBatch(s, step, u);
    }
    hide BatchInv, SendingIsOwned;
    FromParts(s');
  }

  lemma ImmediateCommitBatch(s: System, step: Step, u: Claimant)
    requires CoreInv(s) && Enabled(s, step) && step.ImmediateCommit? && u in s.batches && u != step.t
    ensures BatchInv(Next(s, step).rows, s.batches[u])
  {
    hide SendingIsOwned;
    assert BatchInv(s.rows, s.batches[u]) && BatchInv(s.rows, s.batches[step.t]);
  }

  lemma ImmediateCommitOwned(s: System, step: Step)
    requires CoreInv(s) && Enabled(s, step) && step.ImmediateCommit?
    ensures SendingIsOwned(Next(s, step))
  {
    assert BatchInv(s.rows, s.batches[step.t]);
    OwnersStay(s, Next(s, step));
  }

  lemma ImmediateCommitKeeps(s: System, step: Step)
    requires CoreInv(s) && Enabled(s, step) && step.ImmediateCommit?
    ensures CoreInv(Next(s, step))
  {
    var s' := Next(s, step);
    ImmediateCommitOwned(s, step);
    forall u | u in s'.batches ensures BatchInv(s'.rows, s'.batches[u]) {
      ImmediateCommitBatch(s, step, u);
    }
    assert BatchInv(s.rows, s.batches[step.t]);
    hide BatchInv, SendingIsOwned, Locked;
    FromParts(s');
  }

  lemma TickKeeps(s: System, step: Step)
    requires CoreInv(s) && Enabled(s, step) && step.Tick?
    ensures CoreInv(Next(s, step))
  {
    OwnersStay(s, Next(s, step));
  }

  lemma SweepPublishKeeps(s: System, step: Step)
    requires CoreInv(s) && Enabled(s, step) && step.SweepPublish?
    ensures CoreInv(Next(s, step))
  {
    ReplaceKeeps(s, step.t, Next(s, step).batches[step.t]);
  }

  lemma SweepCrashKeeps(s: System, step: Step)
    requires CoreInv(s) && Enabled(s, step) && step.SweepCrash?
    ensures CoreInv(Next(s, step))
  {
    ReplaceKeeps(s, step.t, Next(s, step).batches[step.t]);
  }

  lemma ImmediateClaimKeeps(s: System, step: Step)
    requires CoreInv(s) && Enabled(s, step) && step.ImmediateClaim?
    ensures CoreInv(Next(s, step))
  {
    OpenBatchKeeps(s, step.t, Batch(Immediate(step.now), {step.id}, map[]));
  }

  lemma CoreKeeps(s: System, step: Step)
    requires CoreInv(s) && InsertsInv(s) && Enabled(s, step)
    ensures CoreInv(Next(s, step))
  {
    hide CoreInv, IsClaim, Claimable;
    match step
    case Tick(_) => TickKeeps(s, step);
    case Add(_, _, _) => AddKeeps(s, step);
    case SweepClaim(_, _, _, _) => SweepClaimKeeps(s, step);
    case SweepCommit(_) => SweepCommitKeeps(s, step);
    case SweepPublish(_, _, _) => SweepPublishKeeps(s, step);
    case SweepFinalize(_) => SweepFinalizeKeeps(s, step);
    case SweepCrash(_) => SweepCrashKeeps(s, step);
    case ImmediateClaim(_, _, _) => ImmediateClaimKeeps(s, step);
    case ImmediateCommit(_, _, _) => ImmediateCommitKeeps(s, step);
    case Rollback(t) => RollbackKeeps(s, t);
    case InsertClaim(_, _, _, _) => InsertsAsideKeeps(s, step);
    case InsertCommit(_, _, _) => InsertCommitKeeps(s, step);
    case InsertRollback(_) => InsertsAsideKeeps(s, step);
  }

  /** Rows being inserted are not in the table, and no two transactions insert the same id or event. */
  predicate InsertsInv(s: System) {
    && (forall t | t in s.inserts ::
          s.inserts[t].id !in s.rows && forall k | k in s.rows :: s.rows[k].eventId != s.inserts[t].event)
    && (forall t, u | t in s.inserts && u in s.inserts && t != u ::
          s.inserts[t].id != s.inserts[u].id && s.inserts[t].event != s.inserts[u].event)
  }

  predicate Inv(s: System) {
    CoreInv(s) && InsertsInv(s)
  }

  lemma InsertsAsideKeeps(s: System, step: Step)
    requires CoreInv(s) && Enabled(s, step) && (step.InsertClaim? || step.InsertRollback?)
    ensures CoreInv(Next(s, step))
  {
    var s' := Next(s, step);
    OwnersStay(s, s');
    assert forall u | u in s'.batches :: BatchInv(s'.rows, s'.batches[u]);
    hide BatchInv, SendingIsOwned;
    FromParts(s');
  }

  lemma InsertCommitKeeps(s: System, step: Step)
    requires CoreInv(s) && InsertsInv(s) && Enabled(s, step) && step.InsertCommit?
    ensures CoreInv(Next(s, step))
  {
    var s' := Next(s, step);
    assert s.inserts[step.t].id !in s.rows;
    OwnersStay(s, s');
    forall u | u in s'.batches ensures BatchInv(s'.rows, s'.batches[u]) {
      assert BatchInv(s.rows, s.batches[u]);
    }
    hide BatchInv, SendingIsOwned;
    FromParts(s');
  }

  lemma InsertsKept(s: System, step: Step)
    requires InsertsInv(s) && Enabled(s, step)
    ensures InsertsInv(Next(s, step))
  {
    hide IsClaim, Claimable;
  }

  lemma StepKeepsInv(s: System, step: Step)
    requires Inv(s) && Enabled(s, step)
    ensures Inv(Next(s, step))
  {
    hide Enabled, Next, CoreInv, InsertsInv;
    CoreKeeps(s, step);
    InsertsKept(s, step);
  }

  /** No row is lost or given another event, and no attempt is taken back. */
  predicate RowsKept(rows: Table, rows': Table) {
    forall id | id in rows :: id in rows' && rows'[id].eventId == rows[id].eventId
      && rows'[id].createdAt == rows[id].createdAt && rows[id].attemptCount <= rows'[id].attemptCount
  }

  lemma StepKeepsRows(s: System, step: Step)
    requires Inv(s) && Enabled(s, step)
    ensures RowsKept(s.rows, Next(s, step).rows)
  {
    hide CoreInv, IsClaim, Claimable;
  }

  /** Main result: whatever sweepers and publishers do, in any order, with crashes and rollbacks. */
  lemma {:induction false} RunKeepsInv(s: System, steps: seq<Step>)
    requires Inv(s) && ValidRun(s, steps)
    ensures Inv(After(s, steps)) && RowsKept(s.rows, After(s, steps).rows)
    decreases |steps|
  {
    if steps == [] {
    } else {
      hide Inv, Enabled;
      StepKeepsInv(s, steps[0]);
      StepKeepsRows(s, steps[0]);
      RunKeepsInv(Next(s, steps[0]), steps[1..]);
    }
  }

  // ---- The methods are runs of the protocol -------------------------------

  /** The two steps of a publish_expiry_event call that gets as far as its claim. */
  function CallSteps(s: System, t: Claimant, event: EventId, id: OutboxId, now: Time, broker: Outbox.Immediate)
      : seq<Step>
  {
    var delivered := broker.Delivered?;
    var error := if broker.Refused? then broker.error else "";
    if id in s.rows then
      [ImmediateClaim(t, id, now), if broker.TimedOut? then Rollback(t) else ImmediateCommit(t, delivered, error)]
    else
      [InsertClaim(t, id, event, now),
       if broker.TimedOut? then InsertRollback(t) else InsertCommit(t, delivered, error)]
  }

  /**
   A call of publish_expiry_event that finds its row due, or inserts it, is a claim and a commit; a
   timeout is a claim and a rollback that takes the inserted row with it.
   */
  lemma ImmediateCallIsRun(s: System, t: Claimant, event: EventId, freshId: OutboxId, id: OutboxId, now: Time,
                           broker: Outbox.Immediate)
    requires t !in s.batches && t !in s.inserts && now <= s.clock && (id in s.rows || Insertable(s, id, event))
    requires IsEventRow(s.rows, event, freshId, id)
    requires Claimable(EventRow(s.rows, event, id, now), now, MAX_ATTEMPTS) && id !in Locked(s)
    ensures ValidRun(s, CallSteps(s, t, event, id, now, broker))
    ensures After(s, CallSteps(s, t, event, id, now, broker)) ==
              if broker.TimedOut? then s
              else s.(rows := RowsAfterImmediate(s.rows, event, id, now, MAX_ATTEMPTS, broker))
  {
    var steps := CallSteps(s, t, event, id, now, broker);
    if id in s.rows {
      ExistingRowCall(s, t, event, id, now, broker);
    } else {
      InsertedRowCall(s, t, event, id, now, broker);
    }
  }

  lemma ExistingRowCall(s: System, t: Claimant, event: EventId, id: OutboxId, now: Time, broker: Outbox.Immediate)
    requires t !in s.batches && now <= s.clock && id in s.rows && id !in Locked(s)
    requires s.rows[id].eventId == event && Claimable(s.rows[id], now, MAX_ATTEMPTS)
    ensures ValidRun(s, CallSteps(s, t, event, id, now, broker))
    ensures After(s, CallSteps(s, t, event, id, now, broker)) ==
              if broker.TimedOut? then s
              else s.(rows := RowsAfterImmediate(s.rows, event, id, now, MAX_ATTEMPTS, broker))
  {
    var steps := CallSteps(s, t, event, id, now, broker);
    var s1 := Next(s, steps[0]);
    TwoSteps(s, steps[0], steps[1]);
    assert s1.batches - {t} == s.batches;
    if !broker.TimedOut? {
      assert ImmediateRows(s.rows, s1.batches[t], steps[1].delivered, steps[1].error)
          == RowsAfterImmediate(s.rows, event, id, now, MAX_ATTEMPTS, broker);
    }
  }

  lemma InsertedRowCall(s: System, t: Claimant, event: EventId, id: OutboxId, now: Time, broker: Outbox.Immediate)
    requires t !in s.inserts && now <= s.clock && Insertable(s, id, event)
    ensures ValidRun(s, CallSteps(s, t, event, id, now, broker))
    ensures After(s, CallSteps(s, t, event, id, now, broker)) ==
              if broker.TimedOut? then s
              else s.(rows := RowsAfterImmediate(s.rows, event, id, now, MAX_ATTEMPTS, broker))
  {
    var steps := CallSteps(s, t, event, id, now, broker);
    TwoSteps(s, steps[0], steps[1]);
    assert Next(s, steps[0]).inserts - {t} == s.inserts;
  }

  lemma TwoSteps(s: System, first: Step, second: Step)
    requires Enabled(s, first) && Enabled(Next(s, first), second)
    ensures ValidRun(s, [first, second]) && After(s, [first, second]) == Next(Next(s, first), second)
  {
    hide Enabled, Next;
    RunOne(Next(s, first), second);
    assert [first, second][1..] == [second];
  }

  /** What the broker made of every row of a batch. */
  function SweepResults(rows: Table, ids: set<OutboxId>, broker: OutboxId -> Publish): map<OutboxId, Result>
    requires ids <= rows.Keys
  {
    map id | id in ids :: SweepResult(rows[id].attemptCount, broker(id))
  }

  /** The publishes of a batch, one step per row, in whatever order `todo` is worked off. */
  lemma {:induction false} PublishRun(s: System, t: Claimant, broker: OutboxId -> Publish, todo: set<OutboxId>)
      returns (steps: seq<Step>)
    requires At(s, t, Publishing) && s.batches[t].ids <= s.rows.Keys && todo <= s.batches[t].ids
    requires s.batches[t].results == SweepResults(s.rows, s.batches[t].ids - todo, broker)
    ensures ValidRun(s, steps) && |steps| == |todo| && forall i | 0 <= i < |steps| :: steps[i].SweepPublish?
    ensures After(s, steps) ==
              s.(batches := s.batches[t := s.batches[t].(results := SweepResults(s.rows, s.batches[t].ids, broker))])
    decreases todo
  {
    if todo == {} {
      steps := [];
      assert s.batches[t].ids - todo == s.batches[t].ids;
      assert s.batches == s.batches[t := s.batches[t]];
    } else {
      var id :| id in todo;
      var step := SweepPublish(t, id, broker(id));
      var s' := Next(s, step);
      PublishedOne(s, t, broker, todo, id);
      var rest := PublishRun(s', t, broker, todo - {id});
      steps := [step] + rest;
      assert steps[1..] == rest;
      assert After(s, steps) == After(s', rest);
    }
  }

  lemma PublishedOne(s: System, t: Claimant, broker: OutboxId -> Publish, todo: set<OutboxId>, id: OutboxId)
    requires At(s, t, Publishing) && s.batches[t].ids <= s.rows.Keys && todo <= s.batches[t].ids && id in todo
    requires s.batches[t].results == SweepResults(s.rows, s.batches[t].ids - todo, broker)
    ensures var b := s.batches[t];
            b.results[id := SweepResult(s.rows[id].attemptCount, broker(id))]
            == SweepResults(s.rows, b.ids - (todo - {id}), broker)
  {
    var b := s.batches[t];
    assert b.ids - (todo - {id}) == (b.ids - todo) + {id};
  }

  /** The second transaction of a sweep: the publishes and the finalize. */
  lemma PublishAndFinalize(s: System, t: Claimant, broker: OutboxId -> Publish) returns (publishes: seq<Step>)
    requires At(s, t, Publishing) && s.batches[t].ids <= s.rows.Keys && s.batches[t].results == map[]
    ensures |publishes| == |s.batches[t].ids| && forall i | 0 <= i < |publishes| :: publishes[i].SweepPublish?
    ensures ValidRun(s, publishes + [SweepFinalize(t)])
    ensures After(s, publishes + [SweepFinalize(t)]) ==
              s.(rows := FinalizeRows(s.rows, SweepResults(s.rows, s.batches[t].ids, broker)),
                 batches := s.batches - {t})
  {
    var ids, last := s.batches[t].ids, SweepFinalize(t);
    assert ids - ids == {};
    publishes := PublishRun(s, t, broker, ids);
    var s' := s.(batches := s.batches[t := s.batches[t].(results := SweepResults(s.rows, ids, broker))]);
    assert Enabled(s', last);
    assert s'.batches - {t} == s.batches - {t};
    hide FinalizeRows, SweepResults;
    RunOne(s', last);
    RunAppend(s, publishes, [last]);
  }

  lemma ClaimAndCommit(s: System, t: Claimant, now: Time, limit: nat, chosen: set<OutboxId>)
    requires Enabled(s, SweepClaim(t, now, limit, chosen))
    ensures chosen <= s.rows.Keys
    ensures var steps := [SweepClaim(t, now, limit, chosen), SweepCommit(t)];
            ValidRun(s, steps) && After(s, steps) ==
              s.(rows := ClaimRows(s.rows, chosen), batches := s.batches[t := Batch(Publishing, chosen, map[])])
  {
    var claim := SweepClaim(t, now, limit, chosen);
    ClaimedAreEligible(s.rows, now, limit, MAX_ATTEMPTS, Locked(s), chosen);
    hide IsClaim, Claimable, ClaimRows, Locked;
    var publishing := Batch(Publishing, chosen, map[]);
    assert Next(s, claim).batches[t := publishing] == s.batches[t := publishing];
    TwoSteps(s, claim, SweepCommit(t));
  }

  /** A whole sweep_outbox_once without a crash: claim, commit, one publish per row, finalize. */
  lemma SweepCallIsRun(s: System, t: Claimant, now: Time, limit: nat, chosen: set<OutboxId>,
                       broker: OutboxId -> Publish)
      returns (publishes: seq<Step>)
    requires Enabled(s, SweepClaim(t, now, limit, chosen))
    ensures |publishes| == |chosen| && forall i | 0 <= i < |publishes| :: publishes[i].SweepPublish?
    ensures chosen <= s.rows.Keys
    ensures var steps := [SweepClaim(t, now, limit, chosen), SweepCommit(t)] + (publishes + [SweepFinalize(t)]);
            var mid := ClaimRows(s.rows, chosen);
            ValidRun(s, steps)
            && After(s, steps) == s.(rows := FinalizeRows(mid, SweepResults(mid, chosen, broker)))
  {
    hide IsClaim, Next, FinalizeRows, SweepResults, SweepResult;
    var opening := [SweepClaim(t, now, limit, chosen), SweepCommit(t)];
    ClaimAndCommit(s, t, now, limit, chosen);
    var s2 := After(s, opening);
    publishes := PublishAndFinalize(s2, t, broker);
    RunAppend(s, opening, publishes + [SweepFinalize(t)]);
    assert s2.batches - {t} == s.batches;
  }

  lemma RunOne(s: System, step: Step)
    requires Enabled(s, step)
    ensures ValidRun(s, [step]) && After(s, [step]) == Next(s, step)
  {
    hide Enabled, Next;
    assert [step][1..] == [];
  }

  lemma {:induction false} RunAppend(s: System, first: seq<Step>, second: seq<Step>)
    requires ValidRun(s, first) && ValidRun(After(s, first), second)
    ensures ValidRun(s, first + second) && After(s, first + second) == After(After(s, first), second)
    decreases |first|
  {
    hide Enabled, Next;
    if first == [] {
      assert first + second == second;
    } else {
      assert (first + second)[1..] == first[1..] + second;
      RunAppend(Next(s, first[0]), first[1..], second);
    }
  }

  // ---- What follows for the unguarded statements --------------------------

  /** A row is SENDING exactly when one publishing or crashed claimant has it, and never two. */
  lemma SendingHasOneClaimant(steps: seq<Step>, id: OutboxId)
    requires ValidRun(INIT, steps) && id in After(INIT, steps).rows
    ensures var s := After(INIT, steps);
            && (s.rows[id].status == Sending <==> exists t :: Owns(s, t, id))
            && (forall t, u | Owns(s, t, id) && Owns(s, u, id) :: t == u)
  {
    RunKeepsInv(INIT, steps);
    var s := After(INIT, steps);
    if s.rows[id].status == Sending {
      var t :| t in s.batches && Owns(s, t, id);
    }
  }

  /** finalize_results has no WHERE on status, yet it only ever moves SENDING to SENT or FAILED. */
  lemma FinalizeOnlyReleases(steps: seq<Step>, step: Step, id: OutboxId)
    requires ValidRun(INIT, steps) && Enabled(After(INIT, steps), step)
    requires step.SweepFinalize? && id in After(INIT, steps).rows
    ensures var s := After(INIT, steps);
            var s' := Next(s, step);
            && id in s'.rows
            && (id in s.batches[step.t].ids ==>
                  s.rows[id].status == Sending && s'.rows[id].status in {Sent, Failed}
                  && s'.rows[id].attemptCount == s.rows[id].attemptCount)
            && (id !in s.batches[step.t].ids ==> s'.rows[id] == s.rows[id])
  {
    RunKeepsInv(INIT, steps);
    assert BatchInv(After(INIT, steps).rows, After(INIT, steps).batches[step.t]);
  }

  /** The publisher's update is as safe: its row was claimable, and nobody else holds it. */
  lemma UpdateOnlyReleases(steps: seq<Step>, step: Step, id: OutboxId)
    requires ValidRun(INIT, steps) && Enabled(After(INIT, steps), step)
    requires step.ImmediateCommit? && id in After(INIT, steps).rows
    ensures var s := After(INIT, steps);
            var s' := Next(s, step);
            && id in s'.rows
            && (id in s.batches[step.t].ids ==>
                  && s.rows[id].status in {Pending, Failed}
                  && s'.rows[id].status == (if step.delivered then Sent else Failed)
                  && s'.rows[id].attemptCount == s.rows[id].attemptCount + 1 <= MAX_ATTEMPTS
                  && forall u | u in s.batches && u != step.t :: id !in s.batches[u].ids)
            && (id !in s.batches[step.t].ids ==> s'.rows[id] == s.rows[id])
  {
    RunKeepsInv(INIT, steps);
    assert BatchInv(After(INIT, steps).rows, After(INIT, steps).batches[step.t]);
  }

  lemma SentRowUntouched(s: System, step: Step, id: OutboxId)
    requires Inv(s) && Enabled(s, step) && id in s.rows && s.rows[id].status == Sent
    ensures id in Next(s, step).rows && Next(s, step).rows[id] == s.rows[id]
  {
    forall t | t in s.batches ensures id !in s.batches[t].ids {
      assert BatchInv(s.rows, s.batches[t]);
    }
  }

  lemma {:induction false} SentIsAbsorbing(s: System, steps: seq<Step>, id: OutboxId)
    requires Inv(s) && ValidRun(s, steps) && id in s.rows && s.rows[id].status == Sent
    ensures id in After(s, steps).rows && After(s, steps).rows[id] == s.rows[id]
    decreases |steps|
  {
    if steps == [] {
    } else {
      SentRowUntouched(s, steps[0], id);
      StepKeepsInv(s, steps[0]);
      SentIsAbsorbing(Next(s, steps[0]), steps[1..], id);
    }
  }

  /** Claims open at the same time, by sweepers or publishers, are pairwise disjoint. */
  lemma ConcurrentClaimsDisjoint(steps: seq<Step>, t: Claimant, u: Claimant)
    requires ValidRun(INIT, steps) && t != u
    requires t in After(INIT, steps).batches && u in After(INIT, steps).batches
    ensures After(INIT, steps).batches[t].ids !! After(INIT, steps).batches[u].ids
  {
    RunKeepsInv(INIT, steps);
  }

  // ---- Crashes ------------------------------------------------------------

  /**
   A batch that crashed after its claim committed stays as it is for ever: its rows remain SENDING,
   no later sweep or publisher takes them over.
   */
  lemma {:induction false} CrashedRowsStuck(s: System, steps: seq<Step>, t: Claimant, id: OutboxId)
    requires Inv(s) && ValidRun(s, steps) && At(s, t, Crashed) && id in s.batches[t].ids
    ensures At(After(s, steps), t, Crashed) && id in After(s, steps).batches[t].ids
    ensures id in After(s, steps).rows && After(s, steps).rows[id].status == Sending
    decreases |steps|
  {
    assert BatchInv(s.rows, s.batches[t]);
    if steps == [] {
    } else {
      hide Inv, Enabled, BatchInv;
      CrashedStep(s, steps[0], t);
      StepKeepsInv(s, steps[0]);
      CrashedRowsStuck(Next(s, steps[0]), steps[1..], t, id);
    }
  }

  lemma CrashedStep(s: System, step: Step, t: Claimant)
    requires Enabled(s, step) && At(s, t, Crashed)
    ensures At(Next(s, step), t, Crashed) && Next(s, step).batches[t].ids == s.batches[t].ids
  {
  }

  /** Such a batch is reachable: one event, one sweep that crashes after its claim committed. */
  lemma CrashIsReachable(t: Claimant, id: OutboxId, event: EventId)
    ensures var steps := [Add(id, event, 0), SweepClaim(t, 0, 1, {id}), SweepCommit(t), SweepCrash(t)];
            && ValidRun(INIT, steps) && At(After(INIT, steps), t, Crashed)
            && id in After(INIT, steps).batches[t].ids
            && id in After(INIT, steps).rows && After(INIT, steps).rows[id].status == Sending
  {
    var add, claim, commit, crash := Add(id, event, 0), SweepClaim(t, 0, 1, {id}), SweepCommit(t), SweepCrash(t);
    var added := Next(INIT, add);
    TakesTheRow(id, event);
    assert Locked(added) == {};
    ClaimAndCommit(added, t, 0, 1, {id});
    var claimed := After(added, [claim, commit]);
    hide IsClaim, ClaimRows, Locked, ValidRun, After;
    RunOne(INIT, add);
    RunAppend(INIT, [add], [claim, commit]);
    RunOne(claimed, crash);
    RunAppend(INIT, [add] + [claim, commit], [crash]);
    assert [add] + [claim, commit] + [crash] == [add, claim, commit, crash];
    assert ClaimRows(added.rows, {id})[id].status == Sending by { ClaimedIsSending(added.rows, {id}, id); }
  }

  lemma TakesTheRow(id: OutboxId, event: EventId)
    ensures IsClaim(map[id := NewRow(event, 0)], 0, 1, MAX_ATTEMPTS, {}, {id})
  {
    assert Eligible(map[id := NewRow(event, 0)], 0, MAX_ATTEMPTS, {}) == {id};
  }

  lemma ClaimedIsSending(rows: Table, chosen: set<OutboxId>, id: OutboxId)
    requires id in chosen && id in rows
    ensures id in ClaimRows(rows, chosen) && ClaimRows(rows, chosen)[id].status == Sending
  {
  }

  predicate CrashFree(steps: seq<Step>) {
    forall i | 0 <= i < |steps| :: !steps[i].SweepCrash?
  }

  lemma {:induction false} NoCrashNoCrashed(s: System, steps: seq<Step>)
    requires ValidRun(s, steps) && CrashFree(steps)
    requires forall t | t in s.batches :: s.batches[t].stage != Crashed
    ensures forall t | t in After(s, steps).batches :: After(s, steps).batches[t].stage != Crashed
    decreases |steps|
  {
    if steps == [] {
    } else {
      assert steps[0] in steps;
      NoCrashNoCrashed(Next(s, steps[0]), steps[1..]);
    }
  }

  /**
   The exact cost of crashes: once every live claimant is done, the SENDING rows are exactly the
   crashed ones; every other row is sent, due, waiting for its retry time, or out of attempts.
   */
  lemma QuietRows(steps: seq<Step>, now: Time, id: OutboxId)
    requires ValidRun(INIT, steps) && id in After(INIT, steps).rows
    requires forall t | t in After(INIT, steps).batches :: After(INIT, steps).batches[t].stage == Crashed
    ensures var s := After(INIT, steps);
            var row := s.rows[id];
            && (row.status == Sending <==> exists t | t in s.batches :: id in s.batches[t].ids)
            && (row.status != Sending ==>
                  || row.status == Sent
                  || Claimable(row, now, MAX_ATTEMPTS)
                  || (row.nextRetryAt.Some? && row.nextRetryAt.value > now)
                  || row.attemptCount == 5)
            && (CrashFree(steps) ==> row.status != Sending)
  {
    SendingHasOneClaimant(steps, id);
    RunKeepsInv(INIT, steps);
    var s := After(INIT, steps);
    if t :| t in s.batches && id in s.batches[t].ids {
      assert Owns(s, t, id);
    }
    if CrashFree(steps) {
      NoCrashNoCrashed(INIT, steps);
    }
  }

  // ---- Bounded publishing -------------------------------------------------

  /** Publishes a claimed batch may still make. */
  function PublishesLeft(b: Batch): int {
    if b.stage == Publishing then |b.ids| - |b.results| else 0
  }

  function Outstanding(batches: map<Claimant, Batch>): map<Claimant, int> {
    map t | t in batches :: PublishesLeft(batches[t])
  }

  ghost function Potential(s: System): int {
    Budget(s.rows, MAX_ATTEMPTS) + Sums.Total(Outstanding(s.batches))
  }

  function Granted(step: Step): nat {
    if step.Add? || step.InsertCommit? then MAX_ATTEMPTS else 0
  }

  function Cost(step: Step): nat {
    if step.SweepPublish? then 1 else 0
  }

  lemma ReplaceBatch(batches: map<Claimant, Batch>, t: Claimant, b: Batch)
    requires t in batches
    ensures Sums.Total(Outstanding(batches[t := b]))
            == Sums.Total(Outstanding(batches)) - PublishesLeft(batches[t]) + PublishesLeft(b)
  {
    hide PublishesLeft;
    var m, m' := Outstanding(batches), Outstanding(batches[t := b]);
    Sums.TotalRemove(m, t);
    Sums.TotalRemove(m', t);
    assert m' - {t} == m - {t};
  }

  lemma DropBatch(batches: map<Claimant, Batch>, t: Claimant)
    requires t in batches
    ensures Sums.Total(Outstanding(batches - {t})) == Sums.Total(Outstanding(batches)) - PublishesLeft(batches[t])
  {
    Sums.TotalRemove(Outstanding(batches), t);
    assert Outstanding(batches - {t}) == Outstanding(batches) - {t};
  }

  lemma OpenBatch(batches: map<Claimant, Batch>, t: Claimant, b: Batch)
    requires t !in batches
    ensures Sums.Total(Outstanding(batches[t := b])) == Sums.Total(Outstanding(batches)) + PublishesLeft(b)
  {
    Sums.TotalInsert(Outstanding(batches), t, PublishesLeft(b));
    assert Outstanding(batches[t := b]) == Outstanding(batches)[t := PublishesLeft(b)];
  }

  lemma BatchSizes(rows: Table, b: Batch)
    requires BatchInv(rows, b)
    ensures 0 <= PublishesLeft(b)
  {
    assert |b.results| == |b.results.Keys|;
    assert b.ids == b.results.Keys + (b.ids - b.results.Keys);
  }

  /** Committing a claim turns attempts into publishes still to make; each publish uses one up. */
  lemma CommitConserves(s: System, step: Step)
    requires Enabled(s, step) && step.SweepCommit? && BatchInv(s.rows, s.batches[step.t])
    ensures Potential(Next(s, step)) == Potential(s)
  {
    var b := s.batches[step.t];
    ClaimSpendsBudget(s.rows, b.ids, MAX_ATTEMPTS);
    ReplaceBatch(s.batches, step.t, b.(stage := Publishing));
  }

  lemma PublishCosts(s: System, step: Step)
    requires Enabled(s, step) && step.SweepPublish?
    ensures Potential(Next(s, step)) == Potential(s) - 1
  {
    var b' := Next(s, step).batches[step.t];
    ReplaceBatch(s.batches, step.t, b');
  }

  lemma FinalizeConserves(s: System, step: Step)
    requires Enabled(s, step) && step.SweepFinalize? && BatchInv(s.rows, s.batches[step.t])
    ensures Potential(Next(s, step)) <= Potential(s)
  {
    FinalizeKeepsBudget(s.rows, s.batches[step.t].results, MAX_ATTEMPTS);
    BatchSizes(s.rows, s.batches[step.t]);
    DropBatch(s.batches, step.t);
  }

  lemma ImmediateConserves(s: System, step: Step)
    requires Enabled(s, step) && step.ImmediateCommit? && BatchInv(s.rows, s.batches[step.t])
    ensures Potential(Next(s, step)) <= Potential(s)
  {
    var b := s.batches[step.t];
    Sums.TotalLowered(Remaining(s.rows, MAX_ATTEMPTS), Remaining(Next(s, step).rows, MAX_ATTEMPTS), b.ids);
    DropBatch(s.batches, step.t);
  }

  lemma StepPotential(s: System, step: Step)
    requires Inv(s) && Enabled(s, step)
    ensures Potential(Next(s, step)) <= Potential(s) + Granted(step) - Cost(step)
  {
    match step
    case Add(_, _, _) => AddGrants(s, step);
    case SweepCommit(t) => CommitConserves(s, step);
    case SweepPublish(_, _, _) => PublishCosts(s, step);
    case SweepFinalize(t) => FinalizeConserves(s, step);
    case SweepCrash(t) => CrashConserves(s, step);
    case ImmediateCommit(t, _, _) => ImmediateConserves(s, step);
    case SweepClaim(t, _, _, chosen) => OpeningConserves(s, t, Batch(Claiming, chosen, map[]));
    case ImmediateClaim(t, id, now) => OpeningConserves(s, t, Batch(Immediate(now), {id}, map[]));
    case Rollback(t) => RollbackConserves(s, t);
    case Tick(_) =>
    case InsertClaim(_, _, _, _) =>
    case InsertCommit(_, _, _) => InsertCommitGrants(s, step);
    case InsertRollback(_) =>
  }

  lemma InsertCommitGrants(s: System, step: Step)
    requires Enabled(s, step) && step.InsertCommit? && InsertsInv(s)
    ensures Potential(Next(s, step)) == Potential(s) + MAX_ATTEMPTS - 1
  {
    var id := s.inserts[step.t].id;
    assert id !in s.rows;
    var before, after := Remaining(s.rows, MAX_ATTEMPTS), Remaining(Next(s, step).rows, MAX_ATTEMPTS);
    Sums.TotalInsert(before, id, MAX_ATTEMPTS - 1);
    assert after == before[id := MAX_ATTEMPTS - 1];
  }

  lemma CrashConserves(s: System, step: Step)
    requires Enabled(s, step) && step.SweepCrash? && BatchInv(s.rows, s.batches[step.t])
    ensures Potential(Next(s, step)) <= Potential(s)
  {
    BatchSizes(s.rows, s.batches[step.t]);
    ReplaceBatch(s.batches, step.t, s.batches[step.t].(stage := Crashed));
  }

  lemma OpeningConserves(s: System, t: Claimant, b: Batch)
    requires t !in s.batches && HoldsLocks(b)
    ensures Potential(s.(batches := s.batches[t := b])) == Potential(s)
  {
    OpenBatch(s.batches, t, b);
  }

  lemma RollbackConserves(s: System, t: Claimant)
    requires t in s.batches && HoldsLocks(s.batches[t])
    ensures Potential(s.(batches := s.batches - {t})) == Potential(s)
  {
    DropBatch(s.batches, t);
  }

  lemma AddGrants(s: System, step: Step)
    requires Enabled(s, step) && step.Add?
    ensures Potential(Next(s, step)) == Potential(s) + MAX_ATTEMPTS
  {
    var before, after := Remaining(s.rows, MAX_ATTEMPTS), Remaining(Next(s, step).rows, MAX_ATTEMPTS);
    Sums.TotalInsert(before, step.id, MAX_ATTEMPTS);
    assert after == before[step.id := MAX_ATTEMPTS as int];
  }

  function SweepPublishes(steps: seq<Step>): nat {
    if steps == [] then 0 else Cost(steps[0]) + SweepPublishes(steps[1..])
  }

  function AttemptsGranted(steps: seq<Step>): nat {
    if steps == [] then 0 else Granted(steps[0]) + AttemptsGranted(steps[1..])
  }

  lemma {:induction false} RunPotential(s: System, steps: seq<Step>)
    requires Inv(s) && ValidRun(s, steps)
    ensures Potential(After(s, steps)) <= Potential(s) + AttemptsGranted(steps) - SweepPublishes(steps)
    decreases |steps|
  {
    if steps == [] {
    } else {
      StepPotential(s, steps[0]);
      StepKeepsInv(s, steps[0]);
      RunPotential(Next(s, steps[0]), steps[1..]);
    }
  }

  /** Sweeps publish boundedly often: at most max_attempts broker calls for each row ever added. */
  lemma SweepPublishesBounded(steps: seq<Step>)
    requires ValidRun(INIT, steps)
    ensures SweepPublishes(steps) <= AttemptsGranted(steps)
  {
    RunPotential(INIT, steps);
    RunKeepsInv(INIT, steps);
    var s := After(INIT, steps);
    Sums.TotalAtLeast(Remaining(s.rows, MAX_ATTEMPTS), 0);
    forall t | t in s.batches ensures 0 <= Outstanding(s.batches)[t] {
      BatchSizes(s.rows, s.batches[t]);
    }
    Sums.TotalAtLeast(Outstanding(s.batches), 0);
    assert Outstanding(INIT.batches) == map[] && Remaining(INIT.rows, MAX_ATTEMPTS) == map[];
  }
}
