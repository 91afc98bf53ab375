/**
 The delivery lease as a protocol: claims, sends, finalizes and crashes of any number
 of workers interleave over one table. Each row carries the history of its claims.
 */
module LeaseProtocol {
  import opened Prelude
  import opened Selection
  import opened Deliveries
  import Backoff

  /** Open: its worker may still send and finalize. Abandoned: it never will (crash, lost database). */
  datatype Phase = Open | Settled | Abandoned

  datatype Claim = Claim(worker: WorkerId, at: Time, sendCalls: nat, delivered: bool, phase: Phase)

  datatype Cell = Cell(row: Delivery, claims: seq<Claim>)

  datatype System = System(clock: Time, cells: map<DeliveryId, Cell>)

  datatype Step =
    | Tick(time: Time)
    | Insert(id: DeliveryId, row: Delivery)
    | ClaimBatch(event: EventId, worker: WorkerId, now: Time, limit: nat, locked: set<DeliveryId>,
                 chosen: set<DeliveryId>)
    | Send(id: DeliveryId, k: nat, delivered: bool)
    | Finalize(worker: WorkerId, batch: map<DeliveryId, nat>, results: seq<SendResult>)
    | Crash(batch: map<DeliveryId, nat>)

  const INIT := System(0, map[])

  function Rows(s: System): Table {
    map id | id in s.cells :: s.cells[id].row
  }

  predicate FreshRow(d: Delivery) {
    && d.status == Pending && d.attemptCount == 0 && d.nextRetryAt == None
    && d.lockedBy == None && d.lockedAt == None && d.lockExpiresAt == None
  }

  predicate IsOpen(s: System, id: DeliveryId, k: nat) {
    id in s.cells && k < |s.cells[id].claims| && s.cells[id].claims[k].phase == Open
  }

  /** The wait after the failed attempt of claim k, which is attempt k + 1. */
  function BackoffAfter(k: nat): Time {
    Minutes(Backoff.BackoffMinutes(k + 1))
  }

  /**
   The results a claimant can hand to finalize for its claim k: SENT only after its sender returned;
   FAILED with the backoff of attempt k + 1 counted from some instant since the claim; or FAILED
   without a retry time when the channel has no sender.
   */
  predicate PossibleResult(channel: Channel, k: nat, c: Claim, clock: Time, r: SendResult) {
    || (r.status == Sent && c.delivered && r.nextRetryAt == None)
    || (r.status == Failed && r.nextRetryAt.Some?
        && c.at + BackoffAfter(k) <= r.nextRetryAt.value <= clock + BackoffAfter(k))
    || (r.status == Failed && r.nextRetryAt == None && channel !in WORKER_SENDERS)
  }

  predicate Enabled(s: System, step: Step) {
    match step
    case Tick(time) => s.clock <= time
    case Insert(id, row) => id !in s.cells && FreshRow(row)
    // `now` is sampled before the statement runs, so it may lag behind the clock.
    case ClaimBatch(event, worker, now, limit, locked, chosen) =>
      now <= s.clock && IsClaim(Rows(s), event, now, limit, locked, chosen)
    case Send(id, k, delivered) =>
      IsOpen(s, id, k) && s.cells[id].claims[k].sendCalls == 0 && s.cells[id].row.channel in WORKER_SENDERS
    case Finalize(worker, batch, results) =>
      && Distinct(ResultIds(results))
      && (forall id | id in batch :: id in ResultIds(results))
      && (forall id | id in ResultIds(results) :: id in batch)
      && (forall id | id in batch :: IsOpen(s, id, batch[id]) && s.cells[id].claims[batch[id]].worker == worker)
      && (forall r | r in results && r.deliveryId in batch && IsOpen(s, r.deliveryId, batch[r.deliveryId]) ::
            var c := s.cells[r.deliveryId];
            PossibleResult(c.row.channel, batch[r.deliveryId], c.claims[batch[r.deliveryId]], s.clock, r))
    case Crash(batch) => forall id | id in batch :: IsOpen(s, id, batch[id])
  }

  function ClaimCell(c: Cell, worker: WorkerId, now: Time): Cell {
    Cell(ClaimRow(c.row, worker, now), c.claims + [Claim(worker, now, 0, false, Open)])
  }

  function SendCell(c: Cell, k: nat, delivered: bool): Cell
    requires k < |c.claims|
  {
    c.(claims := c.claims[k := c.claims[k].(sendCalls := c.claims[k].sendCalls + 1, delivered := delivered)])
  }

  function SettleCell(c: Cell, k: nat, worker: WorkerId, r: SendResult): Cell
    requires k < |c.claims|
  {
    Cell(FinalizeRow(c.row, worker, r), c.claims[k := c.claims[k].(phase := Settled)])
  }

  function AbandonCell(c: Cell, k: nat): Cell
    requires k < |c.claims|
  {
    c.(claims := c.claims[k := c.claims[k].(phase := Abandoned)])
  }

  function Next(s: System, step: Step): System
    requires Enabled(s, step)
  {
    match step
    case Tick(time) => s.(clock := time)
    case Insert(id, row) => s.(cells := s.cells[id := Cell(row, [])])
    case ClaimBatch(event, worker, now, limit, locked, chosen) =>
      s.(cells := map id | id in s.cells ::
           if id in chosen then ClaimCell(s.cells[id], worker, now) else s.cells[id])
    case Send(id, k, delivered) => s.(cells := s.cells[id := SendCell(s.cells[id], k, delivered)])
    case Finalize(worker, batch, results) =>
      ByIdKeys(results);
      s.(cells := map id | id in s.cells ::
           if id in batch then SettleCell(s.cells[id], batch[id], worker, ById(results)[id]) else s.cells[id])
    case Crash(batch) =>
      s.(cells := map id | id in s.cells ::
           if id in batch then AbandonCell(s.cells[id], batch[id]) else s.cells[id])
  }

  predicate ValidRun(s: System, steps: seq<Step>)
    decreases |steps|
  {
    steps == [] || (Enabled(s, steps[0]) && ValidRun(Next(s, steps[0]), steps[1..]))
  }

  function After(s: System, steps: seq<Step>): System
    requires ValidRun(s, steps)
    decreases |steps|
  {
    if steps == [] then s else After(Next(s, steps[0]), steps[1..])
  }

  /** The protocol's claim step is the claim statement of the delivery table. */
  lemma ClaimStepIsStatement(s: System, step: Step)
    requires Enabled(s, step) && step.ClaimBatch?
    ensures Rows(Next(s, step)) == ClaimRows(Rows(s), step.chosen, step.worker, step.now)
  {
    hide IsClaim, Claimable;
  }

  /** The protocol's finalize step is the bulk CASE update of the delivery table. */
  lemma FinalizeStepIsStatement(s: System, step: Step)
    requires Enabled(s, step) && step.Finalize?
    ensures Rows(Next(s, step)) == FinalizeBulk(Rows(s), step.worker, step.results)
  {
    ByIdKeys(step.results);
    var bulk := FinalizeBulk(Rows(s), step.worker, step.results);
    var s' := Next(s, step);
    forall id | id in s.cells ensures s'.cells[id].row == bulk[id] {
      FinalizedCell(s, step, id);
    }
    assert bulk.Keys == Rows(s').Keys;
  }

  lemma FinalizedCell(s: System, step: Step, id: DeliveryId)
    requires Enabled(s, step) && step.Finalize? && id in s.cells
    ensures id in Next(s, step).cells
    ensures Next(s, step).cells[id].row == FinalizeBulk(Rows(s), step.worker, step.results)[id]
  {
    ByIdKeys(step.results);
  }

  /** What the worker's senders and its failure path produce are results the protocol allows. */
  lemma WorkerResultsArePossible(d: ClaimedDelivery, k: nat, c: Claim, clock: Time, outcome: SendOutcome,
                                 error: string, at: Time)
    requires d.attemptCount == k + 1 && c.at <= at <= clock
    requires outcome.SendRaised? ==> c.at <= outcome.at <= clock
    requires outcome.SendOk? && d.channel in WORKER_SENDERS ==> c.delivered
    ensures PossibleResult(d.channel, k, c, clock, SendOne(d, WORKER_SENDERS, outcome))
    ensures PossibleResult(d.channel, k, c, clock, FailureResult(d, error, at))
  {
  }

  // ---- What every step keeps, whatever the worker ids ---------------------

  function Last(c: Cell): Claim
    requires c.claims != []
  {
    c.claims[|c.claims| - 1]
  }

  /** The three lock columns are set exactly while the row is SENDING. */
  predicate LockShape(d: Delivery) {
    && (d.status == Sending <==> d.lockedBy.Some?)
    && (d.status == Sending <==> d.lockedAt.Some?)
    && (d.status == Sending <==> d.lockExpiresAt.Some?)
  }

  predicate CellInv(c: Cell, clock: Time) {
    && LockShape(c.row)
    && c.row.attemptCount == |c.claims| <= c.row.maxAttempts
    && c.row.status != Dlq
    && (c.row.status == Pending <==> c.claims == [])
    && (forall k | 0 <= k < |c.claims| ::
          c.claims[k].at <= clock && c.claims[k].sendCalls <= 1
          && (c.claims[k].delivered ==> c.claims[k].sendCalls == 1))
    && (c.row.status == Sending ==>
          && c.row.lockedBy == Some(Last(c).worker)
          && c.row.lockedAt == Some(Last(c).at) == c.row.lastAttemptAt
          && c.row.lockExpiresAt == Some(Last(c).at + LEASE)
          && Last(c).phase != Settled)
    && (c.row.status == Sent ==> exists k :: 0 <= k < |c.claims| && c.claims[k].delivered)
  }

  predicate Inv(s: System) {
    forall id | id in s.cells :: CellInv(s.cells[id], s.clock)
  }

  lemma ClaimCellKeeps(c: Cell, event: EventId, worker: WorkerId, now: Time, clock: Time)
    requires CellInv(c, clock) && Claimable(c.row, event, now) && now <= clock
    ensures CellInv(ClaimCell(c, worker, now), clock)
  {
    var c' := ClaimCell(c, worker, now);
    assert forall k | 0 <= k < |c.claims| :: c'.claims[k] == c.claims[k];
  }

  lemma SendCellKeeps(c: Cell, k: nat, delivered: bool, clock: Time)
    requires CellInv(c, clock) && k < |c.claims| && c.claims[k].sendCalls == 0
    ensures CellInv(SendCell(c, k, delivered), clock)
  {
    var c' := SendCell(c, k, delivered);
    if c.row.status == Sent {
      var j :| 0 <= j < |c.claims| && c.claims[j].delivered;
      assert c'.claims[j].delivered;
    }
  }

  lemma SettleCellKeeps(c: Cell, k: nat, worker: WorkerId, r: SendResult, clock: Time)
    requires CellInv(c, clock) && k < |c.claims| && c.claims[k].worker == worker
    requires PossibleResult(c.row.channel, k, c.claims[k], clock, r)
    ensures CellInv(SettleCell(c, k, worker, r), clock)
  {
    var c' := SettleCell(c, k, worker, r);
    assert forall j | 0 <= j < |c.claims| :: c'.claims[j].delivered == c.claims[j].delivered;
    if c.row.status == Sent {
      var j :| 0 <= j < |c.claims| && c.claims[j].delivered;
      assert c'.claims[j].delivered;
    } else if c'.row.status == Sent {
      assert c'.claims[k].delivered;
    }
  }

  lemma AbandonCellKeeps(c: Cell, k: nat, clock: Time)
    requires CellInv(c, clock) && k < |c.claims|
    ensures CellInv(AbandonCell(c, k), clock)
  {
    var c' := AbandonCell(c, k);
    if c.row.status == Sent {
      var j :| 0 <= j < |c.claims| && c.claims[j].delivered;
      assert c'.claims[j].delivered;
    }
  }

  lemma StepKeepsInv(s: System, step: Step)
    requires Inv(s) && Enabled(s, step)
    ensures Inv(Next(s, step))
  {
    var s' := Next(s, step);
    forall id | id in s'.cells ensures CellInv(s'.cells[id], s'.clock) {
      if id in s.cells { CellStep(s, step, id); }
    }
  }

  /** One cell of one step. */
  lemma CellStep(s: System, step: Step, id: DeliveryId)
    requires Inv(s) && Enabled(s, step) && id in s.cells
    ensures id in Next(s, step).cells && CellInv(Next(s, step).cells[id], Next(s, step).clock)
  {
    var c := s.cells[id];
    match step
    case Tick(_) =>
    case Insert(_, _) =>
    case ClaimBatch(event, worker, now, limit, locked, chosen) =>
      if id in chosen {
        OnlyEligibleRowsAreClaimed(Rows(s), event, now, limit, locked, chosen);
        ClaimCellKeeps(c, event, worker, now, s.clock);
      }
    case Send(i, k, delivered) =>
      if i == id { SendCellKeeps(c, k, delivered, s.clock); }
    case Finalize(worker, batch, results) =>
      if id in batch {
        ResultOf(s, step, id);
        SettleCellKeeps(c, batch[id], worker, ById(results)[id], s.clock);
      }
    case Crash(batch) =>
      if id in batch { AbandonCellKeeps(c, batch[id], s.clock); }
  }

  lemma ResultOf(s: System, step: Step, id: DeliveryId)
    requires Enabled(s, step) && step.Finalize? && id in step.batch
    ensures id in ById(step.results) && id in s.cells && step.batch[id] < |s.cells[id].claims|
    ensures PossibleResult(s.cells[id].row.channel, step.batch[id], s.cells[id].claims[step.batch[id]], s.clock,
                           ById(step.results)[id])
  {
    ByIdKeys(step.results);
    ByIdDistinct(step.results);
  }

  /** The history of a row only grows: no claim of it is forgotten, moved or given to another worker. */
  predicate HistoryKept(c: Cell, c': Cell) {
    && |c.claims| <= |c'.claims| && c.row.eventId == c'.row.eventId && c.row.channel == c'.row.channel
    && forall k | 0 <= k < |c.claims| ::
         c'.claims[k].worker == c.claims[k].worker && c'.claims[k].at == c.claims[k].at
         && c'.claims[k].sendCalls >= c.claims[k].sendCalls
         && (c.claims[k].phase != Open ==> c'.claims[k].phase == c.claims[k].phase)
  }

  lemma CellOperationsKeepHistory(c: Cell, k: nat, worker: WorkerId, now: Time, delivered: bool, r: SendResult)
    ensures HistoryKept(c, c) && HistoryKept(c, ClaimCell(c, worker, now))
    ensures k < |c.claims| ==> HistoryKept(c, SendCell(c, k, delivered))
    ensures k < |c.claims| && c.claims[k].phase == Open ==> HistoryKept(c, SettleCell(c, k, worker, r))
    ensures k < |c.claims| && c.claims[k].phase == Open ==> HistoryKept(c, AbandonCell(c, k))
  {
  }

  /** What a step makes of one row and its history. */
  lemma CellAfter(s: System, step: Step, id: DeliveryId)
    requires Enabled(s, step) && id in s.cells
    ensures id in Next(s, step).cells
    ensures var c, c' := s.cells[id], Next(s, step).cells[id];
            match step
            case ClaimBatch(_, worker, now, _, _, chosen) => c' == if id in chosen then ClaimCell(c, worker, now) else c
            case Send(id', k, delivered) =>
              c' == if id == id' && k < |c.claims| then SendCell(c, k, delivered) else c
            case Finalize(worker, batch, results) =>
              if id in batch then
                && id in ById(results) && batch[id] < |c.claims| && c.claims[batch[id]].phase == Open
                && c' == SettleCell(c, batch[id], worker, ById(results)[id])
              else c' == c
            case Crash(batch) =>
              if id in batch then
                batch[id] < |c.claims| && c.claims[batch[id]].phase == Open && c' == AbandonCell(c, batch[id])
              else c' == c
            case _ => c' == c
  {
    if step.Finalize? && id in step.batch { ResultOf(s, step, id); }
    hide PossibleResult, IsClaim, ClaimCell, SendCell, SettleCell, AbandonCell, ById;
  }

  lemma StepKeepsHistory(s: System, step: Step, id: DeliveryId)
    requires Enabled(s, step) && id in s.cells
    ensures id in Next(s, step).cells && HistoryKept(s.cells[id], Next(s, step).cells[id])
  {
    CellAfter(s, step, id);
    hide Enabled, Next, HistoryKept, ClaimCell, SendCell, SettleCell, AbandonCell, ById;
    var c := s.cells[id];
    var r := SendResult(id, Sent, None, None);
    CellOperationsKeepHistory(c, 0, "", 0, false, r);
    match step
    case ClaimBatch(_, worker, now, _, _, _) => CellOperationsKeepHistory(c, 0, worker, now, false, r);
    case Send(_, k, delivered) => CellOperationsKeepHistory(c, k, "", 0, delivered, r);
    case Finalize(worker, batch, results) =>
      if id in batch { CellOperationsKeepHistory(c, batch[id], worker, 0, false, ById(results)[id]); }
    case Crash(batch) =>
      if id in batch { CellOperationsKeepHistory(c, batch[id], "", 0, false, r); }
    case _ =>
  }

  /** Main result: in every interleaving, with any worker ids, every row keeps the lease invariant and its history. */
  lemma {:induction false} RunKeepsInv(s: System, steps: seq<Step>)
    requires Inv(s) && ValidRun(s, steps)
    ensures Inv(After(s, steps)) && s.clock <= After(s, steps).clock
    ensures forall id | id in s.cells ::
              id in After(s, steps).cells && HistoryKept(s.cells[id], After(s, steps).cells[id])
    decreases |steps|
  {
    if steps == [] {
      assert forall id | id in s.cells :: HistoryKept(s.cells[id], s.cells[id]);
    } else {
      hide Inv, HistoryKept;
      var s' := Next(s, steps[0]);
      StepKeepsInv(s, steps[0]);
      RunKeepsInv(s', steps[1..]);
      forall id | id in s.cells
        ensures id in After(s, steps).cells && HistoryKept(s.cells[id], After(s, steps).cells[id])
      {
        StepKeepsHistory(s, steps[0], id);
        HistoryComposes(s.cells[id], s'.cells[id], After(s', steps[1..]).cells[id]);
      }
    }
  }

  lemma HistoryComposes(c: Cell, c': Cell, c'': Cell)
    requires HistoryKept(c, c') && HistoryKept(c', c'')
    ensures HistoryKept(c, c'')
  {
  }

  // ---- SENT is absorbing, attempts are budgeted ---------------------------

  lemma SentRowUntouched(s: System, step: Step, id: DeliveryId)
    requires Inv(s) && Enabled(s, step) && id in s.cells && s.cells[id].row.status == Sent
    ensures id in Next(s, step).cells && Next(s, step).cells[id].row == s.cells[id].row
  {
    if step.ClaimBatch? && id in step.chosen {
      OnlyEligibleRowsAreClaimed(Rows(s), step.event, step.now, step.limit, step.locked, step.chosen);
    }
  }

  /** Once SENT, no later claim, send, finalize or crash of any worker changes a column of the row. */
  lemma {:induction false} SentIsAbsorbing(s: System, steps: seq<Step>, id: DeliveryId)
    requires Inv(s) && ValidRun(s, steps) && id in s.cells && s.cells[id].row.status == Sent
    ensures id in After(s, steps).cells && After(s, steps).cells[id].row == s.cells[id].row
    decreases |steps|
  {
    if steps == [] {
    } else {
      SentRowUntouched(s, steps[0], id);
      StepKeepsInv(s, steps[0]);
      SentIsAbsorbing(Next(s, steps[0]), steps[1..], id);
    }
  }

  function SendCalls(claims: seq<Claim>): nat {
    if claims == [] then 0 else claims[0].sendCalls + SendCalls(claims[1..])
  }

  lemma {:induction false} SendCallsBound(claims: seq<Claim>)
    requires forall k | 0 <= k < |claims| :: claims[k].sendCalls <= 1
    ensures SendCalls(claims) <= |claims|
  {
    if claims == [] {
    } else {
      SendCallsBound(claims[1..]);
    }
  }

  /** attempt_count counts the claims, bounds the calls of sender.send, and never passes max_attempts. */
  lemma AttemptBudget(steps: seq<Step>, id: DeliveryId)
    requires ValidRun(INIT, steps) && id in After(INIT, steps).cells
    ensures var c := After(INIT, steps).cells[id];
            SendCalls(c.claims) <= c.row.attemptCount == |c.claims| <= c.row.maxAttempts
  {
    RunKeepsInv(INIT, steps);
    SendCallsBound(After(INIT, steps).cells[id].claims);
  }

  function ClaimsMade(steps: seq<Step>): nat {
    if steps == [] then 0
    else (if steps[0].ClaimBatch? then |steps[0].chosen| else 0) + ClaimsMade(steps[1..])
  }

  function AttemptsGranted(steps: seq<Step>): nat {
    if steps == [] then 0
    else (if steps[0].Insert? then steps[0].row.maxAttempts else 0) + AttemptsGranted(steps[1..])
  }

  lemma BudgetOfStep(s: System, step: Step)
    requires Inv(s) && Enabled(s, step)
    ensures Budget(Rows(Next(s, step))) ==
              Budget(Rows(s)) + (if step.Insert? then step.row.maxAttempts else 0)
                              - (if step.ClaimBatch? then |step.chosen| else 0)
  {
    match step
    case Insert(id, row) => InsertGrants(s, step);
    case ClaimBatch(event, worker, now, limit, locked, chosen) =>
      ClaimStepIsStatement(s, step);
      OnlyEligibleRowsAreClaimed(Rows(s), event, now, limit, locked, chosen);
      ClaimSpendsBudget(Rows(s), chosen, worker, now);
    case Finalize(worker, _, results) =>
      FinalizeStepIsStatement(s, step);
      FinalizeKeepsBudget(Rows(s), worker, results);
    case _ => OtherStepsKeepRows(s, step);
  }

  lemma InsertGrants(s: System, step: Step)
    requires Enabled(s, step) && step.Insert?
    ensures Budget(Rows(Next(s, step))) == Budget(Rows(s)) + step.row.maxAttempts
  {
    var before, after := RemainingAttempts(Rows(s)), RemainingAttempts(Rows(Next(s, step)));
    Sums.TotalInsert(before, step.id, step.row.maxAttempts);
    assert after == before[step.id := step.row.maxAttempts as int];
  }

  lemma OtherStepsKeepRows(s: System, step: Step)
    requires Enabled(s, step) && (step.Tick? || step.Send? || step.Crash?)
    ensures Rows(Next(s, step)) == Rows(s)
  {
  }

  /** Conservation over whole runs: every attempt a new row brings is either claimed once or still left. */
  lemma {:induction false} AttemptsConserved(s: System, steps: seq<Step>)
    requires Inv(s) && ValidRun(s, steps)
    ensures Budget(Rows(After(s, steps))) == Budget(Rows(s)) + AttemptsGranted(steps) - ClaimsMade(steps)
    decreases |steps|
  {
    if steps == [] {
    } else {
      BudgetOfStep(s, steps[0]);
      StepKeepsInv(s, steps[0]);
      AttemptsConserved(Next(s, steps[0]), steps[1..]);
    }
  }

  /** So no run, however long, claims more often than the attempts its rows were given. */
  lemma ClaimsBounded(steps: seq<Step>)
    requires ValidRun(INIT, steps)
    ensures ClaimsMade(steps) <= AttemptsGranted(steps)
  {
    AttemptsConserved(INIT, steps);
    RunKeepsInv(INIT, steps);
    var rows := Rows(After(INIT, steps));
    Sums.TotalAtLeast(RemainingAttempts(rows), 0);
    assert RemainingAttempts(Rows(INIT)) == map[];
  }

  // ---- Fencing, for claimants with distinct worker ids --------------------

  /**
   Claimants of one row are told apart by their worker id. A consumer and a sweeper of one process
   share an id, so this is a condition on runs, checked before each claim.
   */
  predicate DistinctClaimant(s: System, step: Step) {
    step.ClaimBatch? ==>
      forall id, k | id in step.chosen && id in s.cells && 0 <= k < |s.cells[id].claims| ::
        s.cells[id].claims[k].worker == step.worker ==> s.cells[id].claims[k].phase != Open
  }

  predicate FencedRun(s: System, steps: seq<Step>)
    decreases |steps|
  {
    steps == [] || (Enabled(s, steps[0]) && DistinctClaimant(s, steps[0]) && FencedRun(Next(s, steps[0]), steps[1..]))
  }

  /** Claim k + 1 came after the lease of claim k ran out, or after the backoff of its failed attempt. */
  predicate Spaced(c: Cell, k: nat)
    requires k + 1 < |c.claims|
  {
    || c.claims[k].at + LEASE < c.claims[k + 1].at
    || (&& c.claims[k].phase == Settled
        && (c.row.channel in WORKER_SENDERS ==> c.claims[k].at + BackoffAfter(k) <= c.claims[k + 1].at))
  }

  predicate FencedInv(c: Cell) {
    && (forall k | 0 <= k < |c.claims| - 1 :: Spaced(c, k))
    && (forall i, j | 0 <= i < j < |c.claims| && c.claims[i].phase == Open :: c.claims[i].worker != c.claims[j].worker)
    && (c.row.status == Failed || c.row.status == Sent ==> c.claims != [] && Last(c).phase == Settled)
    && (c.row.status == Failed ==>
          && (c.row.channel in WORKER_SENDERS ==> c.row.nextRetryAt.Some?)
          && (c.row.nextRetryAt.Some? ==> Last(c).at + BackoffAfter(|c.claims| - 1) <= c.row.nextRetryAt.value))
  }

  predicate Fenced(s: System) {
    Inv(s) && forall id | id in s.cells :: FencedInv(s.cells[id])
  }

  lemma ClaimCellFenced(c: Cell, event: EventId, worker: WorkerId, now: Time, clock: Time)
    requires CellInv(c, clock) && FencedInv(c) && Claimable(c.row, event, now)
    requires forall k | 0 <= k < |c.claims| :: c.claims[k].worker == worker ==> c.claims[k].phase != Open
    ensures FencedInv(ClaimCell(c, worker, now))
  {
    var c' := ClaimCell(c, worker, now);
    assert forall k | 0 <= k < |c.claims| :: c'.claims[k] == c.claims[k];
    forall k | 0 <= k < |c'.claims| - 1 ensures Spaced(c', k) {
      if k < |c.claims| - 1 {
        assert Spaced(c, k);
      } else {
        assert c.claims[k] == Last(c) && c'.claims[k + 1].at == now;
      }
    }
  }

  /** A finalize from a superseded claim leaves the row exactly as it was. */
  lemma SupersededFinalizeIsNoOp(c: Cell, k: nat, r: SendResult, clock: Time)
    requires CellInv(c, clock) && FencedInv(c)
    requires k < |c.claims| - 1 && c.claims[k].phase == Open
    ensures FinalizeRow(c.row, c.claims[k].worker, r) == c.row
  {
  }

  /** The current claim's finalize always lands: its row becomes the result it reports. */
  lemma CurrentFinalizeLands(c: Cell, r: SendResult, clock: Time)
    requires CellInv(c, clock) && FencedInv(c) && c.claims != [] && Last(c).phase == Open
    ensures var d := FinalizeRow(c.row, Last(c).worker, r);
            d.status == r.status && d.lastError == r.lastError && d.nextRetryAt == r.nextRetryAt && d.lockedBy == None
  {
  }

  lemma SettleCellFenced(c: Cell, k: nat, worker: WorkerId, r: SendResult, clock: Time)
    requires CellInv(c, clock) && FencedInv(c)
    requires k < |c.claims| && c.claims[k].phase == Open && c.claims[k].worker == worker
    requires PossibleResult(c.row.channel, k, c.claims[k], clock, r)
    ensures FencedInv(SettleCell(c, k, worker, r))
  {
    var c' := SettleCell(c, k, worker, r);
    forall j | 0 <= j < |c'.claims| - 1 ensures Spaced(c', j) {
      assert Spaced(c, j);
    }
    if k < |c.claims| - 1 {
      SupersededFinalizeIsNoOp(c, k, r, clock);
    } else {
      CurrentFinalizeLands(c, r, clock);
    }
  }

  lemma SendCellFenced(c: Cell, k: nat, delivered: bool)
    requires FencedInv(c) && k < |c.claims|
    ensures FencedInv(SendCell(c, k, delivered))
  {
    forall j | 0 <= j < |c.claims| - 1 ensures Spaced(SendCell(c, k, delivered), j) {
      assert Spaced(c, j);
    }
  }

  lemma AbandonCellFenced(c: Cell, k: nat, clock: Time)
    requires CellInv(c, clock) && FencedInv(c) && k < |c.claims| && c.claims[k].phase == Open
    ensures FencedInv(AbandonCell(c, k))
  {
    forall j | 0 <= j < |c.claims| - 1 ensures Spaced(AbandonCell(c, k), j) {
      assert Spaced(c, j);
    }
  }

  lemma StepKeepsFence(s: System, step: Step)
    requires Fenced(s) && Enabled(s, step) && DistinctClaimant(s, step)
    ensures Fenced(Next(s, step))
  {
    StepKeepsInv(s, step);
    var s' := Next(s, step);
    forall id | id in s'.cells ensures FencedInv(s'.cells[id]) {
      if id in s.cells { CellStepFenced(s, step, id); }
    }
  }

  lemma CellStepFenced(s: System, step: Step, id: DeliveryId)
    requires Fenced(s) && Enabled(s, step) && DistinctClaimant(s, step) && id in s.cells
    ensures id in Next(s, step).cells && FencedInv(Next(s, step).cells[id])
  {
    var c := s.cells[id];
    match step
    case Tick(_) =>
    case Insert(_, _) =>
    case ClaimBatch(event, worker, now, limit, locked, chosen) =>
      if id in chosen {
        OnlyEligibleRowsAreClaimed(Rows(s), event, now, limit, locked, chosen);
        ClaimCellFenced(c, event, worker, now, s.clock);
      }
    case Send(i, k, delivered) =>
      if i == id { SendCellFenced(c, k, delivered); }
    case Finalize(worker, batch, results) =>
      if id in batch {
        ResultOf(s, step, id);
        SettleCellFenced(c, batch[id], worker, ById(results)[id], s.clock);
      }
    case Crash(batch) =>
      if id in batch { AbandonCellFenced(c, batch[id], s.clock); }
  }

  lemma {:induction false} RunKeepsFence(s: System, steps: seq<Step>)
    requires Fenced(s) && FencedRun(s, steps)
    ensures ValidRun(s, steps) && Fenced(After(s, steps))
    decreases |steps|
  {
    if steps == [] {
    } else {
      StepKeepsFence(s, steps[0]);
      RunKeepsFence(Next(s, steps[0]), steps[1..]);
    }
  }

  /** Claim k has not been finalized and its lease has not run out. */
  predicate HoldsLease(c: Cell, k: nat, clock: Time) {
    k < |c.claims| && c.claims[k].phase != Settled && clock <= c.claims[k].at + LEASE
  }

  /** Mutual exclusion: after any interleaving at most one claim holds an unexpired lease on a delivery. */
  lemma AtMostOneLease(steps: seq<Step>, id: DeliveryId, i: nat, j: nat)
    requires FencedRun(INIT, steps) && ValidRun(INIT, steps) && id in After(INIT, steps).cells
    requires HoldsLease(After(INIT, steps).cells[id], i, After(INIT, steps).clock)
    requires HoldsLease(After(INIT, steps).cells[id], j, After(INIT, steps).clock)
    ensures i == j
  {
    RunKeepsFence(INIT, steps);
    var s := After(INIT, steps);
    if i + 1 < |s.cells[id].claims| { SupersededHoldsNoLease(s.cells[id], i, s.clock); }
    if j + 1 < |s.cells[id].claims| { SupersededHoldsNoLease(s.cells[id], j, s.clock); }
  }

  lemma SupersededHoldsNoLease(c: Cell, k: nat, clock: Time)
    requires CellInv(c, clock) && FencedInv(c) && k + 1 < |c.claims|
    ensures !HoldsLease(c, k, clock)
  {
    assert Spaced(c, k);
  }

  /** Two successive claims are a lease apart, or a failed attempt's backoff apart. */
  lemma ClaimsSpaced(steps: seq<Step>, id: DeliveryId, k: nat)
    requires FencedRun(INIT, steps) && ValidRun(INIT, steps) && id in After(INIT, steps).cells
    requires k + 1 < |After(INIT, steps).cells[id].claims|
    requires After(INIT, steps).cells[id].row.channel in WORKER_SENDERS
    ensures var claims := After(INIT, steps).cells[id].claims;
            || claims[k + 1].at - claims[k].at > LEASE
            || (claims[k].phase == Settled && claims[k + 1].at - claims[k].at >= BackoffAfter(k))
  {
    RunKeepsFence(INIT, steps);
    assert Spaced(After(INIT, steps).cells[id], k);
  }

  /** After a fenced run a finalize step changes a row exactly when it comes from the row's current claim. */
  lemma FinalizeFenced(steps: seq<Step>, step: Step, id: DeliveryId)
    requires FencedRun(INIT, steps) && ValidRun(INIT, steps)
    requires Enabled(After(INIT, steps), step) && step.Finalize? && id in After(INIT, steps).cells
    ensures var s := After(INIT, steps);
            var s' := Next(s, step);
            && id in s'.cells
            && (s'.cells[id].row != s.cells[id].row <==>
                  id in step.batch && step.batch[id] == |s.cells[id].claims| - 1)
  {
    RunKeepsFence(INIT, steps);
    FinalizeFencedAt(After(INIT, steps), step, id);
  }

  lemma FinalizeFencedAt(s: System, step: Step, id: DeliveryId)
    requires Fenced(s) && Enabled(s, step) && step.Finalize? && id in s.cells
    ensures var s' := Next(s, step);
            id in s'.cells && (s'.cells[id].row != s.cells[id].row <==>
                                 id in step.batch && step.batch[id] == |s.cells[id].claims| - 1)
  {
    SettledCell(s, step, id);
    assert CellInv(s.cells[id], s.clock) && FencedInv(s.cells[id]);
    hide Enabled, Next, FencedInv, CellInv, FinalizeRow;
    if id in step.batch {
      FinalizeChangesCurrent(s.cells[id], step.batch[id], ById(step.results)[id], s.clock);
    }
  }

  lemma FinalizeChangesCurrent(c: Cell, k: nat, r: SendResult, clock: Time)
    requires CellInv(c, clock) && FencedInv(c) && k < |c.claims| && c.claims[k].phase == Open
    ensures FinalizeRow(c.row, c.claims[k].worker, r) != c.row <==> k == |c.claims| - 1
  {
    if k < |c.claims| - 1 {
      SupersededFinalizeIsNoOp(c, k, r, clock);
    } else {
      CurrentFinalizeLands(c, r, clock);
      CurrentIsHeld(c, clock);
    }
  }

  /** The current claim, while open, still has its row: nobody else can have finalized it. */
  lemma CurrentIsHeld(c: Cell, clock: Time)
    requires CellInv(c, clock) && FencedInv(c) && c.claims != [] && Last(c).phase == Open
    ensures OwnedBy(c.row, Last(c).worker)
  {
  }

  /** A row of a finalize step: settled by its own result if it is in the batch, else untouched. */
  lemma SettledCell(s: System, step: Step, id: DeliveryId)
    requires Enabled(s, step) && step.Finalize? && id in s.cells
    ensures id in Next(s, step).cells
    ensures id !in step.batch ==> Next(s, step).cells[id] == s.cells[id]
    ensures id in step.batch ==>
              && id in ById(step.results) && step.batch[id] < |s.cells[id].claims|
              && s.cells[id].claims[step.batch[id]].phase == Open
              && s.cells[id].claims[step.batch[id]].worker == step.worker
              && Next(s, step).cells[id].row == FinalizeRow(s.cells[id].row, step.worker, ById(step.results)[id])
  {
    if id in step.batch { ResultOf(s, step, id); }
  }

  /** With any worker ids: a superseded finalize gets through exactly when the new owner has the same id. */
  lemma SupersededFinalizeExactly(c: Cell, k: nat, r: SendResult, clock: Time)
    requires CellInv(c, clock) && k < |c.claims| - 1 && r.status != Sending
    ensures FinalizeRow(c.row, c.claims[k].worker, r) != c.row
            <==> c.row.status == Sending && Last(c).worker == c.claims[k].worker
  {
  }

  // ---- Why the ids must differ --------------------------------------------

  const SAMPLE := Delivery(1, Email, EmailAddress, "a@b.c", 0, Pending, 0, 5, None, None, None, None, None, None)
  const SHARED: WorkerId := "host:1"
  const OTHER: WorkerId := "host:2"
  const LATE := SendResult(1, Failed, Some("timeout"), Some(Seconds(260)))

  function One(clock: Time, row: Delivery, claims: seq<Claim>): System {
    System(clock, map[1 := Cell(row, claims)])
  }

  function ClaimOne(worker: WorkerId, now: Time): Step {
    ClaimBatch(1, worker, now, 1, {}, {1})
  }

  lemma SoleRowIsClaimed(rows: Table, now: Time)
    requires rows.Keys == {1} && Claimable(rows[1], 1, now)
    ensures IsClaim(rows, 1, now, 1, {}, {1})
  {
    assert Eligible(rows, 1, now, {}) == {1};
  }

  lemma RunCons(s: System, step: Step, rest: seq<Step>)
    requires Enabled(s, step) && ValidRun(Next(s, step), rest)
    ensures ValidRun(s, [step] + rest) && After(s, [step] + rest) == After(Next(s, step), rest)
  {
    assert ([step] + rest)[1..] == rest;
  }

  lemma ClaimOneStep(clock: Time, row: Delivery, claims: seq<Claim>, worker: WorkerId, now: Time)
    requires Claimable(row, 1, now) && now <= clock
    ensures Enabled(One(clock, row, claims), ClaimOne(worker, now))
    ensures Next(One(clock, row, claims), ClaimOne(worker, now))
            == One(clock, ClaimRow(row, worker, now), claims + [Claim(worker, now, 0, false, Open)])
  {
    SoleRowIsClaimed(Rows(One(clock, row, claims)), now);
  }

  const FIRST := Claim(SHARED, 0, 0, false, Open)
  const SECOND := Claim(SHARED, Seconds(200), 0, false, Open)
  const THIRD := Claim(OTHER, Seconds(260), 0, false, Open)
  const ONCE := ClaimRow(SAMPLE, SHARED, 0)
  const TWICE := ClaimRow(ONCE, SHARED, Seconds(200))
  const RELEASED := FinalizeRow(TWICE, SHARED, LATE)
  const LATE_FINALIZE := Finalize(SHARED, map[1 := 0], [LATE])
  const HELD_TWICE := One(Seconds(260), ClaimRow(RELEASED, OTHER, Seconds(260)),
                          [FIRST.(phase := Settled), SECOND, THIRD])

  lemma LateFinalizeEnabled()
    ensures Enabled(One(Seconds(200), TWICE, [FIRST, SECOND]), LATE_FINALIZE)
  {
    assert Backoff.BackoffMinutes(1) == 1;
    assert PossibleResult(Email, 0, FIRST, Seconds(200), LATE);
    assert ResultIds([LATE]) == [1];
  }

  lemma LateFinalizeReleases()
    requires Enabled(One(Seconds(200), TWICE, [FIRST, SECOND]), LATE_FINALIZE)
    ensures Next(One(Seconds(200), TWICE, [FIRST, SECOND]), LATE_FINALIZE)
            == One(Seconds(200), RELEASED, [FIRST.(phase := Settled), SECOND])
  {
    assert ById([LATE]) == map[1 := LATE] by { assert [LATE][..0] == []; }
    var s := One(Seconds(200), TWICE, [FIRST, SECOND]);
    assert [FIRST, SECOND][0 := FIRST.(phase := Settled)] == [FIRST.(phase := Settled), SECOND];
    assert SettleCell(s.cells[1], 0, SHARED, LATE) == Cell(RELEASED, [FIRST.(phase := Settled), SECOND]);
    assert Next(s, LATE_FINALIZE).cells[1] == SettleCell(s.cells[1], 0, SHARED, LATE);
  }

  lemma TakeOver() returns (tail: seq<Step>)
    ensures var s := One(Seconds(200), RELEASED, [FIRST.(phase := Settled), SECOND]);
            ValidRun(s, tail) && After(s, tail) == HELD_TWICE
  {
    var claims := [FIRST.(phase := Settled), SECOND];
    ClaimOneStep(Seconds(260), RELEASED, claims, OTHER, Seconds(260));
    assert claims + [THIRD] == [FIRST.(phase := Settled), SECOND, THIRD];
    RunCons(One(Seconds(260), RELEASED, claims), ClaimOne(OTHER, Seconds(260)), []);
    tail := [ClaimOne(OTHER, Seconds(260))] + [];
    RunCons(One(Seconds(200), RELEASED, claims), Tick(Seconds(260)), tail);
    tail := [Tick(Seconds(260))] + tail;
  }

  lemma LateFinalize() returns (tail: seq<Step>)
    ensures ValidRun(One(Seconds(200), TWICE, [FIRST, SECOND]), tail)
    ensures After(One(Seconds(200), TWICE, [FIRST, SECOND]), tail) == HELD_TWICE
  {
    tail := TakeOver();
    LateFinalizeEnabled();
    LateFinalizeReleases();
    hide Enabled, Next;
    RunCons(One(Seconds(200), TWICE, [FIRST, SECOND]), LATE_FINALIZE, tail);
    tail := [LATE_FINALIZE] + tail;
  }

  lemma StaleThenLate() returns (tail: seq<Step>)
    ensures ValidRun(One(Seconds(200), ONCE, [FIRST]), tail)
    ensures After(One(Seconds(200), ONCE, [FIRST]), tail) == HELD_TWICE
  {
    tail := LateFinalize();
    ClaimOneStep(Seconds(200), ONCE, [FIRST], SHARED, Seconds(200));
    assert [FIRST] + [SECOND] == [FIRST, SECOND];
    RunCons(One(Seconds(200), ONCE, [FIRST]), ClaimOne(SHARED, Seconds(200)), tail);
    tail := [ClaimOne(SHARED, Seconds(200))] + tail;
  }

  lemma TimePasses() returns (tail: seq<Step>)
    ensures ValidRun(One(0, ONCE, [FIRST]), tail)
    ensures After(One(0, ONCE, [FIRST]), tail) == HELD_TWICE
  {
    tail := StaleThenLate();
    RunCons(One(0, ONCE, [FIRST]), Tick(Seconds(200)), tail);
    tail := [Tick(Seconds(200))] + tail;
  }

  lemma FirstClaim() returns (tail: seq<Step>)
    ensures ValidRun(One(0, SAMPLE, []), tail) && After(One(0, SAMPLE, []), tail) == HELD_TWICE
  {
    tail := TimePasses();
    ClaimOneStep(0, SAMPLE, [], SHARED, 0);
    assert [] + [FIRST] == [FIRST];
    RunCons(One(0, SAMPLE, []), ClaimOne(SHARED, 0), tail);
    tail := [ClaimOne(SHARED, 0)] + tail;
  }

  /**
   The consumer and the sweeper of one process share a worker id. Its first claim goes stale, its
   second takes the row over, and the first one's late failure releases the row; another worker then
   claims it while the second claim's lease still runs: two holders at once.
   */
  lemma SharedWorkerIdBreaksTheLease() returns (steps: seq<Step>, id: DeliveryId)
    ensures ValidRun(INIT, steps) && id in After(INIT, steps).cells
    ensures HoldsLease(After(INIT, steps).cells[id], 1, After(INIT, steps).clock)
    ensures HoldsLease(After(INIT, steps).cells[id], 2, After(INIT, steps).clock)
  {
    id := 1;
    steps := FirstClaim();
    RunCons(INIT, Insert(1, SAMPLE), steps);
    steps := [Insert(1, SAMPLE)] + steps;
  }
}
