/**
 How deliveries run out of attempts, in every interleaving of the lease protocol. A row is claimed
 exactly as often as it uses an attempt; a row nobody sends is never SENT; and after as many claims
 of its event past its time as it has attempts left, a row is SENT or exhausted.
 */
module SweepDrain {
  import opened Prelude
  import opened Selection
  import opened Deliveries
  import opened DeliveryResults
  import opened LeaseProtocol
  import opened DeliveryCalls
  import Backoff
  import Sweep

  predicate ClaimsRow(step: Step, id: DeliveryId) {
    step.ClaimBatch? && id in step.chosen
  }

  function TimesClaimed(steps: seq<Step>, id: DeliveryId): nat {
    if steps == [] then 0 else (if ClaimsRow(steps[0], id) then 1 else 0) + TimesClaimed(steps[1..], id)
  }

  /** No send of this row has returned. */
  predicate Undelivered(c: Cell) {
    forall k | 0 <= k < |c.claims| :: !c.claims[k].delivered
  }

  // ---- One step -------------------------------------------------------------------

  lemma ClaimCounts(s: System, step: Step, id: DeliveryId)
    requires Inv(s) && Enabled(s, step) && id in s.cells
    ensures id in Next(s, step).cells
    ensures Next(s, step).cells[id].row.attemptCount
            == s.cells[id].row.attemptCount + (if ClaimsRow(step, id) then 1 else 0)
    ensures Next(s, step).cells[id].row.maxAttempts == s.cells[id].row.maxAttempts
    ensures Next(s, step).cells[id].row.eventId == s.cells[id].row.eventId
  {
    CellAfter(s, step, id);
    hide Enabled, Next, ById, Inv;
  }

  lemma StaysUndelivered(s: System, step: Step, id: DeliveryId)
    requires Enabled(s, step) && id in s.cells && Undelivered(s.cells[id])
    requires !(step.Send? && step.id == id)
    ensures id in Next(s, step).cells && Undelivered(Next(s, step).cells[id])
  {
    CellAfter(s, step, id);
    hide Enabled, Next, ById, FinalizeRow, ClaimRow;
  }

  /** The row's retry time has come, or its lease has run out. */
  predicate PastDue(d: Delivery, now: Time) {
    && (d.status == Failed && d.nextRetryAt.Some? ==> d.nextRetryAt.value <= now)
    && (d.status == Sending && d.lockExpiresAt.Some? ==> d.lockExpiresAt.value < now)
  }

  /** In every reachable state a row is claimable exactly while it is unsent, has attempts left, and is past due. */
  lemma ClaimableIff(c: Cell, clock: Time, now: Time)
    requires CellInv(c, clock)
    ensures Claimable(c.row, c.row.eventId, now)
            <==> c.row.status != Sent && c.row.attemptCount < c.row.maxAttempts && PastDue(c.row, now)
  {
  }

  /** A claim of the row's event, past its due time, with room for all that is eligible, while nobody locks the row. */
  predicate Visits(s: System, step: Step, id: DeliveryId) {
    && step.ClaimBatch? && id in s.cells && step.event == s.cells[id].row.eventId && id !in step.locked
    && PastDue(s.cells[id].row, step.now)
    && |Eligible(Rows(s), step.event, step.now, step.locked)| <= step.limit
  }

  /** Such a claim takes the row, unless it is SENT or out of attempts. */
  lemma VisitedIsClaimed(s: System, step: Step, id: DeliveryId)
    requires Inv(s) && Enabled(s, step) && Visits(s, step, id)
    requires s.cells[id].row.status != Sent && s.cells[id].row.attemptCount < s.cells[id].row.maxAttempts
    ensures ClaimsRow(step, id)
  {
    assert CellInv(s.cells[id], s.clock);
    ClaimableIff(s.cells[id], s.clock, step.now);
    hide CellInv, Claimable, PastDue;
    assert id in Eligible(Rows(s), step.event, step.now, step.locked);
    RoomForAll(Rows(s), step.event, step.now, step.limit, step.locked, step.chosen, id);
  }

  // ---- Whole runs -------------------------------------------------------------------

  /** Attempts are claims: over any run a row's attempts rise by exactly the claims of it. */
  lemma {:induction false} AttemptsAreClaims(s: System, steps: seq<Step>, id: DeliveryId)
    requires Inv(s) && ValidRun(s, steps) && id in s.cells
    ensures Inv(After(s, steps)) && id in After(s, steps).cells
    ensures var before, after := s.cells[id].row, After(s, steps).cells[id].row;
            && after.attemptCount == before.attemptCount + TimesClaimed(steps, id) <= after.maxAttempts
            && after.maxAttempts == before.maxAttempts && after.eventId == before.eventId
    decreases |steps|
  {
    if steps == [] {
      assert CellInv(s.cells[id], s.clock);
    } else {
      hide Enabled, Next, Inv;
      ClaimCounts(s, steps[0], id);
      StepKeepsInv(s, steps[0]);
      AttemptsAreClaims(Next(s, steps[0]), steps[1..], id);
    }
  }

  /**
   A row that nobody sends during a run, such as an IN_APP or PUSH row that only sweeps handle, is never
   SENT, and it is claimed exactly as often as it uses an attempt, never more often than it has left.
   */
  lemma {:induction false} InAppDrains(s: System, steps: seq<Step>, id: DeliveryId)
    requires Inv(s) && ValidRun(s, steps) && id in s.cells && Undelivered(s.cells[id]) && NoSends(steps, id)
    ensures Inv(After(s, steps)) && id in After(s, steps).cells && Undelivered(After(s, steps).cells[id])
    ensures var before, after := s.cells[id].row, After(s, steps).cells[id].row;
            && after.status != Sent && after.maxAttempts == before.maxAttempts
            && after.attemptCount == before.attemptCount + TimesClaimed(steps, id) <= after.maxAttempts
    decreases |steps|
  {
    if steps == [] {
      assert CellInv(s.cells[id], s.clock);
    } else {
      hide Enabled, Next, Inv, Undelivered;
      ClaimCounts(s, steps[0], id);
      StaysUndelivered(s, steps[0], id);
      StepKeepsInv(s, steps[0]);
      assert forall i | 0 <= i < |steps[1..]| :: steps[1..][i] == steps[i + 1];
      InAppDrains(Next(s, steps[0]), steps[1..], id);
    }
  }

  /** Rows of channels without a sender have never been sent. */
  predicate UnsentChannels(s: System) {
    forall id | id in s.cells && s.cells[id].row.channel !in WORKER_SENDERS :: Undelivered(s.cells[id])
  }

  lemma StepKeepsUnsentChannels(s: System, step: Step)
    requires UnsentChannels(s) && Enabled(s, step)
    ensures UnsentChannels(Next(s, step))
  {
    var s' := Next(s, step);
    forall id | id in s'.cells && s'.cells[id].row.channel !in WORKER_SENDERS ensures Undelivered(s'.cells[id]) {
      if id in s.cells {
        StepKeepsHistory(s, step, id);
        StaysUndelivered(s, step, id);
      }
    }
  }

  lemma {:induction false} RunKeepsUnsentChannels(s: System, steps: seq<Step>)
    requires UnsentChannels(s) && ValidRun(s, steps)
    ensures UnsentChannels(After(s, steps))
    decreases |steps|
  {
    hide UnsentChannels, Enabled, Next;
    if steps == [] {
    } else {
      StepKeepsUnsentChannels(s, steps[0]);
      RunKeepsUnsentChannels(Next(s, steps[0]), steps[1..]);
    }
  }

  /** So a PUSH delivery is never SENT, whoever handles it. */
  lemma PushIsNeverSent(steps: seq<Step>, id: DeliveryId)
    requires ValidRun(INIT, steps) && id in After(INIT, steps).cells && After(INIT, steps).cells[id].row.channel == Push
    ensures After(INIT, steps).cells[id].row.status != Sent
  {
    RunKeepsInv(INIT, steps);
    RunKeepsUnsentChannels(INIT, steps);
    assert CellInv(After(INIT, steps).cells[id], After(INIT, steps).clock);
  }

  /** How many steps of a run visit the row. */
  function TimesVisited(s: System, steps: seq<Step>, id: DeliveryId): nat
    requires ValidRun(s, steps)
    decreases |steps|
  {
    if steps == [] then 0
    else (if Visits(s, steps[0], id) then 1 else 0) + TimesVisited(Next(s, steps[0]), steps[1..], id)
  }

  lemma {:induction false} VisitsUseAttempts(s: System, steps: seq<Step>, id: DeliveryId)
    requires Inv(s) && ValidRun(s, steps) && id in s.cells
    ensures Inv(After(s, steps)) && id in After(s, steps).cells
    ensures var before, after := s.cells[id].row, After(s, steps).cells[id].row;
            || after.status == Sent || after.attemptCount == after.maxAttempts
            || after.attemptCount >= before.attemptCount + TimesVisited(s, steps, id)
    ensures After(s, steps).cells[id].row.maxAttempts == s.cells[id].row.maxAttempts
    decreases |steps|
  {
    AttemptsAreClaims(s, steps, id);
    if steps == [] {
    } else if s.cells[id].row.status == Sent {
      SentIsAbsorbing(s, steps, id);
    } else {
      var s' := Next(s, steps[0]);
      assert CellInv(s.cells[id], s.clock);
      hide Enabled, Next, Inv, Visits, CellInv;
      ClaimCounts(s, steps[0], id);
      StepKeepsInv(s, steps[0]);
      VisitsUseAttempts(s', steps[1..], id);
      if Visits(s, steps[0], id) && s.cells[id].row.attemptCount < s.cells[id].row.maxAttempts {
        VisitedIsClaimed(s, steps[0], id);
      }
    }
  }

  /**
   Whatever else happens, after as many visits as it has attempts left a delivery is SENT or out of
   attempts; and then no claim will ever take it again.
   */
  lemma SentOrExhausted(s: System, steps: seq<Step>, id: DeliveryId)
    requires Inv(s) && ValidRun(s, steps) && id in s.cells
    requires TimesVisited(s, steps, id) >= s.cells[id].row.maxAttempts - s.cells[id].row.attemptCount
    ensures id in After(s, steps).cells
    ensures var d := After(s, steps).cells[id].row;
            (d.status == Sent || d.attemptCount == d.maxAttempts) && forall event, now :: !Claimable(d, event, now)
  {
    VisitsUseAttempts(s, steps, id);
    AttemptsAreClaims(s, steps, id);
    assert CellInv(After(s, steps).cells[id], After(s, steps).clock);
  }

  /** A row nobody sends is then out of attempts: it drains instead of looping. */
  lemma InAppExhausted(s: System, steps: seq<Step>, id: DeliveryId)
    requires Inv(s) && ValidRun(s, steps) && id in s.cells && Undelivered(s.cells[id]) && NoSends(steps, id)
    requires TimesVisited(s, steps, id) >= s.cells[id].row.maxAttempts - s.cells[id].row.attemptCount
    ensures id in After(s, steps).cells
    ensures var d := After(s, steps).cells[id].row;
            && d.status != Sent && d.attemptCount == d.maxAttempts
            && TimesClaimed(steps, id) == d.maxAttempts - s.cells[id].row.attemptCount
            && forall event, now :: !Claimable(d, event, now)
  {
    InAppDrains(s, steps, id);
    SentOrExhausted(s, steps, id);
  }

  // ---- Its time always comes -----------------------------------------------------------

  /** No row waits longer than an hour from now. */
  predicate DueSoon(s: System) {
    forall id | id in s.cells && s.cells[id].row.status == Failed && s.cells[id].row.nextRetryAt.Some? ::
      s.cells[id].row.nextRetryAt.value <= s.clock + Minutes(60)
  }

  lemma ResultIsSoon(s: System, step: Step, id: DeliveryId)
    requires Enabled(s, step) && step.Finalize? && id in step.batch
    ensures id in ById(step.results)
    ensures var due := ById(step.results)[id].nextRetryAt;
            due.Some? ==> due.value <= s.clock + Minutes(60)
  {
    ResultOf(s, step, id);
    hide ById, Enabled;
    Backoff.BackoffMonotone(step.batch[id] + 1, step.batch[id] + 1);
    var b := Backoff.BackoffMinutes(step.batch[id] + 1);
    assert Minutes(b) <= Minutes(60);
  }

  lemma StepKeepsDueSoon(s: System, step: Step)
    requires DueSoon(s) && Enabled(s, step)
    ensures DueSoon(Next(s, step))
  {
    var s' := Next(s, step);
    forall id | id in s'.cells && s'.cells[id].row.status == Failed && s'.cells[id].row.nextRetryAt.Some?
      ensures s'.cells[id].row.nextRetryAt.value <= s'.clock + Minutes(60)
    {
      if id in s.cells {
        CellAfter(s, step, id);
        if step.Finalize? && id in step.batch { ResultIsSoon(s, step, id); }
        ClockStep(s, step);
        hide Enabled, Next, ById, Minutes;
      }
    }
  }

  lemma ClockStep(s: System, step: Step)
    requires Enabled(s, step)
    ensures s.clock <= Next(s, step).clock
  {
  }

  lemma {:induction false} RunKeepsDueSoon(s: System, steps: seq<Step>)
    requires DueSoon(s) && ValidRun(s, steps)
    ensures DueSoon(After(s, steps))
    decreases |steps|
  {
    hide DueSoon, Enabled, Next;
    if steps == [] {
    } else {
      StepKeepsDueSoon(s, steps[0]);
      RunKeepsDueSoon(Next(s, steps[0]), steps[1..]);
    }
  }

  /** After any run, an hour later every row is past due, however its last attempt went. */
  lemma TimeComesAgain(steps: seq<Step>, id: DeliveryId, now: Time)
    requires ValidRun(INIT, steps) && id in After(INIT, steps).cells && now >= After(INIT, steps).clock + Minutes(60)
    ensures PastDue(After(INIT, steps).cells[id].row, now)
  {
    RunKeepsInv(INIT, steps);
    RunKeepsDueSoon(INIT, steps);
    assert CellInv(After(INIT, steps).cells[id], After(INIT, steps).clock);
  }

  // ---- Sweeps are such runs ----------------------------------------------------------------

  /**
   A call of SweepEvent, with others acting before and after its sends, is a run that sends no IN_APP or
   PUSH row unless the others do; its first step is its claim.
   */
  lemma SweepSendsNoInApp(s: System, claim: Step, claimed: seq<ClaimedDelivery>, others: seq<Step>, sends: SendsMade,
                          later: seq<Step>, s': System, at: DeliveryId -> Time, sending: Sending, id: DeliveryId)
      returns (steps: seq<Step>)
    requires Closes(s, claim, claimed, others, sends, later, s')
    requires SendsOf(Sweep.Others(claimed), sending, sends)
    requires Timely(Sweep.Others(claimed), sending, claim.now, s'.clock)
    requires forall c | c in claimed && Sweep.NotSwept(c) :: claim.now <= at(c.id) <= s'.clock
    requires id in s.cells && s.cells[id].row.channel in {InApp, Push} && NoSends(others, id) && NoSends(later, id)
    ensures ValidRun(s, steps) && steps != [] && steps[0] == claim && NoSends(steps, id)
    ensures Sweep.Swept(Rows(s'), Rows(After(s, steps)), claim.worker, claimed, at, sending)
  {
    steps := SweepCallIsRun(s, claim, claimed, others, sends, later, s', at, sending);
    ReturnedAreClaimed(s, claim, claimed);
    assert forall c | c in Sweep.Others(claimed) :: c.id in s.cells && c.channel == s.cells[c.id].row.channel;
  }
}
