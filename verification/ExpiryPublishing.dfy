/**
 The publishes of the expiry job and the outbox they leave: what it means for the outbox
 that an alert counts as published.
 */
module ExpiryPublishing {
  import opened Prelude
  import opened Outbox
  import EB = ExpiryBatches
  import OP = OutboxProtocol

  /** One publish of a batch; `event` is None when the item has lost its expiry date. */
  datatype Call = Call(batch: nat, alert: EB.AlertId, event: Option<EventId>, freshId: OutboxId, now: Time,
                       broker: Immediate)

  /** What publish_expiry_event makes of the outbox, and whether it returned. */
  predicate Made(rows: Table, call: Call, id: OutboxId, ok: bool, after: Table) {
    if call.event.None? then ok && after == rows
    else
      && IsEventRow(rows, call.event.value, call.freshId, id)
      && (ok <==> !TimesOut(rows, call.event.value, id, call.now, EB.MAX_ATTEMPTS, call.broker))
      && after == if ok
                  then RowsAfterImmediate(rows, call.event.value, id, call.now, EB.MAX_ATTEMPTS, call.broker)
                  else rows
  }

  /** _publish_one: an alert counts as published unless the call raised. */
  method PublishOne(outbox: OutboxTable, call: Call) returns (ok: bool, id: OutboxId)
    requires UniqueEvents(outbox.rows) && call.freshId !in outbox.rows
    modifies outbox
    ensures Made(old(outbox.rows), call, id, ok, outbox.rows)
  {
    var end;
    end, id := outbox.PublishExpiryEvent(call.event, call.freshId, call.now, EB.MAX_ATTEMPTS, call.broker);
    ok := end == Returned;
  }

  /** The publishes of a run in the order their transactions end, and what others commit in between. */
  datatype Step =
    | Publish(call: Call, id: OutboxId, ok: bool, after: Table)
    | Others(after: Table)

  predicate KeepsEvents(rows: Table, after: Table) {
    UniqueEvents(after) && forall id | id in rows :: id in after && after[id].eventId == rows[id].eventId
  }

  predicate Possible(rows: Table, step: Step) {
    match step
    case Publish(call, id, ok, after) => call.freshId !in rows && Made(rows, call, id, ok, after)
    case Others(after) => KeepsEvents(rows, after)
  }

  predicate ValidTrace(rows: Table, steps: seq<Step>)
    decreases |steps|
  {
    steps == [] || (Possible(rows, steps[0]) && ValidTrace(steps[0].after, steps[1..]))
  }

  function Final(rows: Table, steps: seq<Step>): Table {
    if steps == [] then rows else steps[|steps| - 1].after
  }

  /** Whatever sweepers, publishers and crashes do to the outbox is such a step of others. */
  lemma ProtocolRunsKeepEvents(s: OP.System, steps: seq<OP.Step>)
    requires OP.Inv(s) && OP.ValidRun(s, steps)
    ensures Possible(s.rows, Others(OP.After(s, steps).rows))
  {
    OP.RunKeepsInv(s, steps);
  }

  predicate HasEvent(rows: Table, event: EventId) {
    exists id | id in rows :: rows[id].eventId == event
  }

  /** A publish that returned leaves a row for its event, and every step keeps all events. */
  lemma StepFacts(rows: Table, step: Step)
    requires UniqueEvents(rows) && Possible(rows, step)
    ensures KeepsEvents(rows, step.after)
    ensures step.Publish? && step.ok && step.call.event.Some? ==> HasEvent(step.after, step.call.event.value)
  {
    if step.Publish? && step.call.event.Some? {
      var call := step.call;
      ImmediateFacts(rows, call.event.value, call.freshId, step.id, call.now, EB.MAX_ATTEMPTS, call.broker);
    }
  }

  lemma {:induction false} EventsStay(rows: Table, steps: seq<Step>, event: EventId)
    requires UniqueEvents(rows) && ValidTrace(rows, steps) && HasEvent(rows, event)
    ensures HasEvent(Final(rows, steps), event)
    decreases |steps|
  {
    if steps == [] {
    } else {
      StepFacts(rows, steps[0]);
      var id :| id in rows && rows[id].eventId == event;
      assert steps[0].after[id].eventId == event;
      EventsStay(steps[0].after, steps[1..], event);
    }
  }

  /** Every publish that returned has left a row for its event at the end of the run. */
  lemma {:induction false} ReturnedHaveRows(rows: Table, steps: seq<Step>, i: nat)
    requires UniqueEvents(rows) && ValidTrace(rows, steps) && i < |steps|
    requires steps[i].Publish? && steps[i].ok && steps[i].call.event.Some?
    ensures HasEvent(Final(rows, steps), steps[i].call.event.value)
    decreases |steps|
  {
    StepFacts(rows, steps[0]);
    if i == 0 {
      EventsStay(steps[0].after, steps[1..], steps[0].call.event.value);
    } else {
      ReturnedHaveRows(steps[0].after, steps[1..], i - 1);
    }
  }

  /** The job takes a publish for accepted only if one of that alert in that batch returned. */
  ghost predicate Reports(steps: seq<Step>, env: EB.Environment) {
    forall n: nat, alert: EB.AlertId | env.publishOk(n, alert) :: exists i :: IsReturn(steps, i, n, alert)
  }

  predicate IsReturn(steps: seq<Step>, i: int, n: nat, alert: EB.AlertId) {
    && 0 <= i < |steps| && steps[i].Publish? && steps[i].ok
    && steps[i].call.batch == n && steps[i].call.alert == alert
  }

  /**
   No alert is lost between the job and the outbox: one that a run newly marks as published had a publish that
   returned in one of the batches, and after the run the outbox holds a row for its event, unless the item had
   lost its expiry date by then; also with sweepers and other publishers at work all the time.
   */
  lemma PublishedHaveRows(alerts: EB.Table, t: EB.AlertType, limit: nat, cap: nat, env: EB.Environment, n: nat,
                          alert: EB.AlertId, rows: Table, steps: seq<Step>)
      returns (k: nat, i: nat)
    requires UniqueEvents(rows) && ValidTrace(rows, steps) && Reports(steps, env)
    requires alert in alerts && alerts[alert].publishedAt.None?
    requires alert in EB.AfterBatches(alerts, t, limit, cap, env, n)
    requires EB.AfterBatches(alerts, t, limit, cap, env, n)[alert].publishedAt.Some?
    ensures 1 <= k <= n && IsReturn(steps, i, k, alert)
    ensures EB.AfterBatches(alerts, t, limit, cap, env, n)[alert].publishedAt == Some(env.now(k))
    ensures steps[i].call.event.Some? ==> HasEvent(Final(rows, steps), steps[i].call.event.value)
  {
    EB.PublishedWereAccepted(alerts, t, limit, cap, env, n, alert);
    k :| 1 <= k <= n && env.publishOk(k, alert)
             && EB.AfterBatches(alerts, t, limit, cap, env, n)[alert].publishedAt == Some(env.now(k));
    i :| IsReturn(steps, i, k, alert);
    if steps[i].call.event.Some? {
      ReturnedHaveRows(rows, steps, i);
    }
  }

  /**
   A refused publish counts as published all the same: its row is left FAILED, and a minute later a sweeper may
   claim it exactly when it has attempts left. Only a timeout does not count, and leaves nothing behind.
   */
  lemma RefusedIsLeftForSweeper(rows: Table, call: Call, id: OutboxId, ok: bool, after: Table, error: string)
    requires Made(rows, call, id, ok, after) && call.event.Some?
    requires Claimable(EventRow(rows, call.event.value, id, call.now), call.now, EB.MAX_ATTEMPTS)
    ensures ok <==> call.broker != TimedOut
    ensures !ok ==> after == rows
    ensures call.broker == Refused(error) ==>
              && id in after && after[id].status == Failed && after[id].lastError == Some(error)
              && (forall now | now >= call.now + Seconds(60) ::
                    Claimable(after[id], now, EB.MAX_ATTEMPTS) <==> after[id].attemptCount < EB.MAX_ATTEMPTS)
              && forall now | now < call.now + Seconds(60) :: !Claimable(after[id], now, EB.MAX_ATTEMPTS)
  {
  }
}
