/**
 The notification_outbox table, its repository, the outbox sweeper and the
 immediate publish of an expiry event. Finalize and update carry no status or
 owner check; OutboxProtocol shows why they need none.
 */
module Outbox {
  import opened Prelude
  import opened Selection
  import opened Sums
  import Backoff

  type OutboxId = nat
  type EventId = nat

  datatype Status = Pending | Sending | Sent | Failed

  datatype OutboxRow = OutboxRow(
    eventId: EventId,
    createdAt: Time,
    status: Status,
    attemptCount: nat,
    lastError: Option<string>,
    nextRetryAt: Option<Time>)

  type Table = map<OutboxId, OutboxRow>

  /** Unique constraint uq_notification_outbox_event_id. */
  predicate UniqueEvents(rows: Table) {
    forall a, b | a in rows && b in rows && rows[a].eventId == rows[b].eventId :: a == b
  }

  predicate Due(row: OutboxRow, now: Time) {
    row.nextRetryAt.None? || row.nextRetryAt.value <= now
  }

  predicate Claimable(row: OutboxRow, now: Time, maxAttempts: nat) {
    row.attemptCount < maxAttempts && (row.status == Pending || row.status == Failed) && Due(row, now)
  }

  function Eligible(rows: Table, now: Time, maxAttempts: nat, locked: set<OutboxId>): set<OutboxId> {
    set id | id in rows && id !in locked && Claimable(rows[id], now, maxAttempts)
  }

  /** ORDER BY created_at ASC, id ASC. */
  function OldestFirst(rows: Table): (OutboxId, OutboxId) -> bool {
    (a: OutboxId, b: OutboxId) =>
      if a in rows && b in rows then
        rows[a].createdAt < rows[b].createdAt || (rows[a].createdAt == rows[b].createdAt && a <= b)
      else a in rows || (b !in rows && a <= b)
  }

  predicate IsClaim(rows: Table, now: Time, limit: nat, maxAttempts: nat, locked: set<OutboxId>,
                    chosen: set<OutboxId>)
  {
    IsOldest(Eligible(rows, now, maxAttempts, locked), OldestFirst(rows), limit, chosen)
  }

  function ClaimRow(row: OutboxRow): OutboxRow {
    row.(status := Sending, attemptCount := row.attemptCount + 1)
  }

  function ClaimRows(rows: Table, chosen: set<OutboxId>): Table {
    map id | id in rows :: if id in chosen then ClaimRow(rows[id]) else rows[id]
  }

  datatype Result = Result(status: Status, lastError: Option<string>, nextRetryAt: Option<Time>)

  /** The columns finalize_results and update write, whatever the row holds. */
  function Apply(row: OutboxRow, r: Result): OutboxRow {
    row.(status := r.status, lastError := r.lastError, nextRetryAt := r.nextRetryAt)
  }

  function FinalizeRows(rows: Table, results: map<OutboxId, Result>): Table {
    map id | id in rows :: if id in results then Apply(rows[id], results[id]) else rows[id]
  }

  /** What the broker does with one message: nothing, or an exception raised at some instant. */
  datatype Publish = Accepted | Raised(error: string, at: Time)

  function SweepResult(attemptCount: nat, p: Publish): Result {
    match p
    case Accepted => Result(Sent, None, None)
    case Raised(error, at) =>
      Result(Failed, Some(error), Some(at + Minutes(Backoff.BackoffMinutes(attemptCount))))
  }

  // ---- Claims are deterministic, limited and oldest first -----------------

  lemma OldestFirstIsTotalOrder(rows: Table)
    ensures TotalPreorder(OldestFirst(rows)) && Antisymmetric(OldestFirst(rows))
  {
  }

  /** The claim statement has exactly one answer: the oldest-first prefix in (created_at, id) order. */
  lemma ClaimIsUniquePrefix(rows: Table, now: Time, limit: nat, maxAttempts: nat, locked: set<OutboxId>)
      returns (prefix: set<OutboxId>)
    ensures forall chosen :: IsClaim(rows, now, limit, maxAttempts, locked, chosen) <==> chosen == prefix
    ensures |prefix| <= limit && prefix <= Eligible(rows, now, maxAttempts, locked)
    ensures forall id, c | id in Eligible(rows, now, maxAttempts, locked) && id !in prefix && c in prefix ::
              rows[c].createdAt < rows[id].createdAt || (rows[c].createdAt == rows[id].createdAt && c < id)
  {
    OldestFirstIsTotalOrder(rows);
    prefix := OldestExists(Eligible(rows, now, maxAttempts, locked), OldestFirst(rows), limit);
    forall chosen | IsClaim(rows, now, limit, maxAttempts, locked, chosen) ensures chosen == prefix {
      OldestUnique(Eligible(rows, now, maxAttempts, locked), OldestFirst(rows), limit, chosen, prefix);
    }
  }

  /** The WHERE of both claims, column by column. */
  lemma ClaimableMeans(row: OutboxRow, now: Time, maxAttempts: nat)
    ensures Claimable(row, now, maxAttempts) <==>
              && row.attemptCount < maxAttempts && (row.nextRetryAt == None || row.nextRetryAt.value <= now)
              && match row.status case Pending => true case Failed => true case Sending => false case Sent => false
  {
  }

  /** A claimed row, column by column. */
  predicate Taken(before: OutboxRow, after: OutboxRow) {
    && after.status == Sending && after.attemptCount == before.attemptCount + 1 && after.eventId == before.eventId
    && after.createdAt == before.createdAt && after.lastError == before.lastError
    && after.nextRetryAt == before.nextRetryAt
  }

  /** A row after an immediate publish of it, column by column. */
  predicate Attempted(before: OutboxRow, after: OutboxRow, now: Time, broker: Immediate) {
    && after.eventId == before.eventId && after.createdAt == before.createdAt
    && after.attemptCount == before.attemptCount + 1
    && match broker
       case Delivered => after.status == Sent && after.lastError == None && after.nextRetryAt == None
       case Refused(error) =>
         after.status == Failed && after.lastError == Some(error) && after.nextRetryAt == Some(now + Seconds(60))
       case TimedOut => false
  }

  lemma ClaimedAreEligible(rows: Table, now: Time, limit: nat, maxAttempts: nat, locked: set<OutboxId>,
                           chosen: set<OutboxId>)
    requires IsClaim(rows, now, limit, maxAttempts, locked, chosen)
    ensures chosen <= rows.Keys && chosen !! locked && |chosen| <= limit
    ensures forall id | id in chosen :: Claimable(rows[id], now, maxAttempts)
  {
    assert chosen <= Eligible(rows, now, maxAttempts, locked);
  }

  // ---- The publish budget -------------------------------------------------

  function Remaining(rows: Table, maxAttempts: nat): map<OutboxId, int> {
    map id | id in rows :: maxAttempts - rows[id].attemptCount
  }

  ghost function Budget(rows: Table, maxAttempts: nat): int {
    Total(Remaining(rows, maxAttempts))
  }

  lemma ClaimSpendsBudget(rows: Table, chosen: set<OutboxId>, maxAttempts: nat)
    requires chosen <= rows.Keys
    ensures Budget(ClaimRows(rows, chosen), maxAttempts) == Budget(rows, maxAttempts) - |chosen|
  {
    TotalLowered(Remaining(rows, maxAttempts), Remaining(ClaimRows(rows, chosen), maxAttempts), chosen);
  }

  lemma FinalizeKeepsBudget(rows: Table, results: map<OutboxId, Result>, maxAttempts: nat)
    ensures Budget(FinalizeRows(rows, results), maxAttempts) == Budget(rows, maxAttempts)
  {
    assert Remaining(FinalizeRows(rows, results), maxAttempts) == Remaining(rows, maxAttempts);
  }

  // ---- The repository -----------------------------------------------------

  method SelectForUpdate(rows: Table, now: Time, limit: nat, maxAttempts: nat, locked: set<OutboxId>)
      returns (chosen: set<OutboxId>)
    ensures IsClaim(rows, now, limit, maxAttempts, locked, chosen)
  {
    ghost var prefix := ClaimIsUniquePrefix(rows, now, limit, maxAttempts, locked);
    assert IsClaim(rows, now, limit, maxAttempts, locked, prefix);
    chosen :| IsClaim(rows, now, limit, maxAttempts, locked, chosen);
  }

  /** One row before and after a sweep that claimed it: one attempt more, and what the broker did with it. */
  predicate Published(before: OutboxRow, after: OutboxRow, p: Publish) {
    && after.eventId == before.eventId && after.createdAt == before.createdAt
    && after.attemptCount == before.attemptCount + 1
    && match p
       case Accepted => after.status == Sent && after.lastError == None && after.nextRetryAt == None
       case Raised(error, at) =>
         && after.status == Failed && after.lastError == Some(error)
         && after.nextRetryAt == Some(at + Minutes(Backoff.BackoffMinutes(after.attemptCount)))
  }

  function AcceptedOf(ids: set<OutboxId>, broker: OutboxId -> Publish): set<OutboxId> {
    set id | id in ids && broker(id).Accepted?
  }

  /** The publish loop of the sweep: one broker call and one result per claimed row. */
  method PublishAll(rows: Table, chosen: set<OutboxId>, broker: OutboxId -> Publish)
      returns (published: nat, results: map<OutboxId, Result>)
    requires chosen <= rows.Keys
    ensures published == |AcceptedOf(chosen, broker)|
    ensures results.Keys == chosen
    ensures forall id | id in chosen :: results[id] == SweepResult(rows[id].attemptCount, broker(id))
  {
    published, results := 0, map[];
    var todo := chosen;
    while todo != {}
      invariant todo <= chosen
      invariant results.Keys == chosen - todo
      invariant forall id | id in results :: results[id] == SweepResult(rows[id].attemptCount, broker(id))
      invariant published == |AcceptedOf(chosen - todo, broker)|
      decreases todo
    {
      var id :| id in todo;
      assert chosen - (todo - {id}) == (chosen - todo) + {id};
      if broker(id).Accepted? {
        published := published + 1;
        assert AcceptedOf(chosen - (todo - {id}), broker) == AcceptedOf(chosen - todo, broker) + {id};
      } else {
        assert AcceptedOf(chosen - (todo - {id}), broker) == AcceptedOf(chosen - todo, broker);
      }
      results := results[id := SweepResult(rows[id].attemptCount, broker(id))];
      todo := todo - {id};
    }
    assert chosen - todo == chosen;
  }

  lemma ClaimKeepsKeys(rows: Table, chosen: set<OutboxId>)
    ensures ClaimRows(rows, chosen).Keys == rows.Keys
  {
  }

  lemma SweptRows(rows: Table, chosen: set<OutboxId>, results: map<OutboxId, Result>, broker: OutboxId -> Publish)
    requires chosen <= rows.Keys && results.Keys == chosen
    requires forall id | id in chosen ::
               results[id] == SweepResult(ClaimRows(rows, chosen)[id].attemptCount, broker(id))
    ensures var rows' := FinalizeRows(ClaimRows(rows, chosen), results);
            && rows'.Keys == rows.Keys
            && (forall id | id in rows && id !in chosen :: rows'[id] == rows[id])
            && (forall id | id in chosen :: Published(rows[id], rows'[id], broker(id)))
  {
  }

  /** What publish_expiry_event ends with: it returned, or an exception rolled its transaction back. */
  datatype PublishEnd = Returned | RolledBack

  /** How the broker call of publish_expiry_event ends; a timeout escapes it and rolls back. */
  datatype Immediate = Delivered | Refused(error: string) | TimedOut

  function NewRow(event: EventId, createdAt: Time): OutboxRow {
    OutboxRow(event, createdAt, Pending, 0, None, None)
  }

  /** One immediate publish attempt on the event's row, if the row may be claimed. */
  function AfterImmediate(row: OutboxRow, now: Time, maxAttempts: nat, broker: Immediate): OutboxRow {
    if !Claimable(row, now, maxAttempts) then row
    else match broker
      case Delivered =>
        row.(status := Sent, attemptCount := row.attemptCount + 1, lastError := None, nextRetryAt := None)
      case Refused(error) => row.(status := Failed, attemptCount := row.attemptCount + 1, lastError := Some(error),
                                  nextRetryAt := Some(now + Seconds(60)))
      case TimedOut => row
  }

  /** The one row of an event: the row that exists, or a fresh one. */
  predicate IsEventRow(rows: Table, event: EventId, freshId: OutboxId, id: OutboxId) {
    if id in rows then rows[id].eventId == event
    else id == freshId && forall k | k in rows :: rows[k].eventId != event
  }

  function EventRow(rows: Table, event: EventId, id: OutboxId, now: Time): OutboxRow {
    if id in rows then rows[id] else NewRow(event, now)
  }

  predicate TimesOut(rows: Table, event: EventId, id: OutboxId, now: Time, maxAttempts: nat, broker: Immediate) {
    broker == TimedOut && Claimable(EventRow(rows, event, id, now), now, maxAttempts)
  }

  function RowsAfterImmediate(rows: Table, event: EventId, id: OutboxId, now: Time, maxAttempts: nat,
                         broker: Immediate): Table
  {
    rows[id := AfterImmediate(EventRow(rows, event, id, now), now, maxAttempts, broker)]
  }

  /**
   An immediate publish leaves a row for its event and touches no other row. The event's row, new and pending if
   it was missing, uses one attempt with the broker's answer if it could be claimed, and stays as it was if not.
   So no SENT or SENDING row is touched, and no SENDING row is committed.
   */
  lemma ImmediateFacts(rows: Table, event: EventId, freshId: OutboxId, id: OutboxId, now: Time, maxAttempts: nat,
                       broker: Immediate)
    requires UniqueEvents(rows) && IsEventRow(rows, event, freshId, id)
    ensures var rows' := RowsAfterImmediate(rows, event, id, now, maxAttempts, broker);
            && UniqueEvents(rows') && rows'.Keys == rows.Keys + {id} && rows'[id].eventId == event
            && (forall k | k in rows && k != id :: rows'[k] == rows[k])
            && (if id in rows then rows[id].eventId == event
                else id == freshId && forall k | k in rows :: rows[k].eventId != event)
            && (forall k | k in rows' && k in rows && rows'[k] != rows[k] ::
                  k == id && rows[k].status in {Pending, Failed}
                  && rows[k].attemptCount < rows'[k].attemptCount <= maxAttempts)
            && (forall k | k in rows' && rows'[k].status == Sending :: k in rows && rows[k].status == Sending)
    ensures var row := if id in rows then rows[id] else OutboxRow(event, now, Pending, 0, None, None);
            var row' := RowsAfterImmediate(rows, event, id, now, maxAttempts, broker)[id];
            if Claimable(row, now, maxAttempts) && broker != TimedOut then Attempted(row, row', now, broker)
            else row' == row
  {
    var rows' := RowsAfterImmediate(rows, event, id, now, maxAttempts, broker);
    forall a, b | a in rows' && b in rows' && rows'[a].eventId == rows'[b].eventId ensures a == b {
      assert forall k | k in rows' && k != id :: k in rows && rows[k].eventId == rows'[k].eventId;
    }
  }

  /**
   A finalize or update seen row by row: a row with a result has its status, error and retry time and keeps
   its event, age and attempts; no row comes or goes, and a row without a result is as before.
   */
  predicate Finalized(before: Table, after: Table, results: map<OutboxId, Result>) {
    && after.Keys == before.Keys
    && (forall id | id in before && id !in results :: after[id] == before[id])
    && forall id | id in before && id in results ::
         && after[id].status == results[id].status && after[id].lastError == results[id].lastError
         && after[id].nextRetryAt == results[id].nextRetryAt && after[id].attemptCount == before[id].attemptCount
         && after[id].eventId == before[id].eventId && after[id].createdAt == before[id].createdAt
  }

  lemma FinalizedIs(before: Table, after: Table, results: map<OutboxId, Result>)
    requires Finalized(before, after, results)
    ensures after == FinalizeRows(before, results)
  {
  }

  class OutboxTable {
    var rows: Table

    constructor (rows: Table)
      ensures this.rows == rows
    {
      this.rows := rows;
    }

    method ClaimForSend(now: Time, limit: nat, maxAttempts: nat, locked: set<OutboxId>)
        returns (chosen: set<OutboxId>)
      modifies this
      ensures IsClaim(old(rows), now, limit, maxAttempts, locked, chosen)
      ensures rows == ClaimRows(old(rows), chosen)
      ensures forall id | id in old(rows) :: id in rows &&
                if id in chosen then Taken(old(rows)[id], rows[id]) else rows[id] == old(rows)[id]
    {
      chosen := SelectForUpdate(rows, now, limit, maxAttempts, locked);
      rows := ClaimRows(rows, chosen);
    }

    method FinalizeResults(results: map<OutboxId, Result>)
      modifies this
      ensures Finalized(old(rows), rows, results)
    {
      rows := FinalizeRows(rows, results);
    }

    /** INSERT ... ON CONFLICT (event_id) DO NOTHING, then the existing row if there was one. */
    method Ensure(event: EventId, freshId: OutboxId, createdAt: Time) returns (id: OutboxId)
      requires UniqueEvents(rows) && freshId !in rows
      modifies this
      ensures UniqueEvents(rows) && id in rows && rows[id].eventId == event
      ensures if exists k :: k in old(rows) && old(rows)[k].eventId == event then rows == old(rows)
              else id == freshId && rows == old(rows)[freshId := NewRow(event, createdAt)]
    {
      if k :| k in rows && rows[k].eventId == event {
        id := k;
      } else {
        id := freshId;
        rows := rows[freshId := NewRow(event, createdAt)];
      }
    }

    /** Claims one row for an immediate publish; None when it is not eligible. */
    method ClaimOne(id: OutboxId, now: Time, maxAttempts: nat) returns (attempt: Option<nat>)
      modifies this
      ensures id in old(rows) && Claimable(old(rows)[id], now, maxAttempts) ==>
                && rows == old(rows)[id := ClaimRow(old(rows)[id])] && Taken(old(rows)[id], rows[id])
                && attempt == Some(rows[id].attemptCount)
      ensures !(id in old(rows) && Claimable(old(rows)[id], now, maxAttempts)) ==>
                rows == old(rows) && attempt == None
    {
      if id in rows && Claimable(rows[id], now, maxAttempts) {
        rows := rows[id := ClaimRow(rows[id])];
        attempt := Some(rows[id].attemptCount);
      } else {
        attempt := None;
      }
    }

    method Update(id: OutboxId, r: Result)
      modifies this
      ensures Finalized(old(rows), rows, map[id := r])
    {
      if id in rows { rows := rows[id := Apply(rows[id], r)]; }
    }

    /**
     One outbox sweep without a crash: claim in one transaction, publish each row outside any,
     finalize in a second one. `broker(id)` is what the broker does with row id.
     */
    method SweepOutboxOnce(now: Time, limit: nat, maxAttempts: nat, locked: set<OutboxId>,
                           broker: OutboxId -> Publish)
        returns (published: nat, ghost claimed: set<OutboxId>)
      modifies this
      ensures IsClaim(old(rows), now, limit, maxAttempts, locked, claimed)
      ensures published == |AcceptedOf(claimed, broker)|
      ensures rows.Keys == old(rows).Keys
      ensures forall id | id in rows && id !in claimed :: rows[id] == old(rows)[id]
      ensures forall id | id in claimed :: id in old(rows) && Published(old(rows)[id], rows[id], broker(id))
      ensures Budget(rows, maxAttempts) == Budget(old(rows), maxAttempts) - |claimed|
    {
      hide *;
      var chosen := ClaimForSend(now, limit, maxAttempts, locked);
      claimed := chosen;
      ClaimedAreEligible(old(rows), now, limit, maxAttempts, locked, chosen);
      ClaimSpendsBudget(old(rows), chosen, maxAttempts);
      ClaimKeepsKeys(old(rows), chosen);
      var results: map<OutboxId, Result>;
      published, results := PublishAll(rows, chosen, broker);
      FinalizeKeepsBudget(rows, results, maxAttempts);
      SweptRows(old(rows), chosen, results, broker);
      ghost var claimedRows := rows;
      FinalizeResults(results);
      FinalizedIs(claimedRows, rows, results);
    }

    /**
     publish_expiry_event in its own transaction. `event` is None when the item lost its expiry date
     and the factory built no envelope.
     */
    method PublishExpiryEvent(event: Option<EventId>, freshId: OutboxId, now: Time, maxAttempts: nat, broker: Immediate)
        returns (end: PublishEnd, id: OutboxId)
      requires UniqueEvents(rows) && freshId !in rows
      modifies this
      ensures event.None? ==> end == Returned && rows == old(rows)
      ensures event.Some? ==> IsEventRow(old(rows), event.value, freshId, id)
      // One attempt on the event's row, inserted if missing ...
      ensures event.Some? && !TimesOut(old(rows), event.value, id, now, maxAttempts, broker) ==>
                end == Returned && rows == RowsAfterImmediate(old(rows), event.value, id, now, maxAttempts, broker)
      // ... or nothing at all: a timeout leaves neither a row nor an attempt behind.
      ensures event.Some? && TimesOut(old(rows), event.value, id, now, maxAttempts, broker) ==>
                end == RolledBack && rows == old(rows)
      // The same for the event's row, column by column.
      ensures event.Some? ==>
                var row := if id in old(rows) then old(rows)[id]
                           else OutboxRow(event.value, now, Pending, 0, None, None);
                if !Claimable(row, now, maxAttempts) then end == Returned && rows == old(rows)[id := row]
                else if broker == TimedOut then end == RolledBack && rows == old(rows)
                else end == Returned && id in rows && rows == old(rows)[id := rows[id]]
                     && Attempted(row, rows[id], now, broker)
    {
      id := freshId;
      if event.None? { return Returned, id; }
      var before := rows;
      id := Ensure(event.value, freshId, now);
      if rows[id].status == Sent { return Returned, id; }
      if rows[id].attemptCount >= maxAttempts { return Returned, id; }
      var attempt := ClaimOne(id, now, maxAttempts);
      if attempt.None? { return Returned, id; }
      match broker {
        case TimedOut =>
          rows := before;
          return RolledBack, id;
        case Refused(error) =>
          Update(id, Result(Failed, Some(error), Some(now + Seconds(60))));
        case Delivered =>
          Update(id, Result(Sent, None, None));
      }
      return Returned, id;
    }
  }
}
