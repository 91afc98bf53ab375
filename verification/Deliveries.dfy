/**
 The notification_deliveries table and the statements the worker runs on it:
 claiming with a lease, sending, and finalizing under the owner's fence.
 */
module Deliveries {
  import opened Prelude
  import opened Selection
  import opened Sums
  import Backoff

  type DeliveryId = nat
  type EventId = nat
  type WorkerId = string

  datatype Channel = Email | Sms | Push | Log | InApp

  datatype RecipientType = EmailAddress | Phone | SlackChannel | InAppUser | LogSink

  datatype Status = Pending | Sending | Sent | Failed | Dlq

  datatype Delivery = Delivery(
    eventId: EventId,
    channel: Channel,
    recipientType: RecipientType,
    recipient: string,
    createdAt: Time,
    status: Status,
    attemptCount: nat,
    maxAttempts: nat,
    nextRetryAt: Option<Time>,
    lastAttemptAt: Option<Time>,
    lastError: Option<string>,
    lockedBy: Option<WorkerId>,
    lockedAt: Option<Time>,
    lockExpiresAt: Option<Time>)

  type Table = map<DeliveryId, Delivery>

  const LEASE: Time := Seconds(120)

  /** The channels the worker is built with a sender for. */
  const WORKER_SENDERS: set<Channel> := {Log, InApp, Email}

  // ---- Claiming -----------------------------------------------------------

  predicate RetryDue(d: Delivery, now: Time) {
    d.nextRetryAt.None? || d.nextRetryAt.value <= now
  }

  predicate StaleLease(d: Delivery, now: Time) {
    d.status == Sending && d.lockExpiresAt.Some? && d.lockExpiresAt.value < now
  }

  predicate Claimable(d: Delivery, event: EventId, now: Time) {
    && d.eventId == event
    && d.attemptCount < d.maxAttempts
    && (d.status == Pending || (d.status == Failed && RetryDue(d, now)) || StaleLease(d, now))
  }

  /** The rows a claim may pick: claimable, and not locked by another open transaction. */
  function Eligible(rows: Table, event: EventId, now: Time, locked: set<DeliveryId>): set<DeliveryId> {
    set id | id in rows && id !in locked && Claimable(rows[id], event, now)
  }

  /** ORDER BY created_at ASC; rows created at the same instant may come in any order. */
  function OlderFirst(rows: Table): (DeliveryId, DeliveryId) -> bool {
    (a: DeliveryId, b: DeliveryId) =>
      if a in rows && b in rows then rows[a].createdAt <= rows[b].createdAt else a in rows || b !in rows
  }

  predicate IsClaim(rows: Table, event: EventId, now: Time, limit: nat, locked: set<DeliveryId>,
                    chosen: set<DeliveryId>)
  {
    IsOldest(Eligible(rows, event, now, locked), OlderFirst(rows), limit, chosen)
  }

  function ClaimRow(d: Delivery, worker: WorkerId, now: Time): Delivery {
    d.(status := Sending,
       lockedBy := Some(worker),
       lockedAt := Some(now),
       lockExpiresAt := Some(now + LEASE),
       lastAttemptAt := Some(now),
       attemptCount := d.attemptCount + 1)
  }

  function ClaimRows(rows: Table, chosen: set<DeliveryId>, worker: WorkerId, now: Time): Table {
    map id | id in rows :: if id in chosen then ClaimRow(rows[id], worker, now) else rows[id]
  }

  // ---- Sending ------------------------------------------------------------

  /** What a claimant remembers of a row, as RETURNING handed it over. */
  datatype ClaimedDelivery = ClaimedDelivery(
    id: DeliveryId, channel: Channel, recipient: string, attemptCount: nat, maxAttempts: nat)

  function Snapshot(id: DeliveryId, d: Delivery): ClaimedDelivery {
    ClaimedDelivery(id, d.channel, d.recipient, d.attemptCount, d.maxAttempts)
  }

  datatype SendResult = SendResult(
    deliveryId: DeliveryId, status: Status, lastError: Option<string>, nextRetryAt: Option<Time>)

  /** What a channel sender does: it returns, or raises at some instant. */
  datatype SendOutcome = SendOk | SendRaised(error: string, at: Time)

  function NextRetryAt(attemptCount: int, at: Time): Time {
    at + Minutes(Backoff.BackoffMinutes(attemptCount))
  }

  function FailureResult(d: ClaimedDelivery, error: string, at: Time): SendResult {
    SendResult(d.id, Failed, Some(error), Some(NextRetryAt(d.attemptCount, at)))
  }

  function ChannelValue(c: Channel): string {
    match c
    case Email => "email"
    case Sms => "sms"
    case Push => "push"
    case Log => "log"
    case InApp => "in_app"
  }

  function SendOne(d: ClaimedDelivery, senders: set<Channel>, outcome: SendOutcome): SendResult {
    if d.channel !in senders then
      SendResult(d.id, Failed, Some("Unsupported channel: " + ChannelValue(d.channel)), None)
    else match outcome
      case SendOk => SendResult(d.id, Sent, None, None)
      case SendRaised(error, at) => FailureResult(d, error, at)
  }

  /** asyncio.gather keeps the order of the claimed deliveries; `outcomes[i]` is what sender i does. */
  function SendClaimedDeliveries(claimed: seq<ClaimedDelivery>, senders: set<Channel>, outcomes: seq<SendOutcome>)
      : (results: seq<SendResult>)
    requires |outcomes| == |claimed|
    ensures |results| == |claimed|
    ensures forall i | 0 <= i < |claimed| :: results[i] == SendOne(claimed[i], senders, outcomes[i])
  {
    if claimed == [] then []
    else [SendOne(claimed[0], senders, outcomes[0])]
         + SendClaimedDeliveries(claimed[1..], senders, outcomes[1..])
  }

  /** Each result reads the clock for itself: `at(id)` is when the one of delivery id is built. */
  function BuildFailureResults(claimed: seq<ClaimedDelivery>, error: string, at: DeliveryId -> Time)
      : (results: seq<SendResult>)
    ensures |results| == |claimed|
    ensures forall i | 0 <= i < |claimed| :: results[i] == FailureResult(claimed[i], error, at(claimed[i].id))
  {
    if claimed == [] then []
    else [FailureResult(claimed[0], error, at(claimed[0].id))] + BuildFailureResults(claimed[1..], error, at)
  }

  function ClaimedIds(claimed: seq<ClaimedDelivery>): (ids: seq<DeliveryId>)
    ensures |ids| == |claimed| && forall i | 0 <= i < |claimed| :: ids[i] == claimed[i].id
  {
    seq(|claimed|, i requires 0 <= i < |claimed| => claimed[i].id)
  }

  function IdSet(claimed: seq<ClaimedDelivery>): set<DeliveryId> {
    set c | c in claimed :: c.id
  }

  function ResultIds(results: seq<SendResult>): (ids: seq<DeliveryId>)
    ensures |ids| == |results| && forall i | 0 <= i < |results| :: ids[i] == results[i].deliveryId
  {
    seq(|results|, i requires 0 <= i < |results| => results[i].deliveryId)
  }

  /** Whether the senders were reached or the whole batch is failed, there is one result per claim, in order. */
  lemma OneResultPerClaim(claimed: seq<ClaimedDelivery>, senders: set<Channel>, outcomes: seq<SendOutcome>,
                          error: string, at: DeliveryId -> Time)
    requires |outcomes| == |claimed|
    ensures ResultIds(SendClaimedDeliveries(claimed, senders, outcomes)) == ClaimedIds(claimed)
    ensures ResultIds(BuildFailureResults(claimed, error, at)) == ClaimedIds(claimed)
    ensures forall r | r in SendClaimedDeliveries(claimed, senders, outcomes) :: r.status == Sent || r.status == Failed
    ensures forall r | r in BuildFailureResults(claimed, error, at) :: r.status == Failed
  {
    hide SendClaimedDeliveries, BuildFailureResults, ResultIds, ClaimedIds;
  }

  // ---- Finalizing ---------------------------------------------------------

  /** {r.delivery_id: r for r in results}: the last result of an id wins. */
  function ById(results: seq<SendResult>): map<DeliveryId, SendResult> {
    if results == [] then map[]
    else ById(results[..|results| - 1])[results[|results| - 1].deliveryId := results[|results| - 1]]
  }

  predicate OwnedBy(d: Delivery, worker: WorkerId) {
    d.lockedBy == Some(worker) && d.status == Sending
  }

  /** One row of the bulk UPDATE: CASE id WHEN ... END per column, ELSE the old value, locks cleared. */
  function CaseRow(id: DeliveryId, d: Delivery, byId: map<DeliveryId, SendResult>): Delivery {
    d.(status := if id in byId then byId[id].status else d.status,
       lastError := if id in byId then byId[id].lastError else d.lastError,
       nextRetryAt := if id in byId then byId[id].nextRetryAt else d.nextRetryAt,
       lockedBy := None, lockedAt := None, lockExpiresAt := None)
  }

  /** The single UPDATE that finalizes a batch, with its three WHERE clauses. */
  function FinalizeBulk(rows: Table, worker: WorkerId, results: seq<SendResult>): Table {
    var byId := ById(results);
    map id | id in rows ::
      if id in byId && OwnedBy(rows[id], worker) then CaseRow(id, rows[id], byId) else rows[id]
  }

  /** What one result does to one row: release it with the result, if the worker still owns it. */
  function FinalizeRow(d: Delivery, worker: WorkerId, r: SendResult): Delivery {
    if OwnedBy(d, worker) then
      d.(status := r.status, lastError := r.lastError, nextRetryAt := r.nextRetryAt,
         lockedBy := None, lockedAt := None, lockExpiresAt := None)
    else d
  }

  lemma FinalizeRowColumns(d: Delivery, worker: WorkerId, r: SendResult)
    ensures var d' := FinalizeRow(d, worker, r);
            if d.status == Sending && d.lockedBy == Some(worker) then
              && Released(d, d', r)
              && d'.status == r.status && d'.lastError == r.lastError && d'.nextRetryAt == r.nextRetryAt
            else d' == d
  {
  }

  /** One guarded single-row update. */
  function FinalizeOne(rows: Table, worker: WorkerId, r: SendResult): Table {
    if r.deliveryId in rows then rows[r.deliveryId := FinalizeRow(rows[r.deliveryId], worker, r)] else rows
  }

  /** The same batch as one guarded single-row update after another. */
  function FinalizeEach(rows: Table, worker: WorkerId, results: seq<SendResult>): Table {
    if results == [] then rows
    else FinalizeEach(FinalizeOne(rows, worker, results[0]), worker, results[1..])
  }

  /** The bulk UPDATE seen at one row. */
  lemma FinalizeBulkRow(rows: Table, worker: WorkerId, results: seq<SendResult>, id: DeliveryId)
    requires id in rows
    ensures FinalizeBulk(rows, worker, results).Keys == rows.Keys
    ensures FinalizeBulk(rows, worker, results)[id]
            == if id in ById(results) then FinalizeRow(rows[id], worker, ById(results)[id]) else rows[id]
  {
    hide ById;
  }

  lemma {:induction false} ByIdDistinct(results: seq<SendResult>)
    requires Distinct(ResultIds(results))
    ensures forall r | r in results :: r.deliveryId in ById(results) && ById(results)[r.deliveryId] == r
    ensures forall id | id in ById(results) :: ById(results)[id] in results && ById(results)[id].deliveryId == id
  {
    if results == [] {
    } else {
      var n := |results| - 1;
      var front := results[..n];
      forall i, j | 0 <= i < j < n ensures ResultIds(front)[i] != ResultIds(front)[j] {
        assert ResultIds(results)[i] != ResultIds(results)[j];
      }
      ByIdDistinct(front);
      assert results == front + [results[n]];
      forall r | r in front ensures r.deliveryId != results[n].deliveryId {
        var i :| 0 <= i < n && front[i] == r;
        assert ResultIds(results)[i] != ResultIds(results)[n];
      }
    }
  }

  lemma ByIdKeys(results: seq<SendResult>)
    ensures forall id :: id in ById(results) <==> id in ResultIds(results)
  {
    if results == [] {
    } else {
      var n := |results| - 1;
      ByIdKeys(results[..n]);
      assert ResultIds(results) == ResultIds(results[..n]) + [results[n].deliveryId];
    }
  }

  /** Result i is the last one for delivery id. */
  predicate LastResult(results: seq<SendResult>, i: int, id: DeliveryId) {
    && 0 <= i < |results| && results[i].deliveryId == id
    && forall j | i < j < |results| :: results[j].deliveryId != id
  }

  lemma {:induction false} LastResultsWin(results: seq<SendResult>)
    ensures forall i, id | LastResult(results, i, id) :: id in ById(results) && ById(results)[id] == results[i]
    decreases |results|
  {
    if results == [] {
    } else {
      var n := |results| - 1;
      LastResultsWin(results[..n]);
      forall i, id | LastResult(results, i, id) ensures id in ById(results) && ById(results)[id] == results[i] {
        if i < n {
          assert LastResult(results[..n], i, id);
        }
      }
    }
  }

  lemma TailResults(results: seq<SendResult>)
    requires results != [] && Distinct(ResultIds(results))
    ensures Distinct(ResultIds(results[1..])) && results[0].deliveryId !in ResultIds(results[1..])
    ensures forall id :: id in ResultIds(results) <==> id == results[0].deliveryId || id in ResultIds(results[1..])
  {
    var ids := ResultIds(results);
    assert ids == [ids[0]] + ids[1..];
    assert ResultIds(results[1..]) == ids[1..];
    assert forall j | 1 <= j < |ids| :: ids[0] != ids[j];
  }

  lemma InResultIds(results: seq<SendResult>, r: SendResult)
    requires r in results
    ensures r.deliveryId in ResultIds(results)
  {
    var i :| 0 <= i < |results| && results[i] == r;
    assert ResultIds(results)[i] == r.deliveryId;
  }

  /** Row by row: a result for another id never touches this row. */
  lemma {:induction false} FinalizeEachAt(rows: Table, worker: WorkerId, results: seq<SendResult>, id: DeliveryId)
    requires id in rows && Distinct(ResultIds(results))
    ensures FinalizeEach(rows, worker, results).Keys == rows.Keys
    ensures forall r | r in results && r.deliveryId == id ::
              FinalizeEach(rows, worker, results)[id] == FinalizeRow(rows[id], worker, r)
    ensures id !in ResultIds(results) ==> FinalizeEach(rows, worker, results)[id] == rows[id]
    decreases |results|
  {
    hide FinalizeRow, ResultIds, Distinct;
    if results == [] {
    } else {
      var rows' := FinalizeOne(rows, worker, results[0]);
      TailResults(results);
      FinalizeEachAt(rows', worker, results[1..], id);
      forall r | r in results && r.deliveryId == id
        ensures FinalizeEach(rows, worker, results)[id] == FinalizeRow(rows[id], worker, r)
      {
        if r in results[1..] { InResultIds(results[1..], r); }
      }
    }
  }

  /** The bulk CASE update is the fold of the guarded single-row updates. */
  lemma BulkFinalizeIsFold(rows: Table, worker: WorkerId, results: seq<SendResult>)
    requires Distinct(ResultIds(results))
    ensures FinalizeBulk(rows, worker, results) == FinalizeEach(rows, worker, results)
  {
    ByIdDistinct(results);
    ByIdKeys(results);
    if rows == map[] {
      FinalizeNothing(worker, results);
    }
    forall id | id in rows
      ensures FinalizeEach(rows, worker, results).Keys == rows.Keys
      ensures FinalizeBulk(rows, worker, results)[id] == FinalizeEach(rows, worker, results)[id]
    {
      FinalizeEachAt(rows, worker, results, id);
    }
  }

  lemma FinalizeNothing(worker: WorkerId, results: seq<SendResult>)
    ensures FinalizeEach(map[], worker, results) == map[]
    decreases |results|
  {
    if results == [] {
    } else {
      FinalizeNothing(worker, results[1..]);
    }
  }

  /** ... and the order of those updates does not matter. */
  lemma FinalizeOrderIrrelevant(rows: Table, worker: WorkerId, results: seq<SendResult>, shuffled: seq<SendResult>)
    requires Distinct(ResultIds(results)) && Distinct(ResultIds(shuffled))
    requires multiset(results) == multiset(shuffled)
    ensures FinalizeEach(rows, worker, results) == FinalizeEach(rows, worker, shuffled)
  {
    hide FinalizeEach, CaseRow, OwnedBy, Distinct, ResultIds;
    ByIdDistinct(results);
    ByIdDistinct(shuffled);
    assert forall r :: r in results <==> r in multiset(results);
    assert forall r :: r in shuffled <==> r in multiset(shuffled);
    assert ById(results) == ById(shuffled);
    BulkFinalizeIsFold(rows, worker, results);
    BulkFinalizeIsFold(rows, worker, shuffled);
  }

  /** Two results for one row do not commute: the fold keeps the first, the bulk update the last. */
  lemma DuplicateResultsDisagree(rows: Table, id: DeliveryId, worker: WorkerId, first: SendResult, last: SendResult)
    requires id in rows && OwnedBy(rows[id], worker)
    requires first.deliveryId == id == last.deliveryId && first.status == Sent && last.status == Failed
    ensures FinalizeBulk(rows, worker, [first, last]) != FinalizeEach(rows, worker, [first, last])
  {
    var both := [first, last];
    assert both[..1] == [first] && both[1..] == [last];
    assert ById([first]) == map[id := first] by { assert [first][..0] == []; }
    assert ById(both)[id] == last;
    var rows' := rows[id := FinalizeRow(rows[id], worker, first)];
    var rows'' := rows'[id := FinalizeRow(rows'[id], worker, last)];
    assert FinalizeEach(rows, worker, both) == FinalizeEach(rows', worker, [last]);
    assert FinalizeEach(rows', worker, [last]) == FinalizeEach(rows'', worker, []) by { assert [last][1..] == []; }
    assert rows''[id].status == Sent;
    assert FinalizeBulk(rows, worker, both)[id].status == Failed;
  }

  // ---- The attempt budget -------------------------------------------------

  function RemainingAttempts(rows: Table): map<DeliveryId, int> {
    map id | id in rows :: rows[id].maxAttempts - rows[id].attemptCount
  }

  ghost function Budget(rows: Table): int {
    Total(RemainingAttempts(rows))
  }

  /** Every claimed row uses up exactly one attempt of the table's budget, finalizing uses up none. */
  lemma ClaimSpendsBudget(rows: Table, chosen: set<DeliveryId>, worker: WorkerId, now: Time)
    requires chosen <= rows.Keys
    ensures Budget(ClaimRows(rows, chosen, worker, now)) == Budget(rows) - |chosen|
  {
    TotalLowered(RemainingAttempts(rows), RemainingAttempts(ClaimRows(rows, chosen, worker, now)), chosen);
  }

  lemma FinalizeKeepsBudget(rows: Table, worker: WorkerId, results: seq<SendResult>)
    ensures Budget(FinalizeBulk(rows, worker, results)) == Budget(rows)
  {
    assert RemainingAttempts(FinalizeBulk(rows, worker, results)) == RemainingAttempts(rows);
  }

  // ---- The statements -----------------------------------------------------

  /** The WHERE of the claim, column by column. */
  lemma ClaimableMeans(d: Delivery, event: EventId, now: Time)
    ensures Claimable(d, event, now) <==>
              && d.eventId == event && d.attemptCount < d.maxAttempts
              && match d.status
                 case Pending => true
                 case Failed => d.nextRetryAt == None || d.nextRetryAt.value <= now
                 case Sending => d.lockExpiresAt != None && d.lockExpiresAt.value < now
                 case Sent => false
                 case Dlq => false
  {
  }

  /** The SET of the claim, column by column: a 120 second lease, one attempt more, all else as before. */
  predicate Leased(before: Delivery, after: Delivery, worker: WorkerId, now: Time) {
    && after.status == Sending && after.attemptCount == before.attemptCount + 1
    && after.lockedBy == Some(worker) && after.lockedAt == Some(now) && after.lastAttemptAt == Some(now)
    && after.lockExpiresAt == Some(now + Seconds(120))
    && SameDelivery(before, after) && after.nextRetryAt == before.nextRetryAt && after.lastError == before.lastError
  }

  /** The columns no statement of the worker writes. */
  predicate SameDelivery(before: Delivery, after: Delivery) {
    && after.eventId == before.eventId && after.channel == before.channel
    && after.recipientType == before.recipientType && after.recipient == before.recipient
    && after.createdAt == before.createdAt && after.maxAttempts == before.maxAttempts
  }

  /** A finalized row, column by column: the result written, the lock cleared, all else as before. */
  predicate Released(before: Delivery, after: Delivery, r: SendResult) {
    && after.status == r.status && after.lastError == r.lastError && after.nextRetryAt == r.nextRetryAt
    && after.lockedBy == None && after.lockedAt == None && after.lockExpiresAt == None
    && SameDelivery(before, after) && after.attemptCount == before.attemptCount
    && after.lastAttemptAt == before.lastAttemptAt
  }

  lemma ClaimedRows(rows: Table, chosen: set<DeliveryId>, worker: WorkerId, now: Time)
    ensures var rows' := ClaimRows(rows, chosen, worker, now);
            && rows'.Keys == rows.Keys
            && forall id | id in rows ::
                 if id in chosen then Leased(rows[id], rows'[id], worker, now) else rows'[id] == rows[id]
  {
  }

  lemma OnlyEligibleRowsAreClaimed(rows: Table, event: EventId, now: Time, limit: nat, locked: set<DeliveryId>,
                                   chosen: set<DeliveryId>)
    requires IsClaim(rows, event, now, limit, locked, chosen)
    ensures chosen <= rows.Keys && chosen !! locked && |chosen| <= limit
    ensures forall id | id in chosen :: Claimable(rows[id], event, now)
    // What a claim leaves behind it leaves because it is full, and nothing left is older than anything taken.
    ensures forall id | id in rows && id !in locked && id !in chosen && Claimable(rows[id], event, now) ::
              |chosen| == limit && forall c | c in chosen :: rows[c].createdAt <= rows[id].createdAt
  {
    assert chosen <= Eligible(rows, event, now, locked);
    forall id | id in rows && id !in locked && id !in chosen && Claimable(rows[id], event, now)
      ensures |chosen| == limit && forall c | c in chosen :: rows[c].createdAt <= rows[id].createdAt
    {
      assert id in Eligible(rows, event, now, locked);
      assert forall c | c in chosen :: OlderFirst(rows)(c, id);
    }
  }

  /** With room for all that is eligible, all of it is taken. */
  lemma RoomForAll(rows: Table, event: EventId, now: Time, limit: nat, locked: set<DeliveryId>, chosen: set<DeliveryId>,
                   id: DeliveryId)
    requires IsClaim(rows, event, now, limit, locked, chosen)
    requires id in Eligible(rows, event, now, locked) && |Eligible(rows, event, now, locked)| <= limit
    ensures id in chosen
  {
    hide Claimable, OlderFirst;
    if id !in chosen {
      SubsetSize(chosen + {id}, Eligible(rows, event, now, locked));
    }
  }

  lemma OlderFirstIsPreorder(rows: Table)
    ensures TotalPreorder(OlderFirst(rows))
  {
  }

  /** The locking subquery of the claim. */
  method SelectForUpdate(rows: Table, event: EventId, now: Time, limit: nat, locked: set<DeliveryId>)
      returns (chosen: set<DeliveryId>)
    ensures IsClaim(rows, event, now, limit, locked, chosen)
  {
    OlderFirstIsPreorder(rows);
    ghost var some := OldestExists(Eligible(rows, event, now, locked), OlderFirst(rows), limit);
    assert IsClaim(rows, event, now, limit, locked, some);
    chosen :| IsClaim(rows, event, now, limit, locked, chosen);
  }

  /** The table as the database holds it; each method is one committed statement. */
  class DeliveryTable {
    var rows: Table

    constructor (rows: Table)
      ensures this.rows == rows
    {
      this.rows := rows;
    }

    /** claim_deliveries_to_send; `locked` are the rows other open transactions hold. */
    method ClaimDeliveriesToSend(event: EventId, now: Time, worker: WorkerId, limit: nat, locked: set<DeliveryId>)
        returns (claimed: seq<ClaimedDelivery>)
      modifies this
      ensures IsClaim(old(rows), event, now, limit, locked, IdSet(claimed))
      ensures rows == ClaimRows(old(rows), IdSet(claimed), worker, now)
      ensures forall id | id in old(rows) :: id in rows &&
                if id in IdSet(claimed) then Leased(old(rows)[id], rows[id], worker, now) else rows[id] == old(rows)[id]
      ensures Distinct(ClaimedIds(claimed))
      // RETURNING hands over the new values.
      ensures forall c | c in claimed :: c.id in rows && c == Snapshot(c.id, rows[c.id])
      ensures forall c | c in claimed :: c.channel == rows[c.id].channel && c.recipient == rows[c.id].recipient
                && c.attemptCount == rows[c.id].attemptCount && c.maxAttempts == rows[c.id].maxAttempts
      ensures Budget(rows) == Budget(old(rows)) - |claimed|
    {
      hide IsClaim, ClaimRows, Leased;
      var chosen := SelectForUpdate(rows, event, now, limit, locked);
      ClaimedRows(rows, chosen, worker, now);
      var order := InSomeOrder(chosen);
      OnlyEligibleRowsAreClaimed(rows, event, now, limit, locked, chosen);
      ClaimSpendsBudget(rows, chosen, worker, now);
      rows := ClaimRows(rows, chosen, worker, now);
      claimed := Returning(rows, chosen, order);
    }

    /** finalize_delivery_results; returns the number of rows the fence let through. */
    method FinalizeDeliveryResults(worker: WorkerId, results: seq<SendResult>) returns (rowcount: nat)
      modifies this
      ensures rows == FinalizeBulk(old(rows), worker, results)
      // Row by row: the last result of a row, if the worker still holds it; otherwise nothing.
      ensures rows.Keys == old(rows).Keys
      ensures forall id, i | id in old(rows) && LastResult(results, i, id) ::
                if old(rows)[id].status == Sending && old(rows)[id].lockedBy == Some(worker)
                then Released(old(rows)[id], rows[id], results[i]) else rows[id] == old(rows)[id]
      ensures forall id | id in old(rows) && id !in ResultIds(results) :: rows[id] == old(rows)[id]
      ensures rowcount == |set id | id in old(rows) && id in ResultIds(results) && OwnedBy(old(rows)[id], worker)|
      ensures Budget(rows) == Budget(old(rows))
    {
      FinalizeKeepsBudget(rows, worker, results);
      ByIdKeys(results);
      LastResultsWin(results);
      var byId := ById(results);
      var matched := set id | id in rows && id in byId && OwnedBy(rows[id], worker);
      rowcount := |matched|;
      assert matched == set id | id in rows && id in ResultIds(results) && OwnedBy(rows[id], worker);
      rows := FinalizeBulk(rows, worker, results);
    }
  }

  /** RETURNING: the claimed rows, each once, in an order the database chooses. */
  function Returning(rows: Table, chosen: set<DeliveryId>, order: seq<DeliveryId>): (claimed: seq<ClaimedDelivery>)
    requires multiset(order) == multiset(chosen) && chosen <= rows.Keys
    ensures |claimed| == |chosen|
    ensures ClaimedIds(claimed) == order && Distinct(order)
    ensures IdSet(claimed) == chosen
    ensures forall c | c in claimed :: c.id in rows && c == Snapshot(c.id, rows[c.id])
  {
    ListingFacts(order, chosen);
    var claimed := seq(|order|, i requires 0 <= i < |order| => Snapshot(order[i], rows[order[i]]));
    assert forall id | id in chosen :: exists c | c in claimed :: c.id == id by {
      forall id | id in chosen ensures exists c | c in claimed :: c.id == id {
        assert id in order;
        var i :| 0 <= i < |order| && order[i] == id;
        assert claimed[i].id == id;
      }
    }
    claimed
  }
}
