/**
 What the consumer and the sweeper finalize after a send: one result per claimed delivery,
 from its own sender or from the exception that ended the send.
 */
module DeliveryResults {
  import opened Prelude
  import opened Deliveries
  import Backoff
  import Retry

  /** send_claimed_deliveries: one outcome per delivery, or an exception out of the gather. */
  datatype Sending =
    | SendRaises(kind: Retry.ErrorKind, reason: string, at: DeliveryId -> Time)
    | Sends(outcomes: DeliveryId -> SendOutcome)

  function Outcomes(claimed: seq<ClaimedDelivery>, f: DeliveryId -> SendOutcome): (o: seq<SendOutcome>)
    ensures |o| == |claimed|
    ensures forall i | 0 <= i < |claimed| :: o[i] == f(claimed[i].id)
  {
    seq(|claimed|, i requires 0 <= i < |claimed| => f(claimed[i].id))
  }

  /** The results handed to finalize. */
  function Results(claimed: seq<ClaimedDelivery>, sending: Sending): seq<SendResult> {
    match sending
    case SendRaises(_, reason, at) => BuildFailureResults(claimed, reason, at)
    case Sends(f) => SendClaimedDeliveries(claimed, WORKER_SENDERS, Outcomes(claimed, f))
  }

  /** The result of one claimed delivery. */
  function ResultFor(c: ClaimedDelivery, sending: Sending): SendResult {
    match sending
    case SendRaises(_, reason, at) => FailureResult(c, reason, at(c.id))
    case Sends(f) => SendOne(c, WORKER_SENDERS, f(c.id))
  }

  /** Exactly one result per claimed delivery, in order: its own. */
  lemma ResultsCoverClaims(claimed: seq<ClaimedDelivery>, sending: Sending)
    ensures |Results(claimed, sending)| == |claimed|
    ensures forall i | 0 <= i < |claimed| :: Results(claimed, sending)[i] == ResultFor(claimed[i], sending)
    ensures ResultIds(Results(claimed, sending)) == ClaimedIds(claimed)
  {
    hide SendClaimedDeliveries, BuildFailureResults, ResultIds, ClaimedIds;
    match sending
    case SendRaises(_, reason, at) =>
    case Sends(f) =>
  }

  /** What RETURNING hands over of a table just claimed from: each claimed row once, as it now is. */
  predicate Returned(rows: Table, claimed: seq<ClaimedDelivery>) {
    && Distinct(ClaimedIds(claimed))
    && forall c | c in claimed :: c.id in rows && c == Snapshot(c.id, rows[c.id])
  }

  lemma SameIdSameClaim(claimed: seq<ClaimedDelivery>, c: ClaimedDelivery)
    requires c in claimed && Distinct(ClaimedIds(claimed))
    ensures forall d | d in claimed && d.id == c.id :: d == c
  {
    var i :| 0 <= i < |claimed| && claimed[i] == c;
    forall d | d in claimed && d.id == c.id ensures d == c {
      var j :| 0 <= j < |claimed| && claimed[j] == d;
      assert ClaimedIds(claimed)[i] == ClaimedIds(claimed)[j];
    }
  }

  lemma {:induction false} ByIdValues(results: seq<SendResult>)
    ensures forall id | id in ById(results) :: ById(results)[id] in results && ById(results)[id].deliveryId == id
    decreases |results|
  {
    if results == [] {
    } else {
      var n := |results| - 1;
      ByIdValues(results[..n]);
      assert results == results[..n] + [results[n]];
    }
  }

  /** Looked up by id, a claimed delivery has exactly its own result, and nothing else has one. */
  lemma ResultsById(claimed: seq<ClaimedDelivery>, sending: Sending)
    requires Distinct(ClaimedIds(claimed))
    ensures forall id :: id in ById(Results(claimed, sending)) <==> id in IdSet(claimed)
    ensures forall c | c in claimed :: c.id in ById(Results(claimed, sending))
                                       && ById(Results(claimed, sending))[c.id] == ResultFor(c, sending)
  {
    var results := Results(claimed, sending);
    ResultsCoverClaims(claimed, sending);
    ByIdKeys(results);
    ByIdValues(results);
    forall id ensures id in ClaimedIds(claimed) <==> id in IdSet(claimed) {
      ClaimedIdSet(claimed, id);
    }
    forall c | c in claimed ensures c.id in ById(results) && ById(results)[c.id] == ResultFor(c, sending) {
      assert c.id in IdSet(claimed);
      var r := ById(results)[c.id];
      var i :| 0 <= i < |results| && results[i] == r;
      SameIdSameClaim(claimed, c);
    }
  }

  lemma ClaimedIdSet(claimed: seq<ClaimedDelivery>, id: DeliveryId)
    ensures id in ClaimedIds(claimed) <==> id in IdSet(claimed)
  {
    if id in IdSet(claimed) {
      var i :| 0 <= i < |claimed| && claimed[i].id == id;
      assert ClaimedIds(claimed)[i] == id;
    }
    if id in ClaimedIds(claimed) {
      var i :| 0 <= i < |claimed| && ClaimedIds(claimed)[i] == id;
      assert claimed[i].id == id;
    }
  }

  /**
   A finalize seen row by row: every claimed row the worker still holds is released with its own
   result; a row taken over meanwhile, and every row not claimed, is left as it is.
   */
  predicate Settled(mid: Table, after: Table, worker: WorkerId, claimed: seq<ClaimedDelivery>, sending: Sending) {
    && after.Keys == mid.Keys
    && (forall c | c in claimed && c.id in mid :: after[c.id] == FinalizeRow(mid[c.id], worker, ResultFor(c, sending)))
    && (forall id | id in mid && id !in IdSet(claimed) :: after[id] == mid[id])
  }

  lemma FinalizeSettles(mid: Table, worker: WorkerId, claimed: seq<ClaimedDelivery>, sending: Sending)
    requires Distinct(ClaimedIds(claimed))
    ensures Settled(mid, FinalizeBulk(mid, worker, Results(claimed, sending)), worker, claimed, sending)
  {
    ResultsById(claimed, sending);
    var after := FinalizeBulk(mid, worker, Results(claimed, sending));
    assert after.Keys == mid.Keys;
    hide FinalizeBulk, FinalizeRow, ResultFor, Results, ById, Distinct;
    forall id | id in mid
      ensures id !in IdSet(claimed) ==> after[id] == mid[id]
      ensures forall c | c in claimed && c.id == id :: after[id] == FinalizeRow(mid[id], worker, ResultFor(c, sending))
    {
      FinalizeBulkRow(mid, worker, Results(claimed, sending), id);
    }
  }

  /** The wait after attempt number n, as every failed send gets it. */
  function RetryTime(n: nat, at: Time): Time {
    at + Minutes(Backoff.BackoffMinutes(n))
  }

  /** What a send makes of a delivery: the worker has senders for EMAIL, LOG and IN_APP, and for nothing else. */
  predicate Outcome(c: ClaimedDelivery, sending: Sending, status: Status, error: Option<string>, retry: Option<Time>) {
    match sending
    case SendRaises(_, reason, at) =>
      status == Failed && error == Some(reason) && retry == Some(RetryTime(c.attemptCount, at(c.id)))
    case Sends(f) =>
      match c.channel
      case Sms => status == Failed && error == Some("Unsupported channel: sms") && retry == None
      case Push => status == Failed && error == Some("Unsupported channel: push") && retry == None
      case _ =>
        match f(c.id)
        case SendOk => status == Sent && error == None && retry == None
        case SendRaised(reason, at) =>
          status == Failed && error == Some(reason) && retry == Some(RetryTime(c.attemptCount, at))
  }

  lemma OwnOutcome(c: ClaimedDelivery, sending: Sending)
    ensures var r := ResultFor(c, sending);
            r.deliveryId == c.id && Outcome(c, sending, r.status, r.lastError, r.nextRetryAt)
  {
    assert "Unsupported channel: " + "sms" == "Unsupported channel: sms";
    assert "Unsupported channel: " + "push" == "Unsupported channel: push";
  }

  /** Every claimed row that is still the worker's ends unlocked, with what its own send made of it. */
  lemma HeldAreReleased(mid: Table, after: Table, worker: WorkerId, claimed: seq<ClaimedDelivery>, sending: Sending)
    requires Settled(mid, after, worker, claimed, sending)
    ensures forall c | c in claimed && c.id in mid ::
              var d, d' := mid[c.id], after[c.id];
              if d.status == Sending && d.lockedBy == Some(worker) then
                && Outcome(c, sending, d'.status, d'.lastError, d'.nextRetryAt)
                && Released(d, d', SendResult(c.id, d'.status, d'.lastError, d'.nextRetryAt))
              else d' == d
  {
    forall c | c in claimed ensures var r := ResultFor(c, sending);
                                    r.deliveryId == c.id && Outcome(c, sending, r.status, r.lastError, r.nextRetryAt)
    {
      OwnOutcome(c, sending);
    }
    hide Outcome, ResultFor;
  }
}
