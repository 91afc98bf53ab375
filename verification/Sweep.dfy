/** The delivery sweeper: retries what failed or went stale, event by event. */
module Sweep {
  import opened Prelude
  import opened Selection
  import opened Deliveries
  import opened DeliveryResults

  // ---- Which events ------------------------------------------------------

  /** Rows the sweeper looks for; PENDING rows do not bring it to an event, though its claim takes them along. */
  predicate Retryable(d: Delivery, now: Time) {
    d.attemptCount < d.maxAttempts && ((d.status == Failed && RetryDue(d, now)) || StaleLease(d, now))
  }

  function RetryEvents(rows: Table, now: Time): set<EventId> {
    set id | id in rows && Retryable(rows[id], now) :: rows[id].eventId
  }

  function Ascending(): (EventId, EventId) -> bool {
    (a: EventId, b: EventId) => a <= b
  }

  predicate SortedUp(s: seq<EventId>) {
    forall i, j | 0 <= i < j < |s| :: s[i] < s[j]
  }

  lemma {:induction false} SortedListing(s: set<EventId>) returns (listing: seq<EventId>)
    ensures SortedUp(listing) && forall e :: e in listing <==> e in s
    decreases |s|
  {
    if s == {} {
      listing := [];
    } else {
      var first := HasFirst(s, Ascending());
      var rest := SortedListing(s - {first});
      listing := [first] + rest;
      forall i | 0 <= i < |rest| ensures first < rest[i] {
        assert rest[i] in rest;
      }
    }
  }

  function SetOf(s: seq<EventId>): set<EventId> {
    set e | e in s
  }

  predicate IsFetch(rows: Table, now: Time, limit: nat, events: seq<EventId>) {
    SortedUp(events) && IsOldest(RetryEvents(rows, now), Ascending(), limit, SetOf(events))
  }

  /** Work that waits for a sweep, column by column: failed and due, or sent under a lease that ran out. */
  predicate Overdue(d: Delivery, now: Time) {
    && d.attemptCount < d.maxAttempts
    && match d.status
       case Failed => d.nextRetryAt == None || d.nextRetryAt.value <= now
       case Sending => d.lockExpiresAt != None && d.lockExpiresAt.value < now
       case _ => false
  }

  /** The fetched events: each once, ascending, each with overdue work; what is missing comes after a full fetch. */
  predicate FetchedEvents(rows: Table, now: Time, limit: nat, events: seq<EventId>) {
    && |events| <= limit && (forall i, j | 0 <= i < j < |events| :: events[i] < events[j])
    && (forall e | e in events :: exists id :: id in rows && rows[id].eventId == e && Overdue(rows[id], now))
    && forall id | id in rows && Overdue(rows[id], now) && rows[id].eventId !in events ::
         |events| == limit && forall e | e in events :: e < rows[id].eventId
  }

  lemma FetchFacts(rows: Table, now: Time, limit: nat, events: seq<EventId>)
    requires IsFetch(rows, now, limit, events)
    ensures FetchedEvents(rows, now, limit, events)
  {
    SortedSize(events);
    forall e | e in events
      ensures exists id :: id in rows && rows[id].eventId == e && Overdue(rows[id], now)
    {
      assert e in SetOf(events);
      var id :| id in rows && Retryable(rows[id], now) && rows[id].eventId == e;
      assert Overdue(rows[id], now);
    }
    forall id | id in rows && Overdue(rows[id], now) && rows[id].eventId !in events
      ensures |events| == limit && forall e | e in events :: e < rows[id].eventId
    {
      assert rows[id].eventId in RetryEvents(rows, now);
      forall e | e in events ensures e < rows[id].eventId {
        assert e in SetOf(events) && Ascending()(e, rows[id].eventId);
      }
    }
  }

  lemma {:induction false} SortedSize(s: seq<EventId>)
    requires SortedUp(s)
    ensures |SetOf(s)| == |s|
  {
    if s == [] {
    } else {
      var n := |s| - 1;
      SortedSize(s[..n]);
      assert SetOf(s) == SetOf(s[..n]) + {s[n]};
    }
  }

  /** SELECT DISTINCT event_id ... ORDER BY event_id LIMIT n */
  method FetchRetryEventIds(rows: Table, now: Time, limit: nat) returns (events: seq<EventId>)
    ensures IsFetch(rows, now, limit, events) && FetchedEvents(rows, now, limit, events)
  {
    ghost var chosen := OldestExists(RetryEvents(rows, now), Ascending(), limit);
    ghost var listing := SortedListing(chosen);
    assert SetOf(listing) == chosen;
    assert IsFetch(rows, now, limit, listing);
    events :| IsFetch(rows, now, limit, events);
    FetchFacts(rows, now, limit, events);
  }

  // ---- One event -----------------------------------------------------------

  predicate NotSwept(c: ClaimedDelivery) {
    c.channel == InApp || c.channel == Push
  }

  /** The result of a delivery that is not sent. */
  function Skipped(c: ClaimedDelivery, at: Time): SendResult {
    FailureResult(c, "ValueError: Delivery channel " + ChannelValue(c.channel)
                     + " should not be in notification_deliveries", at)
  }

  /** The claimed deliveries that are sent, in order. */
  function Others(claimed: seq<ClaimedDelivery>): (others: seq<ClaimedDelivery>)
    ensures forall c :: c in others <==> c in claimed && !NotSwept(c)
    decreases |claimed|
  {
    if claimed == [] then []
    else
      var n := |claimed| - 1;
      assert claimed == claimed[..n] + [claimed[n]];
      if NotSwept(claimed[n]) then Others(claimed[..n]) else Others(claimed[..n]) + [claimed[n]]
  }

  /** The results of those that are not, in order; each reads the clock for itself. */
  function SkippedResults(claimed: seq<ClaimedDelivery>, at: DeliveryId -> Time): (skipped: seq<SendResult>)
    ensures forall c | c in claimed && NotSwept(c) :: Skipped(c, at(c.id)) in skipped
    ensures forall r | r in skipped :: exists c :: c in claimed && NotSwept(c) && r == Skipped(c, at(c.id))
    decreases |claimed|
  {
    if claimed == [] then []
    else
      var n := |claimed| - 1;
      assert claimed == claimed[..n] + [claimed[n]];
      if NotSwept(claimed[n]) then SkippedResults(claimed[..n], at) + [Skipped(claimed[n], at(claimed[n].id))]
      else SkippedResults(claimed[..n], at)
  }

  /** IN_APP and PUSH deliveries are set apart; each gets a failure result without any send. */
  method SetApart(claimed: seq<ClaimedDelivery>, at: DeliveryId -> Time)
      returns (others: seq<ClaimedDelivery>, skipped: seq<SendResult>)
    ensures others == Others(claimed) && skipped == SkippedResults(claimed, at)
  {
    others, skipped := [], [];
    for i := 0 to |claimed|
      invariant others == Others(claimed[..i]) && skipped == SkippedResults(claimed[..i], at)
    {
      assert claimed[..i + 1][..i] == claimed[..i];
      if NotSwept(claimed[i]) {
        skipped := skipped + [Skipped(claimed[i], at(claimed[i].id))];
      } else {
        others := others + [claimed[i]];
      }
    }
    assert claimed[..|claimed|] == claimed;
  }

  /** The send is only tried, and so can only raise, when something other than IN_APP and PUSH was claimed. */
  predicate SendFails(claimed: seq<ClaimedDelivery>, sending: Sending) {
    sending.SendRaises? && exists c :: c in claimed && !NotSwept(c)
  }

  /** The results the sweeper finalizes: when the send itself raises, the set-apart ones are dropped. */
  function SweepResults(claimed: seq<ClaimedDelivery>, at: DeliveryId -> Time, sending: Sending): seq<SendResult> {
    if sending.SendRaises? && Others(claimed) != [] then Results(Others(claimed), sending)
    else Results(Others(claimed), sending) + SkippedResults(claimed, at)
  }

  /** Which result a claimed delivery gets: its send's, the skip, or none when the skipped ones are dropped. */
  function SweepResultFor(c: ClaimedDelivery, at: DeliveryId -> Time, sending: Sending, fails: bool)
      : Option<SendResult>
  {
    if !NotSwept(c) then Some(ResultFor(c, sending))
    else if fails then None
    else Some(Skipped(c, at(c.id)))
  }

  /** Every result is the one of a claimed delivery. */
  lemma ResultsAreOfClaims(claimed: seq<ClaimedDelivery>, at: DeliveryId -> Time, sending: Sending, r: SendResult)
      returns (c: ClaimedDelivery)
    requires r in SweepResults(claimed, at, sending)
    ensures c in claimed && c.id == r.deliveryId
    ensures SweepResultFor(c, at, sending, SendFails(claimed, sending)) == Some(r)
  {
    var others := Others(claimed);
    ResultsCoverClaims(others, sending);
    hide Results, ResultIds, ClaimedIds;
    if r in Results(others, sending) {
      var i :| 0 <= i < |Results(others, sending)| && Results(others, sending)[i] == r;
      c := others[i];
      assert c in others;
    } else {
      c :| c in claimed && NotSwept(c) && r == Skipped(c, at(c.id));
      assert SendFails(claimed, sending) ==> exists d :: d in others;
    }
  }

  /** ... and every claimed delivery that gets one gets it among them. */
  lemma ClaimsHaveResults(claimed: seq<ClaimedDelivery>, at: DeliveryId -> Time, sending: Sending, c: ClaimedDelivery)
    requires c in claimed && SweepResultFor(c, at, sending, SendFails(claimed, sending)).Some?
    ensures SweepResultFor(c, at, sending, SendFails(claimed, sending)).value in SweepResults(claimed, at, sending)
  {
    var others := Others(claimed);
    ResultsCoverClaims(others, sending);
    hide Results, ResultIds, ClaimedIds;
    if !NotSwept(c) {
      var i :| 0 <= i < |others| && others[i] == c;
      assert Results(others, sending)[i] == ResultFor(c, sending);
    } else if others != [] {
      assert others[0] in others;
    }
  }

  /** Looked up by id, each claimed delivery has exactly its own result, or none. */
  lemma SweepResultsById(claimed: seq<ClaimedDelivery>, at: DeliveryId -> Time, sending: Sending)
    requires Distinct(ClaimedIds(claimed))
    ensures var byId := ById(SweepResults(claimed, at, sending));
            var fails := SendFails(claimed, sending);
            && (forall id | id in byId :: id in IdSet(claimed))
            && forall c | c in claimed ::
                 match SweepResultFor(c, at, sending, fails)
                 case Some(r) => c.id in byId && byId[c.id] == r
                 case None => c.id !in byId
  {
    var results := SweepResults(claimed, at, sending);
    var byId := ById(results);
    ByIdKeys(results);
    ByIdValues(results);
    hide SweepResults, SweepResultFor, SendFails;
    forall id | id in byId ensures id in IdSet(claimed) {
      var d := ResultsAreOfClaims(claimed, at, sending, byId[id]);
    }
    forall c | c in claimed
      ensures match SweepResultFor(c, at, sending, SendFails(claimed, sending))
              case Some(r) => c.id in byId && byId[c.id] == r
              case None => c.id !in byId
    {
      OwnResultById(claimed, at, sending, c);
    }
  }

  lemma OwnResultById(claimed: seq<ClaimedDelivery>, at: DeliveryId -> Time, sending: Sending, c: ClaimedDelivery)
    requires Distinct(ClaimedIds(claimed)) && c in claimed
    ensures var byId := ById(SweepResults(claimed, at, sending));
            match SweepResultFor(c, at, sending, SendFails(claimed, sending))
            case Some(r) => c.id in byId && byId[c.id] == r
            case None => c.id !in byId
  {
    var results := SweepResults(claimed, at, sending);
    var fails := SendFails(claimed, sending);
    ByIdKeys(results);
    ByIdValues(results);
    SameIdSameClaim(claimed, c);
    SweepResultIsOwn(c, at, sending, fails);
    hide SweepResults, SweepResultFor, SendFails, Distinct, ClaimedIds;
    if SweepResultFor(c, at, sending, fails).Some? {
      ClaimsHaveResults(claimed, at, sending, c);
      InResultIds(results, SweepResultFor(c, at, sending, fails).value);
    }
    if c.id in ById(results) {
      var d := ResultsAreOfClaims(claimed, at, sending, ById(results)[c.id]);
    }
  }

  lemma SweepResultIsOwn(c: ClaimedDelivery, at: DeliveryId -> Time, sending: Sending, fails: bool)
    ensures SweepResultFor(c, at, sending, fails).Some? ==>
              SweepResultFor(c, at, sending, fails).value.deliveryId == c.id
  {
  }

  /** What a sweep's finalize makes of one claimed row. */
  function SweptRow(d: Delivery, worker: WorkerId, c: ClaimedDelivery, at: DeliveryId -> Time, sending: Sending,
                    fails: bool): Delivery
  {
    match SweepResultFor(c, at, sending, fails)
    case Some(r) => FinalizeRow(d, worker, r)
    case None => d
  }

  /**
   A sweep's finalize seen row by row: every claimed row the worker still holds is released with its own
   result, unless that was dropped; every other row is left as it is.
   */
  predicate Swept(mid: Table, after: Table, worker: WorkerId, claimed: seq<ClaimedDelivery>, at: DeliveryId -> Time,
                  sending: Sending)
  {
    && after.Keys == mid.Keys
    && (forall c | c in claimed && c.id in mid ::
          after[c.id] == SweptRow(mid[c.id], worker, c, at, sending, SendFails(claimed, sending)))
    && (forall id | id in mid && id !in IdSet(claimed) :: after[id] == mid[id])
  }

  lemma FinalizeSweeps(mid: Table, worker: WorkerId, claimed: seq<ClaimedDelivery>, at: DeliveryId -> Time,
                       sending: Sending)
    requires Distinct(ClaimedIds(claimed))
    ensures Swept(mid, FinalizeBulk(mid, worker, SweepResults(claimed, at, sending)), worker, claimed, at, sending)
  {
    var after := FinalizeBulk(mid, worker, SweepResults(claimed, at, sending));
    assert after.Keys == mid.Keys;
    hide SweepResults, SendFails, FinalizeBulk, SweptRow, Distinct, ClaimedIds;
    forall id | id in mid
      ensures id !in IdSet(claimed) ==> after[id] == mid[id]
      ensures forall c | c in claimed && c.id == id ::
                after[id] == SweptRow(mid[id], worker, c, at, sending, SendFails(claimed, sending))
    {
      FinalizeSweepsRow(mid, worker, claimed, at, sending, id);
    }
  }

  lemma FinalizeSweepsRow(mid: Table, worker: WorkerId, claimed: seq<ClaimedDelivery>, at: DeliveryId -> Time,
                          sending: Sending, id: DeliveryId)
    requires Distinct(ClaimedIds(claimed)) && id in mid
    ensures var after := FinalizeBulk(mid, worker, SweepResults(claimed, at, sending));
            && id in after && (id !in IdSet(claimed) ==> after[id] == mid[id])
            && forall c | c in claimed && c.id == id ::
                 after[id] == SweptRow(mid[id], worker, c, at, sending, SendFails(claimed, sending))
  {
    FinalizeBulkRow(mid, worker, SweepResults(claimed, at, sending), id);
    SweepResultsById(claimed, at, sending);
    hide SweepResults, SweepResultFor, SendFails, Distinct, FinalizeBulk, FinalizeRow, ById, IdSet, ClaimedIds;
  }

  lemma SweptRowKeepsEvent(d: Delivery, worker: WorkerId, c: ClaimedDelivery, at: DeliveryId -> Time, sending: Sending,
                           fails: bool)
    ensures SweptRow(d, worker, c, at, sending, fails).eventId == d.eventId
  {
  }

  /** The status, error and retry time a sweep gives a delivery; IN_APP and PUSH fail without a send. */
  predicate SweptOutcome(c: ClaimedDelivery, at: DeliveryId -> Time, sending: Sending, status: Status,
                         error: Option<string>, retry: Option<Time>)
  {
    match c.channel
    case InApp =>
      && status == Failed && retry == Some(RetryTime(c.attemptCount, at(c.id)))
      && error == Some("ValueError: Delivery channel " + "in_app" + " should not be in notification_deliveries")
    case Push =>
      && status == Failed && retry == Some(RetryTime(c.attemptCount, at(c.id)))
      && error == Some("ValueError: Delivery channel " + "push" + " should not be in notification_deliveries")
    case _ => Outcome(c, sending, status, error, retry)
  }

  /** The send raises although something else than IN_APP and PUSH was claimed: then their results are dropped. */
  predicate Drops(claimed: seq<ClaimedDelivery>, sending: Sending) {
    sending.SendRaises? && exists c :: c in claimed && c.channel != InApp && c.channel != Push
  }

  /** One claimed row around a sweep's finalize, column by column. */
  predicate SweptAs(c: ClaimedDelivery, d: Delivery, d': Delivery, worker: WorkerId, at: DeliveryId -> Time,
                    sending: Sending, drops: bool)
  {
    if d.status != Sending || d.lockedBy != Some(worker) || (drops && c.channel in {InApp, Push}) then d' == d
    else
      && SweptOutcome(c, at, sending, d'.status, d'.lastError, d'.nextRetryAt)
      && Released(d, d', SendResult(c.id, d'.status, d'.lastError, d'.nextRetryAt))
  }

  lemma SkippedOutcome(c: ClaimedDelivery, at: DeliveryId -> Time, sending: Sending)
    requires NotSwept(c)
    ensures var r := Skipped(c, at(c.id));
            r.deliveryId == c.id && SweptOutcome(c, at, sending, r.status, r.lastError, r.nextRetryAt)
  {
  }

  lemma SweptRowColumns(c: ClaimedDelivery, d: Delivery, worker: WorkerId, at: DeliveryId -> Time, sending: Sending,
                        fails: bool)
    ensures SweptAs(c, d, SweptRow(d, worker, c, at, sending, fails), worker, at, sending, fails)
  {
    hide Outcome, ResultFor, Skipped, FinalizeRow, Released;
    if NotSwept(c) {
      SkippedOutcome(c, at, sending);
      FinalizeRowColumns(d, worker, Skipped(c, at(c.id)));
    } else {
      OwnOutcome(c, sending);
      FinalizeRowColumns(d, worker, ResultFor(c, sending));
    }
  }

  /** Every claimed row the worker still holds gets the outcome of its channel and send; every other row is kept. */
  lemma SweptColumns(mid: Table, after: Table, worker: WorkerId, claimed: seq<ClaimedDelivery>, at: DeliveryId -> Time,
                     sending: Sending)
    requires Swept(mid, after, worker, claimed, at, sending)
    ensures after.Keys == mid.Keys && forall id | id in mid && id !in IdSet(claimed) :: after[id] == mid[id]
    ensures forall c | c in claimed && c.id in mid ::
              SweptAs(c, mid[c.id], after[c.id], worker, at, sending, Drops(claimed, sending))
  {
    assert SendFails(claimed, sending) <==> Drops(claimed, sending);
    forall c | c in claimed && c.id in mid
      ensures SweptAs(c, mid[c.id], after[c.id], worker, at, sending, Drops(claimed, sending))
    {
      SweptRowColumns(c, mid[c.id], worker, at, sending, SendFails(claimed, sending));
    }
  }

  /** Steps 2 of sweep_once for one event: claim, set apart, send, finalize, with others acting in between. */
  method SweepEvent(table: DeliveryTable, event: EventId, now: Time, locked: set<DeliveryId>, worker: WorkerId,
                    limit: nat, at: DeliveryId -> Time, sending: Sending, meanwhile: Table -> Table)
      returns (claimed: seq<ClaimedDelivery>, ghost mid: Table)
    modifies table
    ensures IsClaim(old(table.rows), event, now, limit, locked, IdSet(claimed))
    ensures var claimedRows := ClaimRows(old(table.rows), IdSet(claimed), worker, now);
            && Returned(claimedRows, claimed)
            && Budget(claimedRows) == Budget(old(table.rows)) - |claimed|
            && mid == if claimed == [] then claimedRows else meanwhile(claimedRows)
    ensures Swept(mid, table.rows, worker, claimed, at, sending)
    ensures forall c | c in claimed && c.id in mid ::
              SweptAs(c, mid[c.id], table.rows[c.id], worker, at, sending, Drops(claimed, sending))
    ensures forall id | id in mid && id !in IdSet(claimed) :: table.rows[id] == mid[id]
    ensures Budget(table.rows) == Budget(mid)
  {
    hide FinalizeRow, SweepResultFor, SendFails, Swept, SweptAs, Drops;
    claimed := table.ClaimDeliveriesToSend(event, now, worker, limit, locked);
    mid := table.rows;
    if claimed == [] {
      NothingSwept(mid, worker, at, sending);
      return;
    }
    table.rows := meanwhile(table.rows);
    mid := table.rows;
    var others, skipped := SetApart(claimed, at);
    var results := if sending.SendRaises? && others != [] then Results(others, sending)
                   else Results(others, sending) + skipped;
    FinalizeSweeps(mid, worker, claimed, at, sending);
    var rowcount := table.FinalizeDeliveryResults(worker, results);
    SweptColumns(mid, table.rows, worker, claimed, at, sending);
  }

  lemma NothingSwept(rows: Table, worker: WorkerId, at: DeliveryId -> Time, sending: Sending)
    ensures Swept(rows, rows, worker, [], at, sending) && IdSet([]) == {}
  {
  }

  // ---- All events of one sweep -----------------------------------------------

  /** Rows of other events are as they were. */
  predicate OnlyEvents(before: Table, after: Table, events: seq<EventId>) {
    forall id | id in before :: id in after && after[id].eventId == before[id].eventId
      && (before[id].eventId !in events ==> after[id] == before[id])
  }

  /** A sweep of one event, with nobody acting in between, touches only rows of that event. */
  lemma SweepIsOfItsEvent(rows: Table, event: EventId, now: Time, locked: set<DeliveryId>, worker: WorkerId, limit: nat,
                          claimed: seq<ClaimedDelivery>, after: Table, at: DeliveryId -> Time, sending: Sending)
    requires IsClaim(rows, event, now, limit, locked, IdSet(claimed))
    requires Swept(ClaimRows(rows, IdSet(claimed), worker, now), after, worker, claimed, at, sending)
    ensures OnlyEvents(rows, after, [event])
  {
    OnlyEligibleRowsAreClaimed(rows, event, now, limit, locked, IdSet(claimed));
    hide SweepResultFor, SendFails, SweptRow, IsClaim;
    forall id | id in rows
      ensures id in after && after[id].eventId == rows[id].eventId
      ensures rows[id].eventId != event ==> after[id] == rows[id]
    {
      if id in IdSet(claimed) {
        var c :| c in claimed && c.id == id;
        SweptRowKeepsEvent(ClaimRow(rows[id], worker, now), worker, c, at, sending, SendFails(claimed, sending));
      }
    }
  }

  /** Everything outside one sweep, per event. */
  datatype SweepEnvironment = SweepEnvironment(
    missing: set<EventId>, now: EventId -> Time, locked: EventId -> set<DeliveryId>, at: DeliveryId -> Time,
    sending: EventId -> Sending)

  /** The rows of an event are the same in both tables. */
  predicate SameEvent(a: Table, b: Table, e: EventId) {
    && (forall id | id in a && a[id].eventId == e :: id in b && b[id] == a[id])
    && (forall id | id in b && b[id].eventId == e :: id in a && a[id] == b[id])
  }

  /** One row around the sweep of its event: leased for an attempt, and then given the outcome of its send. */
  ghost predicate Worked(c: ClaimedDelivery, d: Delivery, d': Delivery, worker: WorkerId, now: Time,
                         at: DeliveryId -> Time, sending: Sending, drops: bool)
  {
    && c.channel == d.channel && c.attemptCount == d.attemptCount + 1 == d'.attemptCount
    && exists leased :: Leased(d, leased, worker, now) && SweptAs(c, leased, d', worker, at, sending, drops)
  }

  /** What a sweep leaves of the rows of one event: the claim's rows worked on, the others as they were. */
  ghost predicate EventSwept(before: Table, after: Table, e: EventId, claimed: seq<ClaimedDelivery>, worker: WorkerId,
                             limit: nat, env: SweepEnvironment)
  {
    && IsClaim(before, e, env.now(e), limit, env.locked(e), IdSet(claimed))
    && (forall id | id in before && before[id].eventId == e :: id in after && after[id].eventId == e)
    && (forall id | id in before && before[id].eventId == e && id !in IdSet(claimed) :: after[id] == before[id])
    && forall c | c in claimed && c.id in before && before[c.id].eventId == e ::
         Worked(c, before[c.id], after[c.id], worker, env.now(e), env.at, env.sending(e),
                Drops(claimed, env.sending(e)))
  }

  /** A claim only looks at the rows of its event. */
  lemma ClaimIsLocal(a: Table, b: Table, e: EventId, now: Time, limit: nat, locked: set<DeliveryId>,
                     chosen: set<DeliveryId>)
    requires SameEvent(a, b, e) && IsClaim(a, e, now, limit, locked, chosen)
    ensures IsClaim(b, e, now, limit, locked, chosen)
  {
    assert Eligible(a, e, now, locked) == Eligible(b, e, now, locked);
    hide Claimable;
    forall k | k in Eligible(b, e, now, locked) && k !in chosen
      ensures |chosen| == limit && forall c | c in chosen :: OlderFirst(b)(c, k)
    {
      forall c | c in chosen ensures OlderFirst(b)(c, k) {
        assert OlderFirst(a)(c, k) && c in Eligible(a, e, now, locked);
        SameAges(a, b, e, now, locked, c, k);
      }
    }
  }

  lemma SameAges(a: Table, b: Table, e: EventId, now: Time, locked: set<DeliveryId>, c: DeliveryId, k: DeliveryId)
    requires SameEvent(a, b, e) && c in Eligible(a, e, now, locked) && k in Eligible(a, e, now, locked)
    ensures OlderFirst(b)(c, k) == OlderFirst(a)(c, k)
  {
  }

  lemma EventSweptMoves(before: Table, after: Table, before': Table, after': Table, e: EventId,
                        claimed: seq<ClaimedDelivery>, worker: WorkerId, limit: nat, env: SweepEnvironment)
    requires EventSwept(before, after, e, claimed, worker, limit, env)
    requires SameEvent(before, before', e) && SameEvent(after, after', e)
    ensures EventSwept(before', after', e, claimed, worker, limit, env)
  {
    ClaimIsLocal(before, before', e, env.now(e), limit, env.locked(e), IdSet(claimed));
    hide IsClaim, Worked, Drops, IdSet;
  }

  /** A call of SweepEvent with nobody acting in between is such a sweep. */
  lemma SweepEventSweeps(before: Table, after: Table, e: EventId, claimed: seq<ClaimedDelivery>, worker: WorkerId,
                         limit: nat, env: SweepEnvironment)
    requires IsClaim(before, e, env.now(e), limit, env.locked(e), IdSet(claimed))
    requires var mid := ClaimRows(before, IdSet(claimed), worker, env.now(e));
             Returned(mid, claimed) && Swept(mid, after, worker, claimed, env.at, env.sending(e))
    ensures EventSwept(before, after, e, claimed, worker, limit, env) && after.Keys == before.Keys
    ensures OnlyEvents(before, after, [e])
  {
    var now := env.now(e);
    var mid := ClaimRows(before, IdSet(claimed), worker, now);
    SweepIsOfItsEvent(before, e, now, env.locked(e), worker, limit, claimed, after, env.at, env.sending(e));
    SweptColumns(mid, after, worker, claimed, env.at, env.sending(e));
    ClaimedRows(before, IdSet(claimed), worker, now);
    hide IsClaim, Swept, SweptAs, ClaimRows, Drops, Leased, Worked;
    forall c | c in claimed && c.id in before && before[c.id].eventId == e
      ensures Worked(c, before[c.id], after[c.id], worker, now, env.at, env.sending(e), Drops(claimed, env.sending(e)))
    {
      assert c.id in IdSet(claimed) && Leased(before[c.id], mid[c.id], worker, now);
      WorkedFrom(c, before[c.id], mid[c.id], after[c.id], worker, now, env.at, env.sending(e),
                 Drops(claimed, env.sending(e)));
    }
  }

  lemma WorkedFrom(c: ClaimedDelivery, d: Delivery, leased: Delivery, d': Delivery, worker: WorkerId, now: Time,
                   at: DeliveryId -> Time, sending: Sending, drops: bool)
    requires Leased(d, leased, worker, now) && SweptAs(c, leased, d', worker, at, sending, drops)
    requires c == Snapshot(c.id, leased)
    ensures Worked(c, d, d', worker, now, at, sending, drops)
  {
  }

  /** What a sweep of the first events leaves of the whole table. */
  ghost predicate SweptSoFar(before: Table, after: Table, events: seq<EventId>,
                             claims: map<EventId, seq<ClaimedDelivery>>, worker: WorkerId, limit: nat,
                             env: SweepEnvironment)
  {
    && after.Keys == before.Keys
    && (forall e | e in events && e !in env.missing ::
          e in claims && EventSwept(before, after, e, claims[e], worker, limit, env))
    && forall id | id in before && (before[id].eventId !in events || before[id].eventId in env.missing) ::
         after[id] == before[id]
  }

  lemma SweepsAnother(before: Table, mid: Table, after: Table, events: seq<EventId>,
                      claims: map<EventId, seq<ClaimedDelivery>>, e: EventId, claimed: seq<ClaimedDelivery>,
                      worker: WorkerId, limit: nat, env: SweepEnvironment)
    requires SweptSoFar(before, mid, events, claims, worker, limit, env) && OnlyEvents(before, mid, events)
    requires EventSwept(mid, after, e, claimed, worker, limit, env) && OnlyEvents(mid, after, [e])
    requires e !in events && e !in env.missing && after.Keys == mid.Keys
    ensures SweptSoFar(before, after, events + [e], claims[e := claimed], worker, limit, env)
  {
    hide EventSwept;
    EventSweptMoves(mid, after, before, after, e, claimed, worker, limit, env);
    forall f | f in events && f !in env.missing
      ensures EventSwept(before, after, f, claims[f], worker, limit, env)
    {
      EventSweptMoves(before, mid, before, after, f, claims[f], worker, limit, env);
    }
  }

  /** Overdue work of a swept event, unlocked and with room for the event's work, has used one attempt. */
  lemma OverdueIsWorked(before: Table, after: Table, events: seq<EventId>, claims: map<EventId, seq<ClaimedDelivery>>,
                        worker: WorkerId, limit: nat, env: SweepEnvironment, start: Time, id: DeliveryId)
    requires SweptSoFar(before, after, events, claims, worker, limit, env)
    requires id in before && Overdue(before[id], start) && before[id].eventId in events
    requires before[id].eventId !in env.missing && start <= env.now(before[id].eventId)
    requires id !in env.locked(before[id].eventId)
    requires var e := before[id].eventId; |Eligible(before, e, env.now(e), env.locked(e))| <= limit
    ensures id in after && after[id].attemptCount == before[id].attemptCount + 1
  {
    var e := before[id].eventId;
    ClaimableMeans(before[id], e, env.now(e));
    hide Claimable;
    assert id in Eligible(before, e, env.now(e), env.locked(e));
    RoomForAll(before, e, env.now(e), limit, env.locked(e), IdSet(claims[e]), id);
    hide IsClaim, Worked, Eligible;
    var c :| c in claims[e] && c.id == id;
    WorkedUsesAttempt(c, before[id], after[id], worker, env.now(e), env.at, env.sending(e),
                      Drops(claims[e], env.sending(e)));
  }

  lemma WorkedUsesAttempt(c: ClaimedDelivery, d: Delivery, d': Delivery, worker: WorkerId, now: Time,
                          at: DeliveryId -> Time, sending: Sending, drops: bool)
    requires Worked(c, d, d', worker, now, at, sending, drops)
    ensures d'.attemptCount == d.attemptCount + 1
  {
  }

  /**
   sweep_once, with no other writer: returns how many events had something to do; `worked` counts the rows,
   `claims` are those of each event.
   */
  method SweepOnce(table: DeliveryTable, start: Time, worker: WorkerId, maxEvents: nat, limit: nat,
                   env: SweepEnvironment)
      returns (processed: nat, ghost worked: nat, ghost events: seq<EventId>,
               ghost claims: map<EventId, seq<ClaimedDelivery>>)
    modifies table
    ensures IsFetch(old(table.rows), start, maxEvents, events)
    ensures FetchedEvents(old(table.rows), start, maxEvents, events)
    ensures processed <= |events| && processed <= worked
    // Progress: every row worked on has used up one attempt of the table's budget, and nothing else has.
    ensures Budget(table.rows) == Budget(old(table.rows)) - worked
    ensures OnlyEvents(old(table.rows), table.rows, events)
    // The whole new table: the rows of each fetched event that is not missing are claimed from and worked on.
    ensures SweptSoFar(old(table.rows), table.rows, events, claims, worker, limit, env)
    // No overdue work of a fetched event is passed over.
    ensures forall id | id in old(table.rows) && Overdue(old(table.rows)[id], start) ::
              var e := old(table.rows)[id].eventId;
              (e in events && e !in env.missing && start <= env.now(e) && id !in env.locked(e)
               && |Eligible(old(table.rows), e, env.now(e), env.locked(e))| <= limit) ==>
              table.rows[id].attemptCount == old(table.rows)[id].attemptCount + 1
  {
    hide *;
    ghost var first := table.rows;
    var ids := FetchRetryEventIds(table.rows, start, maxEvents);
    events, worked, processed, claims := ids, 0, 0, map[];
    NothingSweptYet(first, worker, limit, env);
    for i := 0 to |ids|
      invariant processed <= i && processed <= worked
      invariant Budget(table.rows) == Budget(first) - worked
      invariant OnlyEvents(first, table.rows, ids[..i])
      invariant SweptSoFar(first, table.rows, ids[..i], claims, worker, limit, env)
    {
      assert ids[..i + 1] == ids[..i] + [ids[i]];
      var e := ids[i];
      NotBefore(first, start, maxEvents, ids, i);
      if e in env.missing {
        PassesOver(first, table.rows, ids[..i], claims, e, worker, limit, env);
      } else {
        ghost var before := table.rows;
        var claimed, mid := SweepEvent(table, e, env.now(e), env.locked(e), worker, limit, env.at, env.sending(e),
                                       (t: Table) => t);
        SweepEventSweeps(before, table.rows, e, claimed, worker, limit, env);
        SweepsAnother(first, before, table.rows, ids[..i], claims, e, claimed, worker, limit, env);
        OnlyEventsChain(first, before, table.rows, ids[..i], e);
        worked := worked + |claimed|;
        claims := claims[e := claimed];
        if claimed != [] { processed := processed + 1; }
      }
    }
    assert ids[..|ids|] == ids;
    forall id | id in first && Overdue(first[id], start)
      ensures var e := first[id].eventId;
              (e in events && e !in env.missing && start <= env.now(e) && id !in env.locked(e)
               && |Eligible(first, e, env.now(e), env.locked(e))| <= limit) ==>
              id in table.rows && table.rows[id].attemptCount == first[id].attemptCount + 1
    {
      var e := first[id].eventId;
      if e in events && e !in env.missing && start <= env.now(e) && id !in env.locked(e)
         && |Eligible(first, e, env.now(e), env.locked(e))| <= limit
      {
        OverdueIsWorked(first, table.rows, events, claims, worker, limit, env, start, id);
      }
    }
  }

  lemma NothingSweptYet(rows: Table, worker: WorkerId, limit: nat, env: SweepEnvironment)
    ensures SweptSoFar(rows, rows, [], map[], worker, limit, env) && OnlyEvents(rows, rows, [])
  {
  }

  lemma NotBefore(rows: Table, now: Time, limit: nat, events: seq<EventId>, i: nat)
    requires FetchedEvents(rows, now, limit, events) && i < |events|
    ensures events[i] !in events[..i]
  {
  }

  lemma PassesOver(before: Table, after: Table, events: seq<EventId>, claims: map<EventId, seq<ClaimedDelivery>>,
                   e: EventId, worker: WorkerId, limit: nat, env: SweepEnvironment)
    requires SweptSoFar(before, after, events, claims, worker, limit, env) && OnlyEvents(before, after, events)
    requires e in env.missing
    ensures SweptSoFar(before, after, events + [e], claims, worker, limit, env)
    ensures OnlyEvents(before, after, events + [e])
  {
    hide EventSwept;
  }

  lemma OnlyEventsChain(a: Table, b: Table, c: Table, events: seq<EventId>, e: EventId)
    requires OnlyEvents(a, b, events) && OnlyEvents(b, c, [e])
    ensures OnlyEvents(a, c, events + [e])
  {
  }
}
