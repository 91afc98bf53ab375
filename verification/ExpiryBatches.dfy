/**
 The alert table of the inventory expiry job: what one batch fetches and marks, and what
 a number of batches leaves of the table.
 */
module ExpiryBatches {
  import opened Prelude
  import opened Selection
  import opened Sums

  type AlertId = nat
  type ItemId = nat
  type Date = int

  datatype AlertType = ExpiringSoon | Expired

  datatype Alert = Alert(
    itemId: ItemId, alertType: AlertType, alertDate: Date,
    publishedAt: Option<Time>, publishAttempts: nat, lastError: Option<string>)

  type Table = map<AlertId, Alert>

  const MAX_BATCHES: nat := 100
  const MAX_ATTEMPTS: nat := 5

  // ---- Fetching and marking -------------------------------------------------

  predicate Unfinished(a: Alert, t: AlertType, cap: nat) {
    a.alertType == t && a.publishedAt.None? && a.publishAttempts < cap
  }

  function Eligible(rows: Table, t: AlertType, cap: nat): set<AlertId> {
    set id | id in rows && Unfinished(rows[id], t, cap)
  }

  /** ORDER BY alert_date ASC, id ASC. */
  function EarlierFirst(rows: Table): (AlertId, AlertId) -> bool {
    (a: AlertId, b: AlertId) =>
      if a in rows && b in rows then
        rows[a].alertDate < rows[b].alertDate || (rows[a].alertDate == rows[b].alertDate && a <= b)
      else a in rows || (b !in rows && a <= b)
  }

  predicate IsFetch(rows: Table, t: AlertType, limit: nat, cap: nat, batch: set<AlertId>) {
    IsOldest(Eligible(rows, t, cap), EarlierFirst(rows), limit, batch)
  }

  function MarkPublished(rows: Table, ids: set<AlertId>, now: Time): Table {
    map id | id in rows ::
      if id in ids && rows[id].publishedAt.None? then
        rows[id].(publishedAt := Some(now), publishAttempts := rows[id].publishAttempts + 1, lastError := None)
      else rows[id]
  }

  function MarkFailed(rows: Table, ids: set<AlertId>, error: string): Table {
    map id | id in rows ::
      if id in ids && rows[id].publishedAt.None? then
        rows[id].(publishAttempts := rows[id].publishAttempts + 1, lastError := Some(error))
      else rows[id]
  }

  // ---- What one batch uses up ----------------------------------------

  /** Attempts an alert may still use up. */
  function Left(rows: Table, t: AlertType, cap: nat): map<AlertId, int> {
    map id | id in rows :: if Unfinished(rows[id], t, cap) then cap - rows[id].publishAttempts else 0
  }

  ghost function Potential(rows: Table, t: AlertType, cap: nat): int {
    Total(Left(rows, t, cap))
  }

  function Attempts(rows: Table): map<AlertId, int> {
    map id | id in rows :: rows[id].publishAttempts as int
  }

  /** One batch: `ok` of the fetched alerts were published, the rest failed. */
  function BatchRows(rows: Table, batch: set<AlertId>, ok: set<AlertId>, now: Time, error: string): Table {
    MarkFailed(MarkPublished(rows, ok, now), batch - ok, error)
  }

  lemma BatchRow(rows: Table, t: AlertType, cap: nat, batch: set<AlertId>, ok: set<AlertId>, now: Time,
                 error: string, id: AlertId)
    requires batch <= Eligible(rows, t, cap) && ok <= batch && id in rows
    ensures var rows' := BatchRows(rows, batch, ok, now, error);
            && id in rows'
            && rows'[id].alertType == rows[id].alertType && rows'[id].alertDate == rows[id].alertDate
            && rows'[id].itemId == rows[id].itemId
            && (id !in batch ==> rows'[id] == rows[id])
            && (id in batch ==> rows'[id].publishAttempts == rows[id].publishAttempts + 1
                                && rows'[id].publishedAt == (if id in ok then Some(now) else None)
                                && rows'[id].lastError == (if id in ok then None else Some(error)))
  {
  }

  lemma BatchLowersPotential(rows: Table, t: AlertType, cap: nat, batch: set<AlertId>, ok: set<AlertId>, now: Time,
                             error: string)
    requires batch <= Eligible(rows, t, cap) && ok <= batch
    ensures var rows' := BatchRows(rows, batch, ok, now, error);
            && Potential(rows', t, cap) <= Potential(rows, t, cap) - |batch|
            && Eligible(rows', t, cap) <= Eligible(rows, t, cap)
            && Total(Attempts(rows')) == Total(Attempts(rows)) + |batch|
  {
    var rows' := BatchRows(rows, batch, ok, now, error);
    forall id | id in rows ensures Left(rows', t, cap)[id] <= Left(rows, t, cap)[id] - (if id in batch then 1 else 0) {
      BatchRow(rows, t, cap, batch, ok, now, error, id);
    }
    TotalDrops(Left(rows, t, cap), Left(rows', t, cap), batch);
    forall id | id in rows ensures Attempts(rows)[id] == Attempts(rows')[id] - (if id in batch then 1 else 0) {
      BatchRow(rows, t, cap, batch, ok, now, error, id);
    }
    TotalLowered(Attempts(rows'), Attempts(rows), batch);
    forall id | id in Eligible(rows', t, cap) ensures id in Eligible(rows, t, cap) {
      BatchRow(rows, t, cap, batch, ok, now, error, id);
    }
  }

  /** A fetch is full, or takes everything eligible; what it leaves comes later by (alert_date, id). */
  lemma FetchSize(rows: Table, t: AlertType, limit: nat, cap: nat, batch: set<AlertId>)
    requires IsFetch(rows, t, limit, cap, batch)
    ensures batch <= Eligible(rows, t, cap) && |batch| <= limit
    ensures |batch| == limit || batch == Eligible(rows, t, cap)
    ensures forall id | id in rows ::
              id in Eligible(rows, t, cap) <==>
              rows[id].alertType == t && rows[id].publishedAt == None && rows[id].publishAttempts < cap
    ensures forall id, c | id in Eligible(rows, t, cap) && id !in batch && c in batch ::
              rows[c].alertDate < rows[id].alertDate || (rows[c].alertDate == rows[id].alertDate && c < id)
  {
    forall id, c | id in Eligible(rows, t, cap) && id !in batch && c in batch
      ensures rows[c].alertDate < rows[id].alertDate || (rows[c].alertDate == rows[id].alertDate && c < id)
    {
      assert EarlierFirst(rows)(c, id);
    }
    if batch != Eligible(rows, t, cap) {
      var id :| id in Eligible(rows, t, cap) && id !in batch;
    }
  }

  // ---- A number of batches ----------------------------------------------------

  function PublishedOf(rows: Table, t: AlertType): set<AlertId> {
    set id | id in rows && rows[id].alertType == t && rows[id].publishedAt.Some?
  }

  /** The outcome of every publish, by batch number and alert, and the marking transaction's inputs. */
  datatype Environment = Environment(publishOk: (nat, AlertId) -> bool, now: nat -> Time, error: nat -> string)

  function Accepted(batch: set<AlertId>, env: Environment, n: nat): (ok: set<AlertId>)
    ensures ok <= batch
  {
    set id | id in batch && env.publishOk(n, id)
  }

  predicate Finished(rows: Table, t: AlertType, cap: nat) {
    forall id | id in rows && rows[id].alertType == t :: rows[id].publishedAt.Some? || rows[id].publishAttempts >= cap
  }

  predicate OtherTypesUntouched(before: Table, rows: Table, t: AlertType) {
    && rows.Keys == before.Keys
    && forall id | id in before :: rows[id].alertType == before[id].alertType
                                   && (before[id].alertType != t ==> rows[id] == before[id])
  }

  lemma BatchPublishes(before: Table, rows: Table, t: AlertType, cap: nat, batch: set<AlertId>, ok: set<AlertId>,
                       now: Time, error: string)
    requires batch <= Eligible(rows, t, cap) && ok <= batch
    requires OtherTypesUntouched(before, rows, t) && PublishedOf(before, t) <= PublishedOf(rows, t)
    ensures var rows' := BatchRows(rows, batch, ok, now, error);
            && OtherTypesUntouched(before, rows', t)
            && PublishedOf(rows', t) == PublishedOf(rows, t) + ok && PublishedOf(rows, t) !! ok
  {
    var rows' := BatchRows(rows, batch, ok, now, error);
    forall id | id in rows
      ensures id in rows' && rows'[id].alertType == rows[id].alertType
      ensures id !in batch ==> rows'[id] == rows[id]
      ensures id in batch ==> (rows'[id].publishedAt.Some? <==> id in ok)
    {
      BatchRow(rows, t, cap, batch, ok, now, error, id);
    }
  }

  /** Which alerts the batches have published so far, and how many. */
  predicate Tracked(before: Table, rows: Table, t: AlertType, count: nat) {
    && OtherTypesUntouched(before, rows, t) && PublishedOf(before, t) <= PublishedOf(rows, t)
    && count == |PublishedOf(rows, t) - PublishedOf(before, t)|
  }

  lemma TrackedStep(before: Table, rows: Table, t: AlertType, cap: nat, count: nat, batch: set<AlertId>,
                    ok: set<AlertId>, now: Time, error: string)
    requires Tracked(before, rows, t, count) && batch <= Eligible(rows, t, cap) && ok <= batch
    ensures Tracked(before, BatchRows(rows, batch, ok, now, error), t, count + |ok|)
  {
    var rows' := BatchRows(rows, batch, ok, now, error);
    BatchPublishes(before, rows, t, cap, batch, ok, now, error);
    assert PublishedOf(rows', t) - PublishedOf(before, t) == (PublishedOf(rows, t) - PublishedOf(before, t)) + ok;
  }

  lemma NoneEligibleIsFinished(rows: Table, t: AlertType, cap: nat)
    requires Eligible(rows, t, cap) == {}
    ensures Finished(rows, t, cap)
  {
    forall id | id in rows && rows[id].alertType == t
      ensures rows[id].publishedAt.Some? || rows[id].publishAttempts >= cap
    {
      assert id !in Eligible(rows, t, cap);
    }
  }

  lemma EarlierFirstIsTotalOrder(rows: Table)
    ensures TotalPreorder(EarlierFirst(rows)) && Antisymmetric(EarlierFirst(rows))
  {
  }

  lemma FetchExists(rows: Table, t: AlertType, limit: nat, cap: nat)
    ensures exists batch :: IsFetch(rows, t, limit, cap, batch)
  {
    EarlierFirstIsTotalOrder(rows);
    var some := OldestExists(Eligible(rows, t, cap), EarlierFirst(rows), limit);
    assert IsFetch(rows, t, limit, cap, some);
  }

  /** What the SELECT of a batch returns; the order has no ties, so there is exactly one answer. */
  ghost function Fetched(rows: Table, t: AlertType, limit: nat, cap: nat): (batch: set<AlertId>)
    ensures IsFetch(rows, t, limit, cap, batch)
  {
    FetchExists(rows, t, limit, cap);
    var batch :| IsFetch(rows, t, limit, cap, batch);
    batch
  }

  lemma FetchIsUnique(rows: Table, t: AlertType, limit: nat, cap: nat, batch: set<AlertId>)
    requires IsFetch(rows, t, limit, cap, batch)
    ensures batch == Fetched(rows, t, limit, cap)
  {
    EarlierFirstIsTotalOrder(rows);
    OldestUnique(Eligible(rows, t, cap), EarlierFirst(rows), limit, batch, Fetched(rows, t, limit, cap));
  }

  /** Batch number n: fetch, publish, mark. */
  ghost function OneBatch(rows: Table, t: AlertType, limit: nat, cap: nat, env: Environment, n: nat): Table {
    var batch := Fetched(rows, t, limit, cap);
    BatchRows(rows, batch, Accepted(batch, env, n), env.now(n), env.error(n))
  }

  /** The table after batches 1, 2, ..., n; an empty batch changes nothing. */
  ghost function AfterBatches(rows: Table, t: AlertType, limit: nat, cap: nat, env: Environment, n: nat): Table {
    if n == 0 then rows
    else OneBatch(AfterBatches(rows, t, limit, cap, env, n - 1), t, limit, cap, env, n)
  }

  /** No alert comes or goes, and none changes what it is about. */
  predicate SameAlerts(before: Table, rows: Table) {
    && rows.Keys == before.Keys
    && forall id | id in before :: rows[id].itemId == before[id].itemId
         && rows[id].alertType == before[id].alertType && rows[id].alertDate == before[id].alertDate
  }

  lemma BatchKeepsAlerts(rows: Table, t: AlertType, cap: nat, batch: set<AlertId>, ok: set<AlertId>, now: Time,
                         error: string)
    requires batch <= Eligible(rows, t, cap) && ok <= batch
    ensures SameAlerts(rows, BatchRows(rows, batch, ok, now, error))
  {
    forall id | id in rows
      ensures id in BatchRows(rows, batch, ok, now, error)
      ensures BatchRows(rows, batch, ok, now, error)[id].itemId == rows[id].itemId
      ensures BatchRows(rows, batch, ok, now, error)[id].alertType == rows[id].alertType
      ensures BatchRows(rows, batch, ok, now, error)[id].alertDate == rows[id].alertDate
    {
      BatchRow(rows, t, cap, batch, ok, now, error, id);
    }
  }

  /** An empty fetch ends the loop: no later batch would have found anything either. */
  lemma {:induction false} EmptyFetchIsLast(rows: Table, t: AlertType, limit: nat, cap: nat, env: Environment,
                                            n: nat, m: nat)
    requires n <= m && Fetched(AfterBatches(rows, t, limit, cap, env, n), t, limit, cap) == {}
    ensures AfterBatches(rows, t, limit, cap, env, m) == AfterBatches(rows, t, limit, cap, env, n)
    decreases m
  {
    hide OneBatch, Fetched, IsFetch;
    if n == m {
    } else {
      EmptyFetchIsLast(rows, t, limit, cap, env, n, m - 1);
      EmptyBatch(AfterBatches(rows, t, limit, cap, env, m - 1), t, limit, cap, env, m);
    }
  }

  lemma EmptyBatch(rows: Table, t: AlertType, limit: nat, cap: nat, env: Environment, n: nat)
    requires Fetched(rows, t, limit, cap) == {}
    ensures OneBatch(rows, t, limit, cap, env, n) == rows
  {
    hide Fetched, IsFetch;
    assert Accepted({}, env, n) == {};
    NothingMarked(rows, env.now(n), env.error(n));
  }

  lemma NothingMarked(rows: Table, now: Time, error: string)
    ensures BatchRows(rows, {}, {}, now, error) == rows
  {
    assert MarkPublished(rows, {}, now) == rows;
    assert MarkFailed(rows, {} - {}, error) == rows;
  }

  /** What n batches do to the table as a whole. */
  lemma {:induction false} BatchesFacts(rows: Table, t: AlertType, limit: nat, cap: nat, env: Environment, n: nat)
    ensures var rows' := AfterBatches(rows, t, limit, cap, env, n);
            && SameAlerts(rows, rows') && OtherTypesUntouched(rows, rows', t)
            && Eligible(rows', t, cap) <= Eligible(rows, t, cap)
            && Total(Attempts(rows')) <= Total(Attempts(rows)) + limit * n
  {
    hide OneBatch, Eligible, Attempts, SameAlerts, OtherTypesUntouched, Fetched, Total;
    if n == 0 {
      SameAsItself(rows, t);
    } else {
      BatchesFacts(rows, t, limit, cap, env, n - 1);
      var mid := AfterBatches(rows, t, limit, cap, env, n - 1);
      BatchFacts(mid, t, limit, cap, env, n);
      SameComposes(rows, mid, OneBatch(mid, t, limit, cap, env, n), t);
      Distributes(limit, n - 1);
    }
  }

  lemma SameAsItself(rows: Table, t: AlertType)
    ensures SameAlerts(rows, rows) && OtherTypesUntouched(rows, rows, t)
  {
  }

  lemma SameComposes(a: Table, b: Table, c: Table, t: AlertType)
    requires SameAlerts(a, b) && SameAlerts(b, c) && OtherTypesUntouched(a, b, t) && OtherTypesUntouched(b, c, t)
    ensures SameAlerts(a, c) && OtherTypesUntouched(a, c, t)
  {
  }

  lemma BatchFacts(rows: Table, t: AlertType, limit: nat, cap: nat, env: Environment, n: nat)
    ensures var rows' := OneBatch(rows, t, limit, cap, env, n);
            && SameAlerts(rows, rows') && OtherTypesUntouched(rows, rows', t)
            && Eligible(rows', t, cap) <= Eligible(rows, t, cap)
            && Total(Attempts(rows')) <= Total(Attempts(rows)) + limit
  {
    var batch := Fetched(rows, t, limit, cap);
    var ok := Accepted(batch, env, n);
    FetchSize(rows, t, limit, cap, batch);
    BatchKeepsAlerts(rows, t, cap, batch, ok, env.now(n), env.error(n));
    BatchLowersPotential(rows, t, cap, batch, ok, env.now(n), env.error(n));
    BatchPublishes(rows, rows, t, cap, batch, ok, env.now(n), env.error(n));
  }

  /** An alert is published in a run of batches only by a publish that was accepted, at that batch's time. */
  lemma {:induction false} PublishedWereAccepted(rows: Table, t: AlertType, limit: nat, cap: nat, env: Environment,
                                                 n: nat, id: AlertId)
    requires id in rows && rows[id].publishedAt.None?
    ensures id in AfterBatches(rows, t, limit, cap, env, n)
    ensures AfterBatches(rows, t, limit, cap, env, n)[id].publishedAt.Some? ==>
              exists k :: 1 <= k <= n && env.publishOk(k, id)
                          && AfterBatches(rows, t, limit, cap, env, n)[id].publishedAt == Some(env.now(k))
  {
    hide OneBatch;
    if n == 0 {
    } else {
      PublishedWereAccepted(rows, t, limit, cap, env, n - 1, id);
      BatchPublishesOne(AfterBatches(rows, t, limit, cap, env, n - 1), t, limit, cap, env, n, id);
    }
  }

  lemma BatchPublishesOne(rows: Table, t: AlertType, limit: nat, cap: nat, env: Environment, n: nat, id: AlertId)
    requires id in rows
    ensures id in OneBatch(rows, t, limit, cap, env, n)
    ensures OneBatch(rows, t, limit, cap, env, n)[id].publishedAt ==
              if id in Fetched(rows, t, limit, cap) && env.publishOk(n, id) then Some(env.now(n))
              else rows[id].publishedAt
  {
    FetchSize(rows, t, limit, cap, Fetched(rows, t, limit, cap));
  }
}
