/** The inventory expiry job's batch loop over the alert table. */
module ExpiryJob {
  import opened Prelude
  import opened Sums
  import opened ExpiryBatches
  import opened ExpiryCapacity

  method SelectForUpdate(rows: Table, t: AlertType, limit: nat, cap: nat) returns (batch: set<AlertId>)
    ensures IsFetch(rows, t, limit, cap, batch)
  {
    FetchExists(rows, t, limit, cap);
    batch :| IsFetch(rows, t, limit, cap, batch);
  }

  /** Every newly published alert had a publish accepted in one of the batches, and bears that batch's time. */
  ghost predicate OnlyAccepted(before: Table, rows: Table, env: Environment) {
    forall id | id in before && id in rows && before[id].publishedAt.None? && rows[id].publishedAt.Some? ::
      exists k :: 1 <= k <= MAX_BATCHES && env.publishOk(k, id) && rows[id].publishedAt == Some(env.now(k))
  }

  class AlertTable {
    var rows: Table

    constructor (rows: Table)
      ensures this.rows == rows
    {
      this.rows := rows;
    }

    method MarkAlertsPublished(ids: set<AlertId>, now: Time) returns (rowcount: nat)
      modifies this
      ensures rows == MarkPublished(old(rows), ids, now)
      ensures forall id | id in old(rows) && old(rows)[id].publishedAt.Some? :: rows[id] == old(rows)[id]
      ensures rowcount == |set id | id in old(rows) && id in ids && old(rows)[id].publishedAt.None?|
    {
      rowcount := |set id | id in rows && id in ids && rows[id].publishedAt.None?|;
      rows := MarkPublished(rows, ids, now);
    }

    method MarkAlertsFailed(ids: set<AlertId>, error: string) returns (rowcount: nat)
      modifies this
      ensures rows == MarkFailed(old(rows), ids, error)
      ensures forall id | id in old(rows) && old(rows)[id].publishedAt.Some? :: rows[id] == old(rows)[id]
      ensures rowcount == |set id | id in old(rows) && id in ids && old(rows)[id].publishedAt.None?|
    {
      rowcount := |set id | id in rows && id in ids && rows[id].publishedAt.None?|;
      rows := MarkFailed(rows, ids, error);
    }

    /** The marking transaction of one batch. */
    method MarkResults(batch: set<AlertId>, publishedIds: set<AlertId>, now: Time, error: string)
      modifies this
      ensures rows == BatchRows(old(rows), batch, publishedIds, now, error)
    {
      var rowcount := MarkAlertsPublished(publishedIds, now);
      rowcount := MarkAlertsFailed(batch - publishedIds, error);
    }

    /** The loop body: fetch, publish, mark; `more` is false when the fetch came back empty. */
    method PublishBatch(t: AlertType, limit: nat, cap: nat, env: Environment, n: nat)
        returns (more: bool, published: nat)
      modifies this
      ensures rows == OneBatch(old(rows), t, limit, cap, env, n)
      ensures more <==> Fetched(old(rows), t, limit, cap) != {}
      ensures published == |Accepted(Fetched(old(rows), t, limit, cap), env, n)|
    {
      hide IsFetch, BatchRows;
      var batch := SelectForUpdate(rows, t, limit, cap);
      FetchIsUnique(rows, t, limit, cap, batch);
      if batch == {} {
        EmptyBatch(rows, t, limit, cap, env, n);
        assert Accepted({}, env, n) == {};
        return false, 0;
      }
      var publishedIds := Accepted(batch, env, n);
      MarkResults(batch, publishedIds, env.now(n), env.error(n));
      more, published := true, |publishedIds|;
    }

    /** _publish_and_mark, with no other writer. */
    method PublishAndMark(t: AlertType, limit: nat, cap: nat, env: Environment) returns (publishedCount: nat)
      modifies this
      // The table is what a hundred batches make of it, whether or not the loop stopped early.
      ensures rows == AfterBatches(old(rows), t, limit, cap, env, MAX_BATCHES)
      // Complete within capacity, whatever publishes fail.
      ensures WithinCapacity(old(rows), t, limit, cap) ==> Finished(rows, t, cap)
      // The count is exact: the alerts that were not published before and are now; each publish was accepted.
      ensures Tracked(old(rows), rows, t, publishedCount)
      ensures OnlyAccepted(old(rows), rows, env)
      // The most any run can do.
      ensures Total(Attempts(rows)) <= Total(Attempts(old(rows))) + limit * MAX_BATCHES
    {
      hide *;
      publishedCount := 0;
      var n: nat := 0;
      ghost var before := rows;
      NothingTracked(before, t);
      NoBatches(before, t, limit, cap, env);
      var more := true;
      while more && n < MAX_BATCHES
        invariant n <= MAX_BATCHES
        invariant rows == AfterBatches(before, t, limit, cap, env, n)
        invariant !more ==> Fetched(rows, t, limit, cap) == {}
        invariant Tracked(before, rows, t, publishedCount)
      {
        var published;
        ghost var last := rows;
        OneMoreBatch(before, t, limit, cap, env, n + 1);
        TrackedBatch(before, last, t, limit, cap, env, n + 1, publishedCount);
        more, published := PublishBatch(t, limit, cap, env, n + 1);
        n := n + 1;
        publishedCount := publishedCount + published;
        if !more { EmptyBatch(last, t, limit, cap, env, n); }
      }
      if !more { EmptyFetchIsLast(before, t, limit, cap, env, n, MAX_BATCHES); }
      RunFacts(before, t, limit, cap, env);
    }
  }

  lemma NoBatches(rows: Table, t: AlertType, limit: nat, cap: nat, env: Environment)
    ensures AfterBatches(rows, t, limit, cap, env, 0) == rows
  {
  }

  lemma OneMoreBatch(rows: Table, t: AlertType, limit: nat, cap: nat, env: Environment, n: nat)
    requires n >= 1
    ensures AfterBatches(rows, t, limit, cap, env, n)
            == OneBatch(AfterBatches(rows, t, limit, cap, env, n - 1), t, limit, cap, env, n)
  {
  }

  lemma NothingTracked(rows: Table, t: AlertType)
    ensures Tracked(rows, rows, t, 0)
  {
    assert PublishedOf(rows, t) - PublishedOf(rows, t) == {};
  }

  lemma TrackedBatch(before: Table, rows: Table, t: AlertType, limit: nat, cap: nat, env: Environment, n: nat,
                     count: nat)
    requires Tracked(before, rows, t, count)
    ensures Tracked(before, OneBatch(rows, t, limit, cap, env, n), t,
                    count + |Accepted(Fetched(rows, t, limit, cap), env, n)|)
  {
    hide Tracked, BatchRows, IsFetch;
    var batch := Fetched(rows, t, limit, cap);
    FetchSize(rows, t, limit, cap, batch);
    TrackedStep(before, rows, t, cap, count, batch, Accepted(batch, env, n), env.now(n), env.error(n));
  }

  /** What holds after all batches of a run. */
  lemma RunFacts(before: Table, t: AlertType, limit: nat, cap: nat, env: Environment)
    ensures var rows := AfterBatches(before, t, limit, cap, env, MAX_BATCHES);
            && (WithinCapacity(before, t, limit, cap) ==> Finished(rows, t, cap))
            && OnlyAccepted(before, rows, env)
            && Total(Attempts(rows)) <= Total(Attempts(before)) + limit * MAX_BATCHES
  {
    var rows := AfterBatches(before, t, limit, cap, env, MAX_BATCHES);
    hide AfterBatches, WithinCapacity, Finished;
    BatchesFacts(before, t, limit, cap, env, MAX_BATCHES);
    if WithinCapacity(before, t, limit, cap) {
      CapacitySuffices(before, t, limit, cap, env);
    }
    forall id | id in before && before[id].publishedAt.None? && id in rows && rows[id].publishedAt.Some?
      ensures exists k :: 1 <= k <= MAX_BATCHES && env.publishOk(k, id) && rows[id].publishedAt == Some(env.now(k))
    {
      PublishedWereAccepted(before, t, limit, cap, env, MAX_BATCHES, id);
    }
  }
}
