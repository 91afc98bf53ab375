/** Registering expiry alerts, and the job that registers and then publishes them. */
module ExpiryRegistration {
  import opened Prelude
  import opened Selection
  import opened ExpiryBatches
  import opened ExpiryCapacity
  import opened ExpiryJob

  datatype Item = Item(expiryDate: Option<Date>, createdAt: Time)

  type Items = map<ItemId, Item>

  predicate Candidate(item: Item, t: AlertType, today: Date, days: nat) {
    item.expiryDate.Some? &&
    match t
    case Expired => item.expiryDate.value < today
    case ExpiringSoon => today <= item.expiryDate.value <= today + days
  }

  function Candidates(items: Items, t: AlertType, today: Date, days: nat): set<ItemId> {
    set i | i in items && Candidate(items[i], t, today, days)
  }

  /** ORDER BY expiry_date ASC, created_at ASC; further ties in any order. */
  function SoonestFirst(items: Items): (ItemId, ItemId) -> bool {
    (a: ItemId, b: ItemId) =>
      if a in items && b in items && items[a].expiryDate.Some? && items[b].expiryDate.Some? then
        var x, y := items[a].expiryDate.value, items[b].expiryDate.value;
        x < y || (x == y && items[a].createdAt <= items[b].createdAt)
      else (a in items && items[a].expiryDate.Some?) || !(b in items && items[b].expiryDate.Some?)
  }

  predicate IsPick(items: Items, t: AlertType, today: Date, days: nat, limit: nat, picked: set<ItemId>) {
    IsOldest(Candidates(items, t, today, days), SoonestFirst(items), limit, picked)
  }

  /** The item expires within the days ahead, or has expired already. */
  predicate InRange(date: Option<Date>, t: AlertType, today: Date, days: nat) {
    date.Some? && if t == Expired then date.value < today else today <= date.value && date.value <= today + days
  }

  /** A registration picks only items in its range, up to the limit; what it leaves expires no earlier. */
  lemma PickFacts(items: Items, t: AlertType, today: Date, days: nat, limit: nat, picked: set<ItemId>)
    requires IsPick(items, t, today, days, limit, picked)
    ensures |picked| <= limit && picked <= items.Keys
    ensures forall i | i in picked :: InRange(items[i].expiryDate, t, today, days)
    ensures forall i | i in items && i !in picked && InRange(items[i].expiryDate, t, today, days) ::
              |picked| == limit && forall p | p in picked ::
                items[p].expiryDate.value < items[i].expiryDate.value
                || (items[p].expiryDate == items[i].expiryDate && items[p].createdAt <= items[i].createdAt)
  {
    assert picked <= Candidates(items, t, today, days);
    forall i | i in items && i !in picked && InRange(items[i].expiryDate, t, today, days)
      ensures |picked| == limit && forall p | p in picked ::
                items[p].expiryDate.value < items[i].expiryDate.value
                || (items[p].expiryDate == items[i].expiryDate && items[p].createdAt <= items[i].createdAt)
    {
      assert i in Candidates(items, t, today, days);
      assert forall p | p in picked :: SoonestFirst(items)(p, i);
    }
  }

  predicate HasAlert(rows: Table, item: ItemId, t: AlertType, day: Date) {
    exists id | id in rows :: rows[id].itemId == item && rows[id].alertType == t && rows[id].alertDate == day
  }

  /** Unique constraint uq_item_alert_once_per_day. */
  predicate UniqueAlerts(rows: Table) {
    forall a, b | a in rows && b in rows && rows[a].itemId == rows[b].itemId && rows[a].alertType == rows[b].alertType
                  && rows[a].alertDate == rows[b].alertDate :: a == b
  }

  predicate FreshIds(rows: Table, ids: seq<AlertId>) {
    Distinct(ids) && forall i | 0 <= i < |ids| :: ids[i] !in rows
  }

  /** One row of INSERT ... ON CONFLICT DO NOTHING. */
  function InsertAlert(rows: Table, item: ItemId, id: AlertId, t: AlertType, day: Date): Table {
    if HasAlert(rows, item, t, day) then rows else rows[id := Alert(item, t, day, None, 0, None)]
  }

  /** One alert per item, in order. */
  function InsertAlerts(rows: Table, items: seq<ItemId>, ids: seq<AlertId>, t: AlertType, day: Date): Table
    requires |ids| == |items|
    decreases |items|
  {
    if items == [] then rows
    else InsertAlerts(InsertAlert(rows, items[0], ids[0], t, day), items[1..], ids[1..], t, day)
  }

  lemma HasAlertStays(rows: Table, rows': Table, item: ItemId, t: AlertType, day: Date)
    requires HasAlert(rows, item, t, day) && forall id | id in rows :: id in rows' && rows'[id] == rows[id]
    ensures HasAlert(rows', item, t, day)
  {
    var id :| id in rows && rows[id].itemId == item && rows[id].alertType == t && rows[id].alertDate == day;
    assert rows'[id] == rows[id];
  }

  lemma InsertAlertFacts(rows: Table, item: ItemId, id: AlertId, t: AlertType, day: Date)
    requires UniqueAlerts(rows) && id !in rows
    ensures var rows' := InsertAlert(rows, item, id, t, day);
            && UniqueAlerts(rows') && HasAlert(rows', item, t, day)
            && rows'.Keys <= rows.Keys + {id}
            && (forall k | k in rows :: k in rows' && rows'[k] == rows[k])
            && (id in rows' ==> rows'[id] == Alert(item, t, day, None, 0, None) && !HasAlert(rows, item, t, day))
  {
    var rows' := InsertAlert(rows, item, id, t, day);
    if !HasAlert(rows, item, t, day) {
      assert rows'[id].itemId == item && rows'[id].alertType == t && rows'[id].alertDate == day;
    }
  }

  /** An alert that came new with a registration. */
  predicate NewAlert(rows: Table, a: Alert, items: seq<ItemId>, t: AlertType, day: Date) {
    && a.itemId in items && a.alertType == t && a.alertDate == day
    && a.publishedAt == None && a.publishAttempts == 0 && !HasAlert(rows, a.itemId, t, day)
  }

  /** Old alerts stay as they are, each item ends up with its one alert for the day, and nothing else appears. */
  lemma {:induction false} InsertFacts(rows: Table, items: seq<ItemId>, ids: seq<AlertId>, t: AlertType, day: Date)
    requires |ids| == |items| && FreshIds(rows, ids) && UniqueAlerts(rows)
    ensures var rows' := InsertAlerts(rows, items, ids, t, day);
            && UniqueAlerts(rows')
            && (forall id | id in rows :: id in rows' && rows'[id] == rows[id])
            && (forall i | i in items :: HasAlert(rows', i, t, day))
            && (forall id | id in rows' && id !in rows :: id in ids && NewAlert(rows, rows'[id], items, t, day))
    decreases |items|
  {
    if items == [] {
    } else {
      var mid := InsertAlert(rows, items[0], ids[0], t, day);
      InsertAlertFacts(rows, items[0], ids[0], t, day);
      assert FreshIds(mid, ids[1..]);
      InsertFacts(mid, items[1..], ids[1..], t, day);
      var rows' := InsertAlerts(rows, items, ids, t, day);
      assert items == [items[0]] + items[1..] && ids == [ids[0]] + ids[1..];
      HasAlertStays(mid, rows', items[0], t, day);
      forall id | id in rows' && id !in rows ensures id in ids && NewAlert(rows, rows'[id], items, t, day) {
        if id !in mid && HasAlert(rows, rows'[id].itemId, t, day) {
          HasAlertStays(rows, mid, rows'[id].itemId, t, day);
        }
      }
    }
  }

  /** A second registration of the same items on the same day inserts nothing. */
  lemma {:induction false} InsertAgainIsNoOp(rows: Table, items: seq<ItemId>, ids: seq<AlertId>, t: AlertType,
                                             day: Date)
    requires |ids| == |items| && forall i | i in items :: HasAlert(rows, i, t, day)
    ensures InsertAlerts(rows, items, ids, t, day) == rows
    decreases |items|
  {
    if items == [] {
    } else {
      assert items[0] in items;
      InsertAgainIsNoOp(rows, items[1..], ids[1..], t, day);
    }
  }

  /** What one call of register_expiry_alerts is given: the items it picked and the ids it drew. */
  datatype Registration = Registration(items: seq<ItemId>, ids: seq<AlertId>)

  ghost predicate ValidRegistration(rows: Table, items: Items, t: AlertType, today: Date, days: nat, limit: nat,
                                    r: Registration)
  {
    && |r.ids| == |r.items| && FreshIds(rows, r.ids)
    && IsPick(items, t, today, days, limit, set i | i in r.items)
  }

  /** register_expiry_alerts: returns the ids of the alerts that are new. */
  method RegisterExpiryAlerts(table: AlertTable, t: AlertType, today: Date, r: Registration)
      returns (registered: set<AlertId>)
    requires |r.ids| == |r.items| && FreshIds(table.rows, r.ids) && UniqueAlerts(table.rows)
    modifies table
    ensures table.rows == InsertAlerts(old(table.rows), r.items, r.ids, t, today)
    ensures registered == table.rows.Keys - old(table.rows).Keys
    ensures UniqueAlerts(table.rows) && forall i | i in r.items :: HasAlert(table.rows, i, t, today)
  {
    InsertFacts(table.rows, r.items, r.ids, t, today);
    var before := table.rows;
    table.rows := InsertAlerts(table.rows, r.items, r.ids, t, today);
    registered := table.rows.Keys - before.Keys;
  }

  lemma UntouchedCapacity(before: Table, rows: Table, t: AlertType, u: AlertType, limit: nat, cap: nat)
    requires OtherTypesUntouched(before, rows, t) && t != u
    ensures WithinCapacity(before, u, limit, cap) ==> WithinCapacity(rows, u, limit, cap)
    ensures Finished(before, u, cap) ==> Finished(rows, u, cap)
  {
    assert Eligible(rows, u, cap) == Eligible(before, u, cap);
  }

  /** The alerts expiring soon are published first, then the expired ones. */
  ghost function AfterBoth(rows: Table, limit: nat, env1: Environment, env2: Environment): Table {
    AfterBatches(AfterBatches(rows, ExpiringSoon, limit, MAX_ATTEMPTS, env1, MAX_BATCHES), Expired, limit, MAX_ATTEMPTS,
                 env2, MAX_BATCHES)
  }

  /** The table between registering and publishing. */
  function Registered(rows: Table, today: Date, expiring: Registration, expired: Registration): Table
    requires |expiring.ids| == |expiring.items| && |expired.ids| == |expired.items|
  {
    InsertAlerts(InsertAlerts(rows, expiring.items, expiring.ids, ExpiringSoon, today), expired.items, expired.ids,
                 Expired, today)
  }

  /** Every picked item has its alert of the day before the job starts. */
  predicate AlreadyAlerted(rows: Table, today: Date, expiring: Registration, expired: Registration) {
    && (forall i | i in expiring.items :: HasAlert(rows, i, ExpiringSoon, today))
    && (forall i | i in expired.items :: HasAlert(rows, i, Expired, today))
  }

  /** The table a run of the job leaves. */
  ghost function JobRows(rows: Table, today: Date, limit: nat, expiring: Registration, expired: Registration,
                         env1: Environment, env2: Environment): Table
    requires |expiring.ids| == |expiring.items| && |expired.ids| == |expired.items|
  {
    if AlreadyAlerted(rows, today, expiring, expired) then rows
    else AfterBoth(Registered(rows, today, expiring, expired), limit, env1, env2)
  }

  /** run_inventory_expiry_job: register both types, stop if nothing is new, else publish both. */
  method RunInventoryExpiryJob(table: AlertTable, items: Items, today: Date, days: nat, limit: nat,
                               expiring: Registration, expired: Registration, env1: Environment, env2: Environment)
      returns (registered: set<AlertId>)
    requires UniqueAlerts(table.rows)
    requires ValidRegistration(table.rows, items, ExpiringSoon, today, days, limit, expiring)
    requires ValidRegistration(table.rows, items, Expired, today, days, limit, expired)
    requires Distinct(expiring.ids + expired.ids)
    modifies table
    ensures registered == Registered(old(table.rows), today, expiring, expired).Keys - old(table.rows).Keys
    // Nothing is new exactly when every picked item was alerted today; then the job returns before publishing.
    ensures registered == {} <==> AlreadyAlerted(old(table.rows), today, expiring, expired)
    ensures table.rows == JobRows(old(table.rows), today, limit, expiring, expired, env1, env2)
    ensures table.rows.Keys == old(table.rows).Keys + registered
    // Otherwise both kinds are brought to an end, within capacity.
    ensures var mid := Registered(old(table.rows), today, expiring, expired);
            forall t | registered != {} && WithinCapacity(mid, t, limit, MAX_ATTEMPTS) ::
              Finished(table.rows, t, MAX_ATTEMPTS)
  {
    hide IsPick, IsOldest, Distinct, UniqueAlerts, FreshIds, HasAlert, InsertAlerts, AlreadyAlerted, AfterBoth;
    hide WithinCapacity, Finished;
    ghost var before := table.rows;
    NewUnlessAlerted(before, today, expiring, expired);
    var first := RegisterExpiryAlerts(table, ExpiringSoon, today, expiring);
    var second := RegisterExpiryAlerts(table, Expired, today, expired);
    registered := first + second;
    assert registered == table.rows.Keys - before.Keys;
    if first == {} && second == {} {
      return;
    }
    PublishBoth(table, limit, env1, env2);
  }

  /** The second half of the job. */
  method PublishBoth(table: AlertTable, limit: nat, env1: Environment, env2: Environment)
    modifies table
    ensures table.rows == AfterBoth(old(table.rows), limit, env1, env2)
    ensures table.rows.Keys == old(table.rows).Keys
    ensures forall t | WithinCapacity(old(table.rows), t, limit, MAX_ATTEMPTS) :: Finished(table.rows, t, MAX_ATTEMPTS)
  {
    hide Attempts, Finished, WithinCapacity;
    var n := table.PublishAndMark(ExpiringSoon, limit, MAX_ATTEMPTS, env1);
    n := table.PublishAndMark(Expired, limit, MAX_ATTEMPTS, env2);
    forall t | WithinCapacity(old(table.rows), t, limit, MAX_ATTEMPTS) ensures Finished(table.rows, t, MAX_ATTEMPTS) {
      BothFinish(old(table.rows), limit, env1, env2, t);
    }
  }

  /** Publishing one kind does not cost the other its completeness, in either order. */
  lemma BothFinish(rows: Table, limit: nat, env1: Environment, env2: Environment, t: AlertType)
    requires WithinCapacity(rows, t, limit, MAX_ATTEMPTS)
    ensures Finished(AfterBoth(rows, limit, env1, env2), t, MAX_ATTEMPTS)
  {
    hide AfterBatches, WithinCapacity, Finished, OtherTypesUntouched, SameAlerts, Eligible, Attempts;
    var half := AfterBatches(rows, ExpiringSoon, limit, MAX_ATTEMPTS, env1, MAX_BATCHES);
    BatchesFacts(rows, ExpiringSoon, limit, MAX_ATTEMPTS, env1, MAX_BATCHES);
    BatchesFacts(half, Expired, limit, MAX_ATTEMPTS, env2, MAX_BATCHES);
    if t == ExpiringSoon {
      CapacitySuffices(rows, t, limit, MAX_ATTEMPTS, env1);
      UntouchedCapacity(half, AfterBoth(rows, limit, env1, env2), Expired, t, limit, MAX_ATTEMPTS);
    } else {
      UntouchedCapacity(rows, half, ExpiringSoon, t, limit, MAX_ATTEMPTS);
      CapacitySuffices(half, t, limit, MAX_ATTEMPTS, env2);
    }
  }

  lemma SecondIdsFresh(before: Table, rows: Table, first: seq<AlertId>, second: seq<AlertId>)
    requires FreshIds(before, second) && Distinct(first + second)
    requires forall id | id in rows && id !in before :: id in first
    ensures FreshIds(rows, second)
  {
    forall i | 0 <= i < |second| ensures second[i] !in first {
      assert (first + second)[|first| + i] == second[i];
      assert forall j | 0 <= j < |first| :: (first + second)[j] == first[j];
    }
  }

  lemma NothingNew(before: Table, between: Table, mid: Table)
    requires forall id | id in before :: id in between && between[id] == before[id]
    requires forall id | id in between :: id in mid && mid[id] == between[id]
    ensures (between.Keys - before.Keys) + (mid.Keys - between.Keys) == mid.Keys - before.Keys
    ensures mid.Keys - before.Keys == {} ==> mid == before
  {
    if mid.Keys - before.Keys == {} {
      forall id | id in mid ensures id in before {
        assert id !in mid.Keys - before.Keys;
      }
    }
  }

  /** A rerun on the same day that picks the same items registers nothing, whatever ids it draws. */
  lemma RerunRegistersNothing(rows: Table, expiring: Registration, expired: Registration, today: Date)
    requires |expiring.ids| == |expiring.items| && |expired.ids| == |expired.items|
    requires AlreadyAlerted(rows, today, expiring, expired)
    ensures Registered(rows, today, expiring, expired) == rows
  {
    InsertAgainIsNoOp(rows, expiring.items, expiring.ids, ExpiringSoon, today);
    InsertAgainIsNoOp(rows, expired.items, expired.ids, Expired, today);
  }

  /** Nothing is registered if and only if every picked item has its alert of the day. */
  lemma NewUnlessAlerted(rows: Table, today: Date, expiring: Registration, expired: Registration)
    requires |expiring.ids| == |expiring.items| && |expired.ids| == |expired.items| && UniqueAlerts(rows)
    requires FreshIds(rows, expiring.ids) && FreshIds(rows, expired.ids) && Distinct(expiring.ids + expired.ids)
    ensures var mid := InsertAlerts(rows, expiring.items, expiring.ids, ExpiringSoon, today);
            var rows' := Registered(rows, today, expiring, expired);
            && FreshIds(mid, expired.ids) && UniqueAlerts(mid) && rows.Keys <= mid.Keys <= rows'.Keys
            && (rows'.Keys - rows.Keys == {} <==> AlreadyAlerted(rows, today, expiring, expired))
            && (rows'.Keys - rows.Keys == {} ==> rows' == rows)
  {
    hide UniqueAlerts, HasAlert, NewAlert, InsertAlerts, Distinct, FreshIds;
    var mid := InsertAlerts(rows, expiring.items, expiring.ids, ExpiringSoon, today);
    var rows' := Registered(rows, today, expiring, expired);
    InsertFacts(rows, expiring.items, expiring.ids, ExpiringSoon, today);
    SecondIdsFresh(rows, mid, expiring.ids, expired.ids);
    InsertFacts(mid, expired.items, expired.ids, Expired, today);
    if AlreadyAlerted(rows, today, expiring, expired) {
      RerunRegistersNothing(rows, expiring, expired, today);
    }
    if rows'.Keys - rows.Keys == {} {
      NothingNew(rows, mid, rows');
      assert mid.Keys == rows.Keys;
      assert mid == rows;
    }
  }

  /**
   Within capacity a run of the job finishes the alerts of a kind if and only if something new was registered
   or they were finished before: completeness is per publishing run, not per day.
   */
  lemma JobFinishesIff(rows: Table, today: Date, limit: nat, expiring: Registration, expired: Registration,
                       env1: Environment, env2: Environment, t: AlertType)
    requires |expiring.ids| == |expiring.items| && |expired.ids| == |expired.items|
    requires WithinCapacity(Registered(rows, today, expiring, expired), t, limit, MAX_ATTEMPTS)
    ensures Finished(JobRows(rows, today, limit, expiring, expired, env1, env2), t, MAX_ATTEMPTS) <==>
              !AlreadyAlerted(rows, today, expiring, expired) || Finished(rows, t, MAX_ATTEMPTS)
  {
    hide WithinCapacity, Finished, AlreadyAlerted;
    BothFinish(Registered(rows, today, expiring, expired), limit, env1, env2, t);
  }

  lemma FirstAlert()
    ensures var rows := Registered(map[], 0, Registration([0], [0]), Registration([], []));
            rows == map[0 := Alert(0, ExpiringSoon, 0, None, 0, None)] && HasAlert(rows, 0, ExpiringSoon, 0)
  {
    var rows := InsertAlert(map[], 0, 0, ExpiringSoon, 0);
    assert !HasAlert(map[], 0, ExpiringSoon, 0);
    assert InsertAlerts(map[], [0], [0], ExpiringSoon, 0) == InsertAlerts(rows, [], [], ExpiringSoon, 0) == rows;
    assert rows[0].itemId == 0 && rows[0].alertType == ExpiringSoon && rows[0].alertDate == 0;
  }

  lemma PicksAll(items: Items, t: AlertType, today: Date, days: nat, limit: nat, picked: set<ItemId>)
    requires picked == Candidates(items, t, today, days) && |picked| <= limit
    ensures IsPick(items, t, today, days, limit, picked)
  {
  }

  lemma OneCandidate(items: Items)
    requires items == map[0 := Item(Some(0), 0)]
    ensures Candidates(items, ExpiringSoon, 0, 7) == {0} && Candidates(items, Expired, 0, 7) == {}
  {
  }

  lemma OnePick(items: Items, r: Registration, none: Registration)
    requires items == map[0 := Item(Some(0), 0)] && r.items == [0] && none.items == []
    ensures IsPick(items, ExpiringSoon, 0, 7, 100, set i | i in r.items)
    ensures IsPick(items, Expired, 0, 7, 100, set i | i in none.items)
  {
    hide IsPick, Candidates;
    OneCandidate(items);
    var picked, nothing := set i | i in r.items, set i | i in none.items;
    assert picked == {0} && nothing == {};
    PicksAll(items, ExpiringSoon, 0, 7, 100, set i | i in r.items);
    PicksAll(items, Expired, 0, 7, 100, set i | i in none.items);
  }

  /** A run that stops between registering and publishing leaves an alert that no rerun of the day publishes. */
  lemma LeftoverWaits(items: Items, first: Registration, again: Registration, nothing: Registration, rows: Table,
                      env1: Environment, env2: Environment)
    requires items == map[0 := Item(Some(0), 0)] && nothing == Registration([], [])
    requires first == Registration([0], [0]) && again == Registration([0], [1])
    requires rows == Registered(map[], 0, first, nothing)
    ensures ValidRegistration(map[], items, ExpiringSoon, 0, 7, 100, first)
    ensures ValidRegistration(rows, items, ExpiringSoon, 0, 7, 100, again)
    ensures ValidRegistration(rows, items, Expired, 0, 7, 100, nothing)
    ensures JobRows(rows, 0, 100, again, nothing, env1, env2) == rows && !Finished(rows, ExpiringSoon, MAX_ATTEMPTS)
  {
    hide IsPick, HasAlert, InsertAlerts, AfterBoth;
    FirstAlert();
    OnePick(items, first, nothing);
    OnePick(items, again, nothing);
    assert !(rows[0].publishedAt.Some? || rows[0].publishAttempts >= MAX_ATTEMPTS);
  }
}
