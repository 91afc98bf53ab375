/**
 How many alerts one run of the expiry job can bring to an end: exactly those for which
 cap * ceil(n / limit) batches are at most MAX_BATCHES, whatever publishes fail.
 */
module ExpiryCapacity {
  import opened Prelude
  import opened Selection
  import opened ExpiryBatches

  /** ceil(n / limit) */
  function Ceil(n: nat, limit: nat): nat
    requires limit >= 1
  {
    (n + limit - 1) / limit
  }

  /** The batches it takes to fail n alerts cap times each: cap * ceil(n / limit). */
  function BatchesNeeded(n: nat, limit: nat, cap: nat): nat
    requires limit >= 1
  {
    Product(0, Ceil(n, limit), cap);
    cap * Ceil(n, limit)
  }

  /** A hundred batches are enough to fail every alert cap times, limit alerts at a time. */
  predicate WithinCapacity(rows: Table, t: AlertType, limit: nat, cap: nat) {
    || Eligible(rows, t, cap) == {}
    || (limit >= 1 && BatchesNeeded(|Eligible(rows, t, cap)|, limit, cap) <= MAX_BATCHES)
  }

  // ---- Division by the limit ---------------------------------------------------

  lemma DivBounds(i: nat, limit: nat)
    requires limit >= 1
    ensures (i / limit) * limit <= i < (i / limit) * limit + limit
  {
  }

  lemma Product(a: nat, b: nat, c: nat)
    requires a <= b
    ensures a * c <= b * c && c * a <= c * b
  {
  }

  /** Index j lies in block p exactly between p * limit and (p + 1) * limit. */
  lemma BlockOf(j: nat, p: nat, limit: nat)
    requires limit >= 1
    ensures p * limit <= j < p * limit + limit ==> j / limit == p
    ensures j < p * limit ==> j / limit < p
    ensures j >= p * limit ==> j / limit >= p
  {
    var q := j / limit;
    DivBounds(j, limit);
    if q < p {
      Product(q + 1, p, limit);
      assert (q + 1) * limit == q * limit + limit;
    }
    if q > p {
      Product(p + 1, q, limit);
      assert (p + 1) * limit == p * limit + limit;
    }
  }

  /** The block of the last of n alerts is the last of ceil(n / limit). */
  lemma LastBlock(n: nat, limit: nat)
    requires n >= 1 && limit >= 1
    ensures (n - 1) / limit == Ceil(n, limit) - 1
  {
    var q := (n - 1) / limit;
    DivBounds(n - 1, limit);
    assert (q + 1) * limit == q * limit + limit;
    BlockOf(n + limit - 1, q + 1, limit);
  }

  /** The first batch, counted from 0, that may reach alert number i when every publish fails. */
  function Turn(i: nat, limit: nat, cap: nat): (turn: nat)
    requires limit >= 1
  {
    DivBounds(i, limit);
    Product(0, i / limit, cap);
    cap * (i / limit)
  }

  lemma EarlierTurn(j: nat, i: nat, limit: nat, cap: nat)
    requires limit >= 1 && j / limit < i / limit
    ensures Turn(j, limit, cap) + cap <= Turn(i, limit, cap)
  {
    Product(j / limit + 1, i / limit, cap);
    assert cap * (j / limit + 1) == cap * (j / limit) + cap;
  }

  // ---- The alerts in the order of the batches -------------------------------------

  function Elements<K>(s: seq<K>): set<K> {
    set k | k in s
  }

  lemma {:induction false} ElementsSize<K>(s: seq<K>)
    ensures |Elements(s)| <= |s| && (Distinct(s) ==> |Elements(s)| == |s|)
    decreases |s|
  {
    if s == [] {
      assert Elements(s) == {};
    } else {
      var n := |s| - 1;
      var front := s[..n];
      ElementsSize(front);
      assert s == front + [s[n]];
      assert Elements(s) == Elements(front) + {s[n]};
      assert Distinct(s) ==> Distinct(front);
      if Distinct(s) {
        forall i | 0 <= i < n ensures front[i] != s[n] {
          assert s[i] != s[n];
        }
      }
    }
  }

  /** `order` lists the alerts `ids`, each once, by (alert_date, id). */
  predicate InOrder(order: seq<AlertId>, rows: Table, ids: set<AlertId>) {
    && Distinct(order) && Elements(order) == ids && ids <= rows.Keys
    && forall i, j | 0 <= i < j < |order| :: EarlierFirst(rows)(order[i], order[j])
  }

  lemma {:induction false} OrderExists(rows: Table, ids: set<AlertId>) returns (order: seq<AlertId>)
    requires ids <= rows.Keys
    ensures InOrder(order, rows, ids)
    decreases |ids|
  {
    if ids == {} {
      order := [];
    } else {
      EarlierFirstIsTotalOrder(rows);
      var first := HasFirst(ids, EarlierFirst(rows));
      var rest := OrderExists(rows, ids - {first});
      order := [first] + rest;
      OrderCons(rows, ids, first, rest);
    }
  }

  lemma OrderCons(rows: Table, ids: set<AlertId>, first: AlertId, rest: seq<AlertId>)
    requires ids <= rows.Keys && first in ids && InOrder(rest, rows, ids - {first})
    requires forall k | k in ids :: EarlierFirst(rows)(first, k)
    ensures InOrder([first] + rest, rows, ids)
  {
    var order := [first] + rest;
    hide EarlierFirst;
    forall i | 0 <= i < |rest| ensures rest[i] in ids && rest[i] != first {
      assert rest[i] in Elements(rest);
    }
    assert Elements(order) == {first} + Elements(rest);
    forall i, j | 0 <= i < j < |order|
      ensures order[i] != order[j] && EarlierFirst(rows)(order[i], order[j])
    {
      assert order[j] == rest[j - 1];
      if i > 0 { assert order[i] == rest[i - 1]; }
    }
  }

  lemma OrderStays(order: seq<AlertId>, before: Table, rows: Table, ids: set<AlertId>)
    requires InOrder(order, before, ids) && SameAlerts(before, rows)
    ensures InOrder(order, rows, ids)
  {
    forall i, j | 0 <= i < j < |order| ensures EarlierFirst(rows)(order[i], order[j]) {
      assert order[i] in Elements(order) && order[j] in Elements(order);
      assert EarlierFirst(before)(order[i], order[j]);
    }
  }

  lemma NeitherBefore(order: seq<AlertId>, rows: Table, ids: set<AlertId>, i: nat, j: nat)
    requires InOrder(order, rows, ids) && i < j < |order|
    ensures !EarlierFirst(rows)(order[j], order[i])
  {
    EarlierFirstIsTotalOrder(rows);
    assert order[i] != order[j] && EarlierFirst(rows)(order[i], order[j]);
  }

  lemma SliceSize(order: seq<AlertId>, lo: nat, hi: nat)
    requires lo <= hi <= |order| && Distinct(order)
    ensures |Elements(order[lo..hi])| == hi - lo
  {
    var part := order[lo..hi];
    forall i, j | 0 <= i < j < |part| ensures part[i] != part[j] {
      assert order[lo + i] != order[lo + j];
    }
    ElementsSize(part);
  }

  lemma InSlice(order: seq<AlertId>, lo: nat, hi: nat)
    requires lo <= hi <= |order|
    ensures forall x | lo <= x < hi :: order[x] in Elements(order[lo..hi])
  {
    forall x | lo <= x < hi ensures order[x] in Elements(order[lo..hi]) {
      assert order[lo..hi][x - lo] == order[x];
    }
  }

  // ---- Enough batches: every alert's turn comes ------------------------------------

  /** An alert still eligible after `done` batches has been failed in every batch since its block's turn. */
  predicate Served(rows: Table, order: seq<AlertId>, t: AlertType, limit: nat, cap: nat, done: nat)
    requires limit >= 1
  {
    forall i | 0 <= i < |order| && order[i] in Eligible(rows, t, cap) ::
      rows[order[i]].publishAttempts >= done - Turn(i, limit, cap)
  }

  /** A full batch that passes over an alert holds one from an earlier block. */
  lemma EarlierBlockFetched(rows: Table, order: seq<AlertId>, ids: set<AlertId>, limit: nat, batch: set<AlertId>,
                            i: nat) returns (j: nat)
    requires limit >= 1 && InOrder(order, rows, ids) && i < |order|
    requires batch <= ids && |batch| == limit && order[i] !in batch
    requires forall c | c in batch :: EarlierFirst(rows)(c, order[i])
    ensures j < |order| && order[j] in batch && j / limit < i / limit
  {
    var lo := (i / limit) * limit;
    DivBounds(i, limit);
    var c := OutsideSlice(order, rows, ids, lo, i, batch);
    assert EarlierFirst(rows)(c, order[i]);
    hide EarlierFirst;
    j := IndexOf(order, rows, ids, c);
    if j > i {
      NeitherBefore(order, rows, ids, i, j);
    }
    hide InOrder;
    InSlice(order, lo, i);
    BlockOf(j, i / limit, limit);
  }

  /** A batch larger than a slice holds something outside it. */
  lemma OutsideSlice(order: seq<AlertId>, rows: Table, ids: set<AlertId>, lo: nat, hi: nat, batch: set<AlertId>)
      returns (c: AlertId)
    requires InOrder(order, rows, ids) && lo <= hi <= |order| && |batch| > hi - lo
    ensures c in batch && c !in Elements(order[lo..hi])
  {
    SliceSize(order, lo, hi);
    hide InOrder, Elements;
    if batch <= Elements(order[lo..hi]) {
      SubsetSize(batch, Elements(order[lo..hi]));
    }
    c :| c in batch && c !in Elements(order[lo..hi]);
  }

  lemma IndexOf(order: seq<AlertId>, rows: Table, ids: set<AlertId>, c: AlertId) returns (j: nat)
    requires InOrder(order, rows, ids) && c in ids
    ensures j < |order| && order[j] == c
  {
    assert c in Elements(order);
    j :| 0 <= j < |order| && order[j] == c;
  }

  /** An alert passed over by a batch still waits for its turn: its block comes later. */
  lemma PassedOver(rows: Table, order: seq<AlertId>, ids: set<AlertId>, t: AlertType, limit: nat, cap: nat, done: nat,
                   batch: set<AlertId>, i: nat)
    requires limit >= 1 && InOrder(order, rows, ids) && Eligible(rows, t, cap) <= ids
    requires Served(rows, order, t, limit, cap, done) && IsFetch(rows, t, limit, cap, batch)
    requires i < |order| && order[i] in Eligible(rows, t, cap) && order[i] !in batch
    ensures done + 1 <= Turn(i, limit, cap)
  {
    hide Turn;
    FetchSize(rows, t, limit, cap, batch);
    assert forall c | c in batch :: EarlierFirst(rows)(c, order[i]);
    hide InOrder, IsFetch, EarlierFirst;
    var j := EarlierBlockFetched(rows, order, ids, limit, batch, i);
    StillEligible(rows, order, t, limit, cap, done, j);
    hide Served, Eligible;
    EarlierTurn(j, i, limit, cap);
  }

  lemma StillEligible(rows: Table, order: seq<AlertId>, t: AlertType, limit: nat, cap: nat, done: nat, j: nat)
    requires limit >= 1 && Served(rows, order, t, limit, cap, done)
    requires j < |order| && order[j] in Eligible(rows, t, cap)
    ensures done - Turn(j, limit, cap) < cap
  {
  }

  lemma BatchServes(rows: Table, order: seq<AlertId>, ids: set<AlertId>, t: AlertType, limit: nat, cap: nat, done: nat,
                    batch: set<AlertId>, ok: set<AlertId>, now: Time, error: string)
    requires limit >= 1 && InOrder(order, rows, ids) && Eligible(rows, t, cap) <= ids
    requires Served(rows, order, t, limit, cap, done) && IsFetch(rows, t, limit, cap, batch) && ok <= batch
    ensures Served(BatchRows(rows, batch, ok, now, error), order, t, limit, cap, done + 1)
  {
    hide Turn;
    var rows' := BatchRows(rows, batch, ok, now, error);
    FetchSize(rows, t, limit, cap, batch);
    forall i | 0 <= i < |order| && order[i] in Eligible(rows', t, cap)
      ensures rows'[order[i]].publishAttempts >= done + 1 - Turn(i, limit, cap)
    {
      assert order[i] in rows;
      BatchRow(rows, t, cap, batch, ok, now, error, order[i]);
      if order[i] !in batch {
        PassedOver(rows, order, ids, t, limit, cap, done, batch, i);
      }
    }
  }

  lemma {:induction false} BatchesServe(before: Table, order: seq<AlertId>, t: AlertType, limit: nat, cap: nat,
                                        env: Environment, n: nat)
    requires limit >= 1 && InOrder(order, before, Eligible(before, t, cap))
    ensures Served(AfterBatches(before, t, limit, cap, env, n), order, t, limit, cap, n)
  {
    hide Eligible, InOrder, Fetched, BatchRows, IsFetch, Turn;
    if n == 0 {
      ServedAtFirst(before, order, t, limit, cap);
    } else {
      var mid := AfterBatches(before, t, limit, cap, env, n - 1);
      BatchesServe(before, order, t, limit, cap, env, n - 1);
      BatchesFacts(before, t, limit, cap, env, n - 1);
      OrderStays(order, before, mid, Eligible(before, t, cap));
      var batch := Fetched(mid, t, limit, cap);
      BatchServes(mid, order, Eligible(before, t, cap), t, limit, cap, n - 1, batch, Accepted(batch, env, n),
                  env.now(n), env.error(n));
    }
  }

  lemma ServedAtFirst(rows: Table, order: seq<AlertId>, t: AlertType, limit: nat, cap: nat)
    requires limit >= 1
    ensures Served(rows, order, t, limit, cap, 0)
  {
    hide Turn;
  }

  /** Within capacity a hundred batches finish every alert, whatever publishes fail. */
  lemma CapacitySuffices(before: Table, t: AlertType, limit: nat, cap: nat, env: Environment)
    requires WithinCapacity(before, t, limit, cap)
    ensures Finished(AfterBatches(before, t, limit, cap, env, MAX_BATCHES), t, cap)
  {
    var rows := AfterBatches(before, t, limit, cap, env, MAX_BATCHES);
    BatchesFacts(before, t, limit, cap, env, MAX_BATCHES);
    hide AfterBatches, Turn;
    if id :| id in Eligible(rows, t, cap) {
      var ids := Eligible(before, t, cap);
      var order := OrderExists(before, ids);
      BatchesServe(before, order, t, limit, cap, env, MAX_BATCHES);
      ElementsSize(order);
      assert id in Elements(order);
      var i :| 0 <= i < |order| && order[i] == id;
      ServedInTime(|order|, i, limit, cap);
      assert false;
    }
    NoneEligibleIsFinished(rows, t, cap);
  }

  lemma ServedInTime(n: nat, i: nat, limit: nat, cap: nat)
    requires i < n && limit >= 1 && BatchesNeeded(n, limit, cap) <= MAX_BATCHES
    ensures MAX_BATCHES - Turn(i, limit, cap) >= cap
  {
    LastBlock(n, limit);
    NotAfter(i, n - 1, limit);
    hide Ceil;
    Product(i / limit + 1, Ceil(n, limit), cap);
    assert cap * (i / limit + 1) == cap * (i / limit) + cap;
  }

  lemma NotAfter(i: nat, j: nat, limit: nat)
    requires i <= j && limit >= 1
    ensures i / limit <= j / limit
  {
    DivBounds(j, limit);
    DivBounds(i, limit);
    assert (j / limit + 1) * limit == (j / limit) * limit + limit;
    if i / limit > j / limit {
      Product(j / limit + 1, i / limit, limit);
    }
  }

  // ---- Too few batches: with every publish refused ---------------------------------

  const REFUSED := Environment((n: nat, id: AlertId) => false, (n: nat) => 0, (n: nat) => "refused")

  predicate Fresh(rows: Table, t: AlertType, cap: nat) {
    forall id | id in Eligible(rows, t, cap) :: rows[id].publishAttempts == 0
  }

  /** No alert is published, and none has been tried before its block's turn. */
  predicate Waiting(rows: Table, order: seq<AlertId>, t: AlertType, limit: nat, cap: nat, done: nat)
    requires limit >= 1
  {
    forall i | 0 <= i < |order| ::
      && order[i] in rows && rows[order[i]].alertType == t && rows[order[i]].publishedAt.None?
      && (if done >= Turn(i, limit, cap) then rows[order[i]].publishAttempts <= done - Turn(i, limit, cap)
          else rows[order[i]].publishAttempts == 0)
  }

  /** The alerts of the block whose turn it is have attempts left. */
  lemma TurnIsEligible(rows: Table, order: seq<AlertId>, t: AlertType, limit: nat, cap: nat, done: nat, j: nat)
    requires limit >= 1 && cap >= 1 && Waiting(rows, order, t, limit, cap, done)
    requires j < |order| && j / limit == done / cap
    ensures order[j] in Eligible(rows, t, cap)
  {
    DivBounds(done, cap);
    assert Turn(j, limit, cap) == (done / cap) * cap;
  }

  /** The first alert of the block whose turn it is. */
  function BlockStart(done: nat, limit: nat, cap: nat): nat
    requires cap >= 1
  {
    Product(0, done / cap, limit);
    (done / cap) * limit
  }

  /** No batch reaches an alert before its block's turn. */
  lemma FetchedInTurn(rows: Table, order: seq<AlertId>, ids: set<AlertId>, t: AlertType, limit: nat, cap: nat,
                      done: nat, batch: set<AlertId>, i: nat)
    requires limit >= 1 && cap >= 1 && InOrder(order, rows, ids) && Waiting(rows, order, t, limit, cap, done)
    requires IsFetch(rows, t, limit, cap, batch) && i < |order| && order[i] in batch
    ensures done >= Turn(i, limit, cap)
  {
    hide InOrder, Waiting, IsFetch, Eligible, Elements, Turn, BlockStart;
    FetchIsSmall(rows, t, limit, cap, batch);
    if done < Turn(i, limit, cap) {
      TurnComesFirst(done, i, limit, cap);
      BlockFetched(rows, order, ids, t, limit, cap, done, batch, i);
      BatchTooSmall(rows, order, ids, BlockStart(done, limit, cap), limit, batch, i);
    }
  }

  lemma FetchIsSmall(rows: Table, t: AlertType, limit: nat, cap: nat, batch: set<AlertId>)
    requires IsFetch(rows, t, limit, cap, batch)
    ensures |batch| <= limit && batch <= Eligible(rows, t, cap)
  {
  }

  /** A batch that holds a whole block and an alert behind it has more than `limit` alerts. */
  lemma BatchTooSmall(rows: Table, order: seq<AlertId>, ids: set<AlertId>, lo: nat, limit: nat,
                      batch: set<AlertId>, i: nat)
    requires InOrder(order, rows, ids) && lo + limit <= i < |order|
    requires Elements(order[lo..lo + limit]) <= batch && order[i] in batch
    ensures |batch| > limit
  {
    NotInSlice(order, rows, ids, lo, lo + limit, i);
    hide InOrder, Elements, Distinct;
    SliceSize(order, lo, lo + limit);
    TooSmall(Elements(order[lo..lo + limit]), order[i], batch);
  }

  lemma TooSmall<K>(part: set<K>, k: K, whole: set<K>)
    requires part <= whole && k in whole && k !in part
    ensures |whole| > |part|
  {
    SubsetSize(part + {k}, whole);
  }

  /** The block whose turn it is lies wholly before an alert whose turn is yet to come. */
  lemma TurnComesFirst(done: nat, i: nat, limit: nat, cap: nat)
    requires limit >= 1 && cap >= 1 && done < Turn(i, limit, cap)
    ensures BlockStart(done, limit, cap) + limit <= i
  {
    var p := done / cap;
    DivBounds(done, cap);
    assert (p + 1) * limit == p * limit + limit;
    assert cap * p <= done;
    if p >= i / limit { Product(i / limit, p, cap); }
    Product(p + 1, i / limit, limit);
    DivBounds(i, limit);
  }

  lemma NotInSlice(order: seq<AlertId>, rows: Table, ids: set<AlertId>, lo: nat, hi: nat, i: nat)
    requires InOrder(order, rows, ids) && lo <= hi <= i < |order|
    ensures Distinct(order) && order[i] !in Elements(order[lo..hi])
  {
    forall x | 0 <= x < hi - lo ensures order[lo..hi][x] != order[i] {
      assert order[lo + x] != order[i];
    }
  }

  lemma BlockFetched(rows: Table, order: seq<AlertId>, ids: set<AlertId>, t: AlertType, limit: nat, cap: nat, done: nat,
                     batch: set<AlertId>, i: nat)
    requires limit >= 1 && cap >= 1 && InOrder(order, rows, ids) && Waiting(rows, order, t, limit, cap, done)
    requires IsFetch(rows, t, limit, cap, batch) && i < |order| && order[i] in batch
    requires BlockStart(done, limit, cap) + limit <= i
    ensures Elements(order[BlockStart(done, limit, cap)..BlockStart(done, limit, cap) + limit]) <= batch
  {
    var lo := BlockStart(done, limit, cap);
    hide InOrder, Waiting, IsFetch, Eligible, EarlierFirst, Turn, Elements, BlockStart;
    forall k | k in Elements(order[lo..lo + limit]) ensures k in batch {
      var x := PlaceInSlice(order, lo, lo + limit, k);
      BlockInBatch(rows, order, ids, t, limit, cap, done, batch, i, x);
    }
  }

  lemma PlaceInSlice(order: seq<AlertId>, lo: nat, hi: nat, k: AlertId) returns (x: nat)
    requires lo <= hi <= |order| && k in Elements(order[lo..hi])
    ensures lo <= x < hi && order[x] == k
  {
    var y :| 0 <= y < |order[lo..hi]| && order[lo..hi][y] == k;
    x := lo + y;
  }

  lemma BlockInBatch(rows: Table, order: seq<AlertId>, ids: set<AlertId>, t: AlertType, limit: nat, cap: nat, done: nat,
                     batch: set<AlertId>, i: nat, j: nat)
    requires limit >= 1 && cap >= 1 && InOrder(order, rows, ids) && Waiting(rows, order, t, limit, cap, done)
    requires IsFetch(rows, t, limit, cap, batch) && j < i < |order| && order[i] in batch
    requires BlockStart(done, limit, cap) <= j < BlockStart(done, limit, cap) + limit
    ensures order[j] in batch
  {
    BlockOf(j, done / cap, limit);
    TurnIsEligible(rows, order, t, limit, cap, done, j);
    NeitherBefore(order, rows, ids, j, i);
  }

  lemma BatchWaits(rows: Table, order: seq<AlertId>, ids: set<AlertId>, t: AlertType, limit: nat, cap: nat, done: nat,
                   batch: set<AlertId>, now: Time, error: string)
    requires limit >= 1 && cap >= 1 && InOrder(order, rows, ids) && Waiting(rows, order, t, limit, cap, done)
    requires IsFetch(rows, t, limit, cap, batch)
    ensures Waiting(BatchRows(rows, batch, {}, now, error), order, t, limit, cap, done + 1)
  {
    hide Turn;
    var rows' := BatchRows(rows, batch, {}, now, error);
    FetchIsSmall(rows, t, limit, cap, batch);
    hide Eligible, InOrder, IsFetch, BatchRows;
    forall i | 0 <= i < |order|
      ensures order[i] in rows' && rows'[order[i]].alertType == t && rows'[order[i]].publishedAt.None?
      ensures if done + 1 >= Turn(i, limit, cap) then rows'[order[i]].publishAttempts <= done + 1 - Turn(i, limit, cap)
              else rows'[order[i]].publishAttempts == 0
    {
      BatchRow(rows, t, cap, batch, {}, now, error, order[i]);
      if order[i] in batch {
        FetchedInTurn(rows, order, ids, t, limit, cap, done, batch, i);
      }
    }
  }

  lemma {:induction false} BatchesWait(before: Table, order: seq<AlertId>, t: AlertType, limit: nat, cap: nat, n: nat)
    requires limit >= 1 && cap >= 1 && InOrder(order, before, Eligible(before, t, cap)) && Fresh(before, t, cap)
    ensures Waiting(AfterBatches(before, t, limit, cap, REFUSED, n), order, t, limit, cap, n)
  {
    hide Eligible, InOrder, Fetched, BatchRows, IsFetch, Waiting, Fresh, Turn;
    if n == 0 {
      WaitingAtFirst(before, order, t, limit, cap);
    } else {
      var mid := AfterBatches(before, t, limit, cap, REFUSED, n - 1);
      BatchesWait(before, order, t, limit, cap, n - 1);
      BatchesFacts(before, t, limit, cap, REFUSED, n - 1);
      OrderStays(order, before, mid, Eligible(before, t, cap));
      var batch := Fetched(mid, t, limit, cap);
      assert Accepted(batch, REFUSED, n) == {};
      BatchWaits(mid, order, Eligible(before, t, cap), t, limit, cap, n - 1, batch, REFUSED.now(n), REFUSED.error(n));
    }
  }

  lemma WaitingAtFirst(rows: Table, order: seq<AlertId>, t: AlertType, limit: nat, cap: nat)
    requires limit >= 1 && InOrder(order, rows, Eligible(rows, t, cap)) && Fresh(rows, t, cap)
    ensures Waiting(rows, order, t, limit, cap, 0)
  {
    hide Turn;
    forall i | 0 <= i < |order| ensures order[i] in Eligible(rows, t, cap) {
      assert order[i] in Elements(order);
    }
  }

  /** Beyond capacity, the run in which the broker refuses everything leaves the last alert unfinished. */
  lemma CapacityIsNeeded(before: Table, t: AlertType, limit: nat, cap: nat)
    requires limit >= 1 && Fresh(before, t, cap)
    requires BatchesNeeded(|Eligible(before, t, cap)|, limit, cap) > MAX_BATCHES
    ensures !Finished(AfterBatches(before, t, limit, cap, REFUSED, MAX_BATCHES), t, cap)
  {
    hide *;
    EligibleAreRows(before, t, cap);
    var order := OrderExists(before, Eligible(before, t, cap));
    OrderSize(order, before, Eligible(before, t, cap));
    NeedsBatches(|order|, limit, cap);
    BatchesWait(before, order, t, limit, cap, MAX_BATCHES);
    LastWaits(AfterBatches(before, t, limit, cap, REFUSED, MAX_BATCHES), order, t, limit, cap);
  }

  lemma EligibleAreRows(rows: Table, t: AlertType, cap: nat)
    ensures Eligible(rows, t, cap) <= rows.Keys
  {
  }

  lemma OrderSize(order: seq<AlertId>, rows: Table, ids: set<AlertId>)
    requires InOrder(order, rows, ids)
    ensures |order| == |ids|
  {
    ElementsSize(order);
  }

  lemma NeedsBatches(n: nat, limit: nat, cap: nat)
    requires limit >= 1 && BatchesNeeded(n, limit, cap) > MAX_BATCHES
    ensures n >= 1 && cap >= 1 && MAX_BATCHES < Turn(n - 1, limit, cap) + cap
  {
    if n == 0 {
      BlockOf(limit - 1, 0, limit);
      assert false;
    }
    LastBlock(n, limit);
    assert cap * Ceil(n, limit) == cap * ((n - 1) / limit) + cap;
  }

  lemma LastWaits(rows: Table, order: seq<AlertId>, t: AlertType, limit: nat, cap: nat)
    requires limit >= 1 && cap >= 1 && |order| >= 1 && Waiting(rows, order, t, limit, cap, MAX_BATCHES)
    requires MAX_BATCHES < Turn(|order| - 1, limit, cap) + cap
    ensures !Finished(rows, t, cap)
  {
    hide Turn;
    assert order[|order| - 1] in rows;
  }

  /**
   Main result. For fresh alerts, a run finishes them whatever publishes fail if and only if
   cap * ceil(n / limit) <= MAX_BATCHES.
   */
  lemma CapacityExact(before: Table, t: AlertType, limit: nat, cap: nat)
    requires limit >= 1 && Fresh(before, t, cap)
    ensures (forall env: Environment :: Finished(AfterBatches(before, t, limit, cap, env, MAX_BATCHES), t, cap))
            <==> BatchesNeeded(|Eligible(before, t, cap)|, limit, cap) <= MAX_BATCHES
  {
    if BatchesNeeded(|Eligible(before, t, cap)|, limit, cap) <= MAX_BATCHES {
      forall env: Environment
        ensures Finished(AfterBatches(before, t, limit, cap, env, MAX_BATCHES), t, cap)
      {
        CapacitySuffices(before, t, limit, cap, env);
      }
    } else {
      CapacityIsNeeded(before, t, limit, cap);
      assert !Finished(AfterBatches(before, t, limit, cap, REFUSED, MAX_BATCHES), t, cap);
    }
  }

  /** With the shipped settings, a hundred alerts a batch, that is two thousand fresh alerts a run. */
  lemma ShippedCapacity(before: Table, t: AlertType)
    requires Fresh(before, t, MAX_ATTEMPTS)
    ensures (forall env: Environment ::
               Finished(AfterBatches(before, t, 100, MAX_ATTEMPTS, env, MAX_BATCHES), t, MAX_ATTEMPTS))
            <==> |Eligible(before, t, MAX_ATTEMPTS)| <= 2000
  {
    hide AfterBatches, Finished, Eligible, Fresh, BatchesNeeded;
    CapacityExact(before, t, 100, MAX_ATTEMPTS);
    ShippedBatches(|Eligible(before, t, MAX_ATTEMPTS)|);
  }

  lemma ShippedBatches(n: nat)
    ensures BatchesNeeded(n, 100, MAX_ATTEMPTS) <= MAX_BATCHES <==> n <= 2000
  {
  }

  /** The simpler bound cap * n <= limit * (MAX_BATCHES - cap) is within it. */
  lemma SimpleBound(n: nat, limit: nat, cap: nat)
    requires limit >= 1 && cap * n <= limit * (MAX_BATCHES - cap)
    ensures BatchesNeeded(n, limit, cap) <= MAX_BATCHES
  {
    var q := Ceil(n, limit);
    DivBounds(n + limit - 1, limit);
    Product(q * limit, n + limit - 1, cap);
    assert cap * (q * limit) == (cap * q) * limit;
    assert cap * (n + limit - 1) == cap * n + cap * limit - cap;
    assert limit * (MAX_BATCHES - cap) == limit * MAX_BATCHES - limit * cap;
    assert (MAX_BATCHES + 1) * limit == limit * MAX_BATCHES + limit;
    if cap * q > MAX_BATCHES {
      Product(MAX_BATCHES + 1, cap * q, limit);
    }
  }

  // ---- One alert too many ----------------------------------------------------------

  /** n new alerts of one day. */
  function NewAlerts(t: AlertType, n: nat): Table {
    if n == 0 then map[] else NewAlerts(t, n - 1)[n - 1 := Alert(n - 1, t, 0, None, 0, None)]
  }

  lemma {:induction false} NewAlertsFacts(t: AlertType, n: nat)
    ensures |NewAlerts(t, n).Keys| == n
    ensures forall id | id in NewAlerts(t, n) :: id < n && NewAlerts(t, n)[id] == Alert(id, t, 0, None, 0, None)
  {
    if n == 0 {
    } else {
      var fewer := NewAlerts(t, n - 1);
      NewAlertsFacts(t, n - 1);
      assert NewAlerts(t, n) == fewer[n - 1 := Alert(n - 1, t, 0, None, 0, None)];
      assert NewAlerts(t, n).Keys == fewer.Keys + {n - 1};
    }
  }

  /** One alert more than limit * (MAX_BATCHES / cap), and a run in which every publish is refused. */
  lemma OneTooMany(t: AlertType, limit: nat, cap: nat)
    requires limit >= 1 && cap >= 1
    ensures limit * (MAX_BATCHES / cap) >= 0
    ensures var before := NewAlerts(t, limit * (MAX_BATCHES / cap) + 1);
            && |Eligible(before, t, cap)| == limit * (MAX_BATCHES / cap) + 1
            && Fresh(before, t, cap)
            && !Finished(AfterBatches(before, t, limit, cap, REFUSED, MAX_BATCHES), t, cap)
  {
    OneBlockTooMany(limit, cap);
    var n := limit * (MAX_BATCHES / cap) + 1;
    var before := NewAlerts(t, n);
    NewAlertsFacts(t, n);
    assert Eligible(before, t, cap) == before.Keys;
    assert Fresh(before, t, cap);
    hide Eligible, AfterBatches, Finished, NewAlerts, Fresh, BatchesNeeded;
    CapacityIsNeeded(before, t, limit, cap);
  }

  lemma OneBlockTooMany(limit: nat, cap: nat)
    requires limit >= 1 && cap >= 1
    ensures limit * (MAX_BATCHES / cap) >= 0
    ensures BatchesNeeded(limit * (MAX_BATCHES / cap) + 1, limit, cap) > MAX_BATCHES
  {
    var blocks := MAX_BATCHES / cap;
    DivBounds(MAX_BATCHES, cap);
    Product(0, blocks, limit);
    var n := limit * blocks + 1;
    LastBlock(n, limit);
    BlockOf(n - 1, blocks, limit);
    assert cap * (blocks + 1) == blocks * cap + cap;
  }
}
