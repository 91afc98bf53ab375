/**
 Ingesting events: one event row, one delivery per subscribed target, one inbox row
 per event and user, however often a message is redelivered.
 */
module Ingest {
  import opened Prelude
  import opened Deliveries

  type UserId = string
  type HomeId = string
  type InboxId = nat

  datatype Event = Event(source: string, eventType: string, subject: Option<string>, message: string)

  /** The optional delivery target a subscription may carry. */
  datatype Override = Override(email: string, phone: string)

  datatype Subscription = Subscription(userId: UserId, topic: string, channel: Channel, target: Override)

  datatype User = User(email: string, isActive: bool)

  /** What uq_delivery_per_target keys on, beside the event. */
  datatype Target = Target(channel: Channel, recipientType: RecipientType, recipient: string)

  datatype InboxRow = InboxRow(
    userId: UserId, homeId: HomeId, eventId: EventId, subject: Option<string>, message: string)

  // ---- Recipients -----------------------------------------------------------

  /** The topics a subscription may be for: the event's own, and its last segment as a wildcard. */
  function Wildcard(topic: string): string {
    if exists i :: 0 <= i < |topic| && topic[i] == '.' then
      var i := LastDot(topic, |topic|);
      topic[..i] + ".*"
    else "*"
  }

  function LastDot(topic: string, n: nat): (i: nat)
    requires n <= |topic| && exists k :: 0 <= k < n && topic[k] == '.'
    ensures i < n && topic[i] == '.' && forall k | i < k < n :: topic[k] != '.'
  {
    if topic[n - 1] == '.' then n - 1 else LastDot(topic, n - 1)
  }

  /** list_enabled_for_topic, of a home's enabled subscriptions. */
  predicate Matches(s: Subscription, topic: string) {
    s.topic == topic || s.topic == Wildcard(topic)
  }

  /** _resolve_recipient: users have no phone of their own. */
  function ResolveRecipient(channel: Channel, userId: UserId, user: User, target: Override): (r: Option<Target>)
    // The address comes from the override first; LOG, IN_APP and PUSH ignore it; no address, no delivery.
    ensures r.Some? ==> r.value.channel == channel && r.value.recipient != ""
    ensures channel == Email ==>
              if target.email != "" then r == Some(Target(Email, EmailAddress, target.email))
              else if user.email != "" then r == Some(Target(Email, EmailAddress, user.email)) else r == None
    ensures channel == Sms ==> if target.phone != "" then r == Some(Target(Sms, Phone, target.phone)) else r == None
    ensures channel == Log ==> r == Some(Target(Log, LogSink, "stdout"))
    ensures channel == InApp || channel == Push ==>
              if userId != "" then r == Some(Target(channel, InAppUser, userId)) else r == None
  {
    var t :=
      match channel
      case Email => Target(Email, EmailAddress, if target.email != "" then target.email else user.email)
      case Sms => Target(Sms, Phone, target.phone)
      case Log => Target(Log, LogSink, "stdout")
      case InApp => Target(InApp, InAppUser, userId)
      case Push => Target(Push, InAppUser, userId);
    if t.recipient == "" then None else Some(t)
  }

  /** The delivery target a subscription yields, unless it is for another topic or its user is unknown. */
  function TargetOf(s: Subscription, topic: string, users: map<UserId, User>): Option<Target> {
    if Matches(s, topic) && s.userId in users then ResolveRecipient(s.channel, s.userId, users[s.userId], s.target)
    else None
  }

  /**
   Which events a subscription's topic is for: those of exactly that topic, and those one segment below it if it
   ends in an asterisk; an event topic without a dot is below "*".
   */
  predicate ForTopic(own: string, topic: string) {
    || own == topic
    || (exists k | 0 <= k < |topic| :: topic[k] == '.' && '.' !in topic[k + 1..] && own == topic[..k] + ".*")
    || ('.' !in topic && own == "*")
  }

  lemma MatchesMeans(s: Subscription, topic: string)
    ensures Matches(s, topic) <==> ForTopic(s.topic, topic)
  {
    if '.' in topic {
      var i :| 0 <= i < |topic| && topic[i] == '.';
      var last := LastDot(topic, |topic|);
      assert '.' !in topic[last + 1..];
      forall k | 0 <= k < last && topic[k] == '.' ensures '.' in topic[k + 1..] {
        assert topic[k + 1..][last - (k + 1)] == '.';
      }
    }
  }

  /** The subscription is for the topic, its user is known, and this is the user's address on its channel. */
  predicate Reaches(s: Subscription, topic: string, users: map<UserId, User>, t: Target) {
    && ForTopic(s.topic, topic) && s.userId in users
    && ResolveRecipient(s.channel, s.userId, users[s.userId], s.target) == Some(t)
  }

  lemma TargetMeans(s: Subscription, topic: string, users: map<UserId, User>, t: Target)
    ensures TargetOf(s, topic, users) == Some(t) <==> Reaches(s, topic, users, t)
  {
    MatchesMeans(s, topic);
    hide Matches, ForTopic, ResolveRecipient;
  }

  function Targets(subs: seq<Subscription>, topic: string, users: map<UserId, User>): seq<Target> {
    if subs == [] then []
    else
      var front := Targets(subs[..|subs| - 1], topic, users);
      match TargetOf(subs[|subs| - 1], topic, users)
      case Some(t) => front + [t]
      case None => front
  }

  // ---- The upsert -----------------------------------------------------------

  function TargetOfRow(d: Delivery): Target {
    Target(d.channel, d.recipientType, d.recipient)
  }

  /** Unique constraint uq_delivery_per_target. */
  predicate UniqueTargets(rows: Table) {
    forall a, b | a in rows && b in rows && rows[a].eventId == rows[b].eventId
                  && TargetOfRow(rows[a]) == TargetOfRow(rows[b]) :: a == b
  }

  predicate HasDelivery(rows: Table, event: EventId, t: Target) {
    exists id | id in rows :: rows[id].eventId == event && TargetOfRow(rows[id]) == t
  }

  function NewDelivery(event: EventId, t: Target, createdAt: Time): Delivery {
    Delivery(event, t.channel, t.recipientType, t.recipient, createdAt, Pending, 0, 5,
             None, None, None, None, None, None)
  }

  /** A delivery nobody has worked on, column by column. */
  predicate Untouched(d: Delivery, event: EventId, t: Target, createdAt: Time) {
    && d.eventId == event && d.channel == t.channel && d.recipientType == t.recipientType && d.recipient == t.recipient
    && d.createdAt == createdAt && d.status == Pending && d.attemptCount == 0 && d.maxAttempts == 5
    && d.nextRetryAt == None && d.lastAttemptAt == None && d.lastError == None
    && d.lockedBy == None && d.lockedAt == None && d.lockExpiresAt == None
  }

  /** One row of ON CONFLICT DO UPDATE SET updated_at: an existing delivery keeps every column modelled here. */
  function UpsertOne(rows: Table, event: EventId, t: Target, id: DeliveryId, createdAt: Time): Table {
    if HasDelivery(rows, event, t) then rows else rows[id := NewDelivery(event, t, createdAt)]
  }

  function Upsert(rows: Table, event: EventId, targets: seq<Target>, ids: seq<DeliveryId>, createdAt: Time): Table
    requires |ids| == |targets|
    decreases |targets|
  {
    if targets == [] then rows
    else Upsert(UpsertOne(rows, event, targets[0], ids[0], createdAt), event, targets[1..], ids[1..], createdAt)
  }

  predicate FreshIds(rows: Table, ids: seq<DeliveryId>) {
    Distinct(ids) && forall i | 0 <= i < |ids| :: ids[i] !in rows
  }

  predicate Kept(rows: Table, rows': Table) {
    forall id | id in rows :: id in rows' && rows'[id] == rows[id]
  }

  lemma HasDeliveryStays(rows: Table, rows': Table, event: EventId, t: Target)
    requires HasDelivery(rows, event, t) && Kept(rows, rows')
    ensures HasDelivery(rows', event, t)
  {
    var id :| id in rows && rows[id].eventId == event && TargetOfRow(rows[id]) == t;
    assert rows'[id] == rows[id];
  }

  lemma UpsertOneFacts(rows: Table, event: EventId, t: Target, id: DeliveryId, createdAt: Time)
    requires UniqueTargets(rows) && id !in rows
    ensures var rows' := UpsertOne(rows, event, t, id, createdAt);
            && UniqueTargets(rows') && HasDelivery(rows', event, t) && Kept(rows, rows')
            && rows'.Keys <= rows.Keys + {id}
            && (id in rows' ==> rows'[id] == NewDelivery(event, t, createdAt))
  {
    if !HasDelivery(rows, event, t) {
      var rows' := UpsertOne(rows, event, t, id, createdAt);
      assert rows'[id].eventId == event && TargetOfRow(rows'[id]) == t;
    }
  }

  /**
   Status and attempts of existing deliveries are never reset; every target ends up with its one
   delivery; what is new is a pending delivery of one of the targets.
   */
  lemma {:induction false} UpsertFacts(rows: Table, event: EventId, targets: seq<Target>, ids: seq<DeliveryId>,
                                       createdAt: Time)
    requires |ids| == |targets| && FreshIds(rows, ids) && UniqueTargets(rows)
    ensures var rows' := Upsert(rows, event, targets, ids, createdAt);
            && UniqueTargets(rows') && Kept(rows, rows')
            && (forall t | t in targets :: HasDelivery(rows', event, t))
            && (forall id | id in rows' && id !in rows ::
                  exists t :: t in targets && rows'[id] == NewDelivery(event, t, createdAt)
                              && Untouched(rows'[id], event, t, createdAt))
    decreases |targets|
  {
    if targets == [] {
    } else {
      var mid := UpsertOne(rows, event, targets[0], ids[0], createdAt);
      UpsertOneFacts(rows, event, targets[0], ids[0], createdAt);
      assert FreshIds(mid, ids[1..]);
      UpsertFacts(mid, event, targets[1..], ids[1..], createdAt);
      var rows' := Upsert(rows, event, targets, ids, createdAt);
      assert targets == [targets[0]] + targets[1..];
      HasDeliveryStays(mid, rows', event, targets[0]);
      forall id | id in rows' && id !in rows
        ensures exists t :: t in targets && rows'[id] == NewDelivery(event, t, createdAt)
                            && Untouched(rows'[id], event, t, createdAt)
      {
        if id in mid {
          assert targets[0] in targets && rows'[id] == NewDelivery(event, targets[0], createdAt);
        } else {
          var t :| t in targets[1..] && rows'[id] == NewDelivery(event, t, createdAt);
          assert t in targets;
        }
      }
    }
  }

  lemma {:induction false} UpsertAgainIsNoOp(rows: Table, event: EventId, targets: seq<Target>, ids: seq<DeliveryId>,
                                             createdAt: Time)
    requires |ids| == |targets| && forall t | t in targets :: HasDelivery(rows, event, t)
    ensures Upsert(rows, event, targets, ids, createdAt) == rows
    decreases |targets|
  {
    if targets == [] {
    } else {
      assert targets[0] in targets;
      UpsertAgainIsNoOp(rows, event, targets[1..], ids[1..], createdAt);
    }
  }

  // ---- Handling an event ------------------------------------------------------

  datatype Store = Store(events: map<EventId, Event>, deliveries: Table, inbox: map<InboxId, InboxRow>)

  /** Unique constraint uq_inbox_user_event. */
  predicate UniqueInbox(inbox: map<InboxId, InboxRow>) {
    forall a, b | a in inbox && b in inbox && inbox[a].eventId == inbox[b].eventId
                  && inbox[a].userId == inbox[b].userId :: a == b
  }

  /** Everything one handling of an inventory event is given. */
  datatype Arrival = Arrival(
    eventId: EventId, event: Event, targets: seq<Target>, ids: seq<DeliveryId>, createdAt: Time)

  /** handle_inventory_event as one committed transaction. */
  function Handle(s: Store, a: Arrival): Store
    requires |a.ids| == |a.targets|
  {
    s.(events := if a.eventId in s.events then s.events else s.events[a.eventId := a.event],
       deliveries := Upsert(s.deliveries, a.eventId, a.targets, a.ids, a.createdAt))
  }

  /** What holds of a store once an event with these targets has been handled. */
  predicate Handled(s: Store, event: EventId, targets: seq<Target>) {
    event in s.events && forall t | t in targets :: HasDelivery(s.deliveries, event, t)
  }

  lemma HandleEstablishes(s: Store, a: Arrival)
    requires |a.ids| == |a.targets| && FreshIds(s.deliveries, a.ids) && UniqueTargets(s.deliveries)
    ensures Handled(Handle(s, a), a.eventId, a.targets) && UniqueTargets(Handle(s, a).deliveries)
    ensures Kept(s.deliveries, Handle(s, a).deliveries)
    ensures a.eventId in s.events ==> Handle(s, a).events == s.events
  {
    UpsertFacts(s.deliveries, a.eventId, a.targets, a.ids, a.createdAt);
  }

  /** A store between two redeliveries: claims, sends and finalizes keep every delivery's event and target. */
  predicate WorkedOn(s: Store, s': Store) {
    && (forall e | e in s.events :: e in s'.events && s'.events[e] == s.events[e])
    && (forall id | id in s.deliveries :: id in s'.deliveries
          && s'.deliveries[id].eventId == s.deliveries[id].eventId
          && TargetOfRow(s'.deliveries[id]) == TargetOfRow(s.deliveries[id]))
  }

  lemma WorkKeepsHandled(s: Store, s': Store, event: EventId, targets: seq<Target>)
    requires Handled(s, event, targets) && WorkedOn(s, s')
    ensures Handled(s', event, targets)
  {
    forall t | t in targets ensures HasDelivery(s'.deliveries, event, t) {
      var id :| id in s.deliveries && s.deliveries[id].eventId == event && TargetOfRow(s.deliveries[id]) == t;
      assert s'.deliveries[id].eventId == event;
    }
  }

  /**
   Redelivery idempotence: whatever the workers did to the deliveries in between, handling the event
   again changes nothing: not the event row, not a status, not an attempt count.
   */
  lemma RedeliveryIsNoOp(first: Store, a: Arrival, between: Store, again: Arrival)
    requires |a.ids| == |a.targets| && FreshIds(first.deliveries, a.ids) && UniqueTargets(first.deliveries)
    requires WorkedOn(Handle(first, a), between)
    requires |again.ids| == |again.targets| && again.eventId == a.eventId && again.targets == a.targets
    ensures Handle(between, again) == between
  {
    HandleEstablishes(first, a);
    WorkKeepsHandled(Handle(first, a), between, a.eventId, a.targets);
    UpsertAgainIsNoOp(between.deliveries, a.eventId, again.targets, again.ids, again.createdAt);
  }

  /** Claims and finalizes are such work. */
  lemma StatementsAreWork(s: Store, chosen: set<DeliveryId>, worker: WorkerId, now: Time, results: seq<SendResult>)
    ensures WorkedOn(s, s.(deliveries := ClaimRows(s.deliveries, chosen, worker, now)))
    ensures WorkedOn(s, s.(deliveries := FinalizeBulk(s.deliveries, worker, results)))
  {
  }

  /** No two of the subscriptions yield one target. */
  predicate NoOverlap(subs: seq<Subscription>, topic: string, users: map<UserId, User>) {
    forall i, j | 0 <= i < j < |subs| && TargetOf(subs[i], topic, users).Some? ::
      TargetOf(subs[i], topic, users) != TargetOf(subs[j], topic, users)
  }

  lemma {:induction false} TargetOrigin(subs: seq<Subscription>, topic: string, users: map<UserId, User>, t: Target)
      returns (k: nat)
    requires t in Targets(subs, topic, users)
    ensures k < |subs| && TargetOf(subs[k], topic, users) == Some(t)
    decreases |subs|
  {
    var n := |subs| - 1;
    if TargetOf(subs[n], topic, users) == Some(t) {
      k := n;
    } else {
      k := TargetOrigin(subs[..n], topic, users, t);
    }
  }

  lemma {:induction false} NoOverlapIsDistinct(subs: seq<Subscription>, topic: string, users: map<UserId, User>)
    requires NoOverlap(subs, topic, users)
    ensures Distinct(Targets(subs, topic, users))
    decreases |subs|
  {
    if subs == [] {
    } else {
      var n := |subs| - 1;
      NoOverlapIsDistinct(subs[..n], topic, users);
      var front := Targets(subs[..n], topic, users);
      if TargetOf(subs[n], topic, users).Some? {
        forall x | 0 <= x < |front| ensures Some(front[x]) != TargetOf(subs[n], topic, users) {
          var k := TargetOrigin(subs[..n], topic, users, front[x]);
          assert subs[..n][k] == subs[k];
        }
      }
    }
  }

  lemma OverlapCollides(subs: seq<Subscription>, topic: string, users: map<UserId, User>, i: nat, j: nat)
    requires i < j < |subs| && TargetOf(subs[i], topic, users).Some?
    requires TargetOf(subs[i], topic, users) == TargetOf(subs[j], topic, users)
    ensures !Distinct(Targets(subs, topic, users))
  {
    var x := TargetIndex(subs, topic, users, i, j);
    var y := TargetIndex(subs, topic, users, j, |subs|);
    TargetsPrefix(subs, topic, users, j);
    assert Targets(subs, topic, users)[x] == Targets(subs, topic, users)[y];
  }

  /** The batch of delivery rows is one PostgreSQL accepts exactly when no two subscriptions share a target. */
  lemma DistinctIffNoOverlap(subs: seq<Subscription>, topic: string, users: map<UserId, User>)
    ensures Distinct(Targets(subs, topic, users)) <==> NoOverlap(subs, topic, users)
  {
    if NoOverlap(subs, topic, users) {
      NoOverlapIsDistinct(subs, topic, users);
    } else {
      var i, j :| 0 <= i < j < |subs| && TargetOf(subs[i], topic, users).Some?
                  && TargetOf(subs[i], topic, users) == TargetOf(subs[j], topic, users);
      OverlapCollides(subs, topic, users, i, j);
    }
  }

  /** One user's exact and wildcard subscription for one channel do share a target ... */
  lemma ExactAndWildcardCollide(subs: seq<Subscription>, topic: string, users: map<UserId, User>, i: nat, j: nat)
    requires i < |subs| && j < |subs| && i != j && subs[i].topic == topic && subs[j].topic == Wildcard(topic)
    requires subs[i].userId == subs[j].userId && subs[i].channel == subs[j].channel && subs[i].target == subs[j].target
    requires TargetOf(subs[i], topic, users).Some?
    ensures !Distinct(Targets(subs, topic, users))
  {
    if i < j {
      OverlapCollides(subs, topic, users, i, j);
    } else {
      OverlapCollides(subs, topic, users, j, i);
    }
  }

  /** ... and so do the LOG subscriptions of any two users. */
  lemma LogSubscriptionsCollide(subs: seq<Subscription>, topic: string, users: map<UserId, User>, i: nat, j: nat)
    requires i < j < |subs| && subs[i].channel == Log && subs[j].channel == Log
    requires subs[i].userId in users && subs[j].userId in users && Matches(subs[i], topic) && Matches(subs[j], topic)
    ensures !Distinct(Targets(subs, topic, users))
  {
    OverlapCollides(subs, topic, users, i, j);
  }

  /** Subscription i contributes a target among those of the first n subscriptions. */
  lemma {:induction false} TargetIndex(subs: seq<Subscription>, topic: string, users: map<UserId, User>, i: nat, n: nat)
      returns (x: nat)
    requires i < n <= |subs| && TargetOf(subs[i], topic, users).Some?
    ensures |Targets(subs[..i], topic, users)| <= x < |Targets(subs[..n], topic, users)|
    ensures Targets(subs[..n], topic, users)[x] == TargetOf(subs[i], topic, users).value
    ensures n == |subs| ==> x < |Targets(subs, topic, users)|
    ensures n == |subs| ==> Targets(subs, topic, users)[x] == TargetOf(subs[i], topic, users).value
    decreases n
  {
    assert subs[..n][..n - 1] == subs[..n - 1];
    assert n == |subs| ==> subs[..n] == subs;
    if i == n - 1 {
      x := |Targets(subs[..n - 1], topic, users)|;
    } else {
      x := TargetIndex(subs, topic, users, i, n - 1);
    }
  }

  lemma {:induction false} TargetsPrefix(subs: seq<Subscription>, topic: string, users: map<UserId, User>, n: nat)
    requires n <= |subs|
    ensures Targets(subs[..n], topic, users) <= Targets(subs, topic, users)
    decreases |subs| - n
  {
    if n == |subs| {
      assert subs[..n] == subs;
    } else {
      assert subs[..n + 1][..n] == subs[..n];
      TargetsPrefix(subs, topic, users, n + 1);
    }
  }

  predicate HasOneDelivery(rows: Table, event: EventId, t: Target) {
    exists id | id in rows :: rows[id].eventId == event && TargetOfRow(rows[id]) == t
      && forall other | other in rows && rows[other].eventId == event && TargetOfRow(rows[other]) == t :: other == id
  }

  lemma HasOne(rows: Table, event: EventId, t: Target)
    requires UniqueTargets(rows) && HasDelivery(rows, event, t)
    ensures HasOneDelivery(rows, event, t)
  {
    var id :| id in rows && rows[id].eventId == event && TargetOfRow(rows[id]) == t;
    assert rows[id].eventId == event;
  }

  /** Each reached target has its one delivery; what is new is an untouched delivery of a reached target. */
  ghost predicate Delivers(before: Table, after: Table, event: EventId, topic: string, subs: seq<Subscription>,
                     users: map<UserId, User>, createdAt: Time)
  {
    && (forall s, t | s in subs && Reaches(s, topic, users, t) :: HasOneDelivery(after, event, t))
    && forall id | id in after && id !in before ::
         exists s :: s in subs && Reaches(s, topic, users, TargetOfRow(after[id]))
                     && Untouched(after[id], event, TargetOfRow(after[id]), createdAt)
  }

  lemma UntouchedTarget(d: Delivery, event: EventId, t: Target, createdAt: Time)
    requires Untouched(d, event, t, createdAt)
    ensures TargetOfRow(d) == t
  {
  }

  lemma {:induction false} ReachedIsTarget(subs: seq<Subscription>, topic: string, users: map<UserId, User>,
                                           s: Subscription, t: Target)
    requires s in subs && TargetOf(s, topic, users) == Some(t)
    ensures t in Targets(subs, topic, users)
    decreases |subs|
  {
    var n := |subs| - 1;
    if subs[n] != s {
      ReachedIsTarget(subs[..n], topic, users, s, t);
    }
  }

  lemma UpsertDelivers(rows: Table, event: EventId, topic: string, subs: seq<Subscription>, users: map<UserId, User>,
                       ids: seq<DeliveryId>, createdAt: Time)
    requires |ids| == |Targets(subs, topic, users)| && FreshIds(rows, ids) && UniqueTargets(rows)
    ensures Delivers(rows, Upsert(rows, event, Targets(subs, topic, users), ids, createdAt), event, topic, subs, users,
                     createdAt)
  {
    var targets := Targets(subs, topic, users);
    var rows' := Upsert(rows, event, targets, ids, createdAt);
    UpsertFacts(rows, event, targets, ids, createdAt);
    hide Targets, TargetOf, Upsert, HasDelivery, UniqueTargets, FreshIds, NewDelivery, Reaches, Untouched,
      HasOneDelivery;
    forall s, t | s in subs && Reaches(s, topic, users, t) ensures HasOneDelivery(rows', event, t) {
      TargetMeans(s, topic, users, t);
      ReachedIsTarget(subs, topic, users, s, t);
      HasOne(rows', event, t);
    }
    forall id | id in rows' && id !in rows
      ensures exists s :: s in subs && Reaches(s, topic, users, TargetOfRow(rows'[id]))
                          && Untouched(rows'[id], event, TargetOfRow(rows'[id]), createdAt)
    {
      var t :| t in targets && Untouched(rows'[id], event, t, createdAt);
      UntouchedTarget(rows'[id], event, t, createdAt);
      var k := TargetOrigin(subs, topic, users, t);
      TargetMeans(subs[k], topic, users, t);
      assert subs[k] in subs;
    }
  }

  /** No two subscriptions reach one target. */
  ghost predicate ReachApart(subs: seq<Subscription>, topic: string, users: map<UserId, User>) {
    forall i, j, t | 0 <= i < j < |subs| && Reaches(subs[i], topic, users, t) :: !Reaches(subs[j], topic, users, t)
  }

  lemma NoOverlapMeans(subs: seq<Subscription>, topic: string, users: map<UserId, User>)
    ensures NoOverlap(subs, topic, users) <==> ReachApart(subs, topic, users)
  {
    hide TargetOf, Reaches;
    forall i, t | 0 <= i < |subs|
      ensures TargetOf(subs[i], topic, users) == Some(t) <==> Reaches(subs[i], topic, users, t)
    {
      TargetMeans(subs[i], topic, users, t);
    }
    if NoOverlap(subs, topic, users) {
      forall i, j, t | 0 <= i < j < |subs| && Reaches(subs[i], topic, users, t)
        ensures !Reaches(subs[j], topic, users, t)
      {
        assert TargetOf(subs[i], topic, users) == Some(t) != TargetOf(subs[j], topic, users);
      }
    } else {
      var i, j :| 0 <= i < j < |subs| && TargetOf(subs[i], topic, users).Some?
                  && TargetOf(subs[i], topic, users) == TargetOf(subs[j], topic, users);
      var t := TargetOf(subs[i], topic, users).value;
      assert TargetOf(subs[i], topic, users) == Some(t) == TargetOf(subs[j], topic, users);
      assert Reaches(subs[i], topic, users, t) && Reaches(subs[j], topic, users, t);
    }
  }

  datatype IngestResult = Committed | DuplicateTarget | UnknownUser

  /** The three tables ingest and the in-app sender write. */
  class NotificationStore {
    var store: Store

    constructor ()
      ensures store == Store(map[], map[], map[])
    {
      store := Store(map[], map[], map[]);
    }

    /**
     handle_inventory_event. `subs` are the home's enabled subscriptions, by user and channel, `users` the
     users found for them; a batch with two rows for one target makes PostgreSQL refuse the statement.
     */
    method HandleInventoryEvent(eventId: EventId, event: Event, subs: seq<Subscription>, users: map<UserId, User>,
                                freshIds: seq<DeliveryId>, createdAt: Time)
        returns (r: IngestResult)
      requires |freshIds| == |subs| && FreshIds(store.deliveries, freshIds) && UniqueTargets(store.deliveries)
      modifies this
      ensures r == Committed <==> NoOverlap(subs, event.eventType, users)
      ensures r == Committed <==> ReachApart(subs, event.eventType, users)
      // Every known user subscribed to the topic who has an address is served, and nobody else.
      ensures r == Committed ==>
                Delivers(old(store).deliveries, store.deliveries, eventId, event.eventType, subs, users, createdAt)
      ensures r != Committed ==> r == DuplicateTarget && store == old(store)
      ensures r == Committed ==>
                var targets := Targets(subs, event.eventType, users);
                |targets| <= |freshIds| &&
                store == Handle(old(store), Arrival(eventId, event, targets, freshIds[..|targets|], createdAt))
      ensures r == Committed ==> Handled(store, eventId, Targets(subs, event.eventType, users))
      ensures UniqueTargets(store.deliveries) && Kept(old(store).deliveries, store.deliveries)
      ensures eventId in old(store).events ==> store.events == old(store).events
      ensures r == Committed && eventId !in old(store).events ==> store.events == old(store).events[eventId := event]
      ensures store.inbox == old(store).inbox
    {
      hide ForTopic, Matches, Wildcard, Delivers, ReachApart;
      NoOverlapMeans(subs, event.eventType, users);
      var rows: seq<Target> := [];
      for i := 0 to |subs|
        invariant rows == Targets(subs[..i], event.eventType, users) && |rows| <= i
      {
        assert subs[..i + 1][..i] == subs[..i];
        match TargetOf(subs[i], event.eventType, users) {
          case Some(t) => rows := rows + [t];
          case None =>
        }
      }
      assert subs[..|subs|] == subs;
      DistinctIffNoOverlap(subs, event.eventType, users);
      if !Distinct(rows) {
        return DuplicateTarget;
      }
      var a := Arrival(eventId, event, rows, freshIds[..|rows|], createdAt);
      HandleEstablishes(store, a);
      UpsertDelivers(store.deliveries, eventId, event.eventType, subs, users, a.ids, createdAt);
      store := Handle(store, a);
      return Committed;
    }

    /** handle_account_email_event: `activation` tells the activation topic from the password-reset one. */
    method HandleAccountEmailEvent(eventId: EventId, event: Event, user: Option<User>, activation: bool,
                                   freshId: DeliveryId, createdAt: Time)
        returns (r: IngestResult)
      requires freshId !in store.deliveries && UniqueTargets(store.deliveries)
      modifies this
      // An unknown user is an error and changes nothing.
      ensures r == UnknownUser <==> user == None
      ensures r == UnknownUser ==> store == old(store)
      // Otherwise the event is recorded, unless it was already ...
      ensures r != UnknownUser ==> r == Committed && store.inbox == old(store).inbox
      ensures r != UnknownUser ==>
                store.events == if eventId in old(store).events then old(store).events
                                else old(store).events[eventId := event]
      // ... and gets its one mail, unless that exists or the account no longer needs it; nothing else is new.
      ensures r != UnknownUser ==>
                var t := Target(Email, EmailAddress, user.value.email);
                if user.value.isActive == activation || HasDelivery(old(store).deliveries, eventId, t)
                then store.deliveries == old(store).deliveries
                else store.deliveries == old(store).deliveries[freshId := NewDelivery(eventId, t, createdAt)]
      ensures UniqueTargets(store.deliveries) && Kept(old(store).deliveries, store.deliveries)
    {
      if user.None? { return UnknownUser; }
      if eventId !in store.events {
        store := store.(events := store.events[eventId := event]);
      }
      if activation && user.value.isActive { return Committed; }
      if !activation && !user.value.isActive { return Committed; }
      var t := Target(Email, EmailAddress, user.value.email);
      UpsertOneFacts(store.deliveries, eventId, t, freshId, createdAt);
      store := store.(deliveries := UpsertOne(store.deliveries, eventId, t, freshId, createdAt));
      return Committed;
    }

    /** InAppSender.send, once its headers have been read: ON CONFLICT DO NOTHING per event and user. */
    method SendInApp(row: InboxRow, freshId: InboxId) returns (storedId: InboxId)
      requires freshId !in store.inbox && UniqueInbox(store.inbox)
      modifies this
      ensures UniqueInbox(store.inbox)
      ensures storedId in store.inbox && store.inbox[storedId].eventId == row.eventId
              && store.inbox[storedId].userId == row.userId
      ensures if exists k :: k in old(store).inbox && old(store).inbox[k].eventId == row.eventId
                             && old(store).inbox[k].userId == row.userId
              then store == old(store)
              else storedId == freshId && store == old(store).(inbox := old(store).inbox[freshId := row])
    {
      if k :| k in store.inbox && store.inbox[k].eventId == row.eventId && store.inbox[k].userId == row.userId {
        storedId := k;
      } else {
        storedId := freshId;
        store := store.(inbox := store.inbox[freshId := row]);
      }
    }
  }
}
