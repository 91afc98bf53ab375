/**
 The worker's message handler over the broker's queues and the delivery table.
 First the queues as a protocol with crashes, then the handler itself.
 */
module Consumer {
  import opened Prelude
  import opened Retry
  import D = Deliveries
  import opened DeliveryResults

  // ---- The queues ---------------------------------------------------------

  /** How far a delivered message is: its copy not published, published, or published without the publisher knowing. */
  datatype Stage = Untried | Copied | Unconfirmed

  /** A delivered message awaits its ack. */
  datatype InFlight = InFlight(msg: Message, stage: Stage)

  datatype Broker = Broker(
    main: seq<Message>, inFlight: seq<InFlight>, retry: seq<Message>, dlq: seq<Message>, done: seq<Message>)

  datatype Step =
    | Produce(m: Message)
    | Deliver
    | Publish(k: nat, o: Outcome)                  // the retry copy or dead letter reaches its queue
    | LostConfirm(k: nat, o: Outcome)              // it does, but the publish raises all the same
    | Ack(k: nat, o: Outcome)                      // ack after a publish, or after the work is done
    | RejectRequeue(k: nat, o: Outcome, publishOk: bool)
    | TtlExpire(stamps: Headers)
    | Crash                                        // unacked messages are redelivered

  function Drop<T>(s: seq<T>, k: nat): seq<T>
    requires k < |s|
  {
    s[..k] + s[k + 1..]
  }

  predicate Handling(cfg: Config, b: Broker, k: nat, o: Outcome) {
    k < |b.inFlight| && PossibleOutcome(cfg, b.inFlight[k].msg, o)
  }

  /** The handler publishes a copy of this message: to the retry queue or the DLQ. */
  predicate Copies(cfg: Config, m: Message, o: Outcome) {
    Settle(cfg, m, o, true).RetryLater? || Settle(cfg, m, o, true).DeadLetter?
  }

  /** The copy reaches its queue. */
  function Stored(cfg: Config, b: Broker, k: nat, o: Outcome, stage: Stage): Broker
    requires k < |b.inFlight| && Copies(cfg, b.inFlight[k].msg, o)
  {
    var b' := b.(inFlight := b.inFlight[k := b.inFlight[k].(stage := stage)]);
    match Settle(cfg, b.inFlight[k].msg, o, true)
    case RetryLater(copy) => b'.(retry := b.retry + [copy])
    case DeadLetter(copy) => b'.(dlq := b.dlq + [copy])
  }

  predicate Enabled(cfg: Config, b: Broker, step: Step) {
    match step
    case Produce(_) => true
    case Deliver => b.main != []
    case Publish(k, o) =>
      Handling(cfg, b, k, o) && b.inFlight[k].stage.Untried? && Copies(cfg, b.inFlight[k].msg, o)
    case LostConfirm(k, o) =>
      Handling(cfg, b, k, o) && b.inFlight[k].stage.Untried? && Copies(cfg, b.inFlight[k].msg, o)
    case Ack(k, o) =>
      Handling(cfg, b, k, o) && ((o.Done? && b.inFlight[k].stage.Untried?) || b.inFlight[k].stage.Copied?)
    case RejectRequeue(k, o, publishOk) =>
      && Handling(cfg, b, k, o) && !b.inFlight[k].stage.Copied?
      && (b.inFlight[k].stage.Unconfirmed? ==> !publishOk)
      && Settle(cfg, b.inFlight[k].msg, o, publishOk).Requeue?
    case TtlExpire(_) => b.retry != []
    case Crash => true
  }

  function Messages(s: seq<InFlight>): seq<Message> {
    if s == [] then [] else [s[0].msg] + Messages(s[1..])
  }

  function Next(cfg: Config, b: Broker, step: Step): Broker
    requires Enabled(cfg, b, step)
  {
    match step
    case Produce(m) => b.(main := b.main + [m])
    case Deliver => b.(main := b.main[1..], inFlight := b.inFlight + [InFlight(b.main[0], Untried)])
    case Publish(k, o) => Stored(cfg, b, k, o, Copied)
    case LostConfirm(k, o) => Stored(cfg, b, k, o, Unconfirmed)
    case Ack(k, _) =>
      b.(inFlight := Drop(b.inFlight, k),
         done := if b.inFlight[k].stage.Copied? then b.done else b.done + [b.inFlight[k].msg])
    case RejectRequeue(k, _, _) =>
      b.(inFlight := Drop(b.inFlight, k), main := [b.inFlight[k].msg] + b.main)
    case TtlExpire(stamps) =>
      b.(retry := b.retry[1..], main := b.main + [Expire(cfg, b.retry[0], stamps)])
    case Crash => b.(inFlight := [], main := Messages(b.inFlight) + b.main)
  }

  // ---- Conservation -------------------------------------------------------

  /** How many of the messages carry body `x`. */
  function Bodies(s: seq<Message>, x: string): nat {
    if s == [] then 0 else (if s[0].body == x then 1 else 0) + Bodies(s[1..], x)
  }

  /** Deliveries still standing for their message: a copied one is already counted where its copy is. */
  function Standing(s: seq<InFlight>, x: string): nat {
    if s == [] then 0 else (if !s[0].stage.Copied? && s[0].msg.body == x then 1 else 0) + Standing(s[1..], x)
  }

  /** Deliveries whose copy is published but whose ack is still to come. */
  function CopiedBodies(s: seq<InFlight>, x: string): nat {
    if s == [] then 0 else (if s[0].stage.Copied? && s[0].msg.body == x then 1 else 0) + CopiedBodies(s[1..], x)
  }

  /** How often body `x` is in the main queue, in flight, in the retry queue, in the DLQ or done. */
  function Held(b: Broker, x: string): nat {
    Bodies(b.main, x) + Standing(b.inFlight, x) + Bodies(b.retry, x) + Bodies(b.dlq, x) + Bodies(b.done, x)
  }

  lemma {:induction false} BodiesConcat(s: seq<Message>, t: seq<Message>, x: string)
    ensures Bodies(s + t, x) == Bodies(s, x) + Bodies(t, x)
  {
    if s == [] {
      assert s + t == t;
    } else {
      assert (s + t)[1..] == s[1..] + t;
      BodiesConcat(s[1..], t, x);
    }
  }

  lemma {:induction false} StandingConcat(s: seq<InFlight>, t: seq<InFlight>, x: string)
    ensures Standing(s + t, x) == Standing(s, x) + Standing(t, x)
  {
    if s == [] {
      assert s + t == t;
    } else {
      assert (s + t)[1..] == s[1..] + t;
      StandingConcat(s[1..], t, x);
    }
  }

  lemma StandingAt(s: seq<InFlight>, k: nat, f: InFlight, x: string)
    requires k < |s|
    ensures Standing(s[k := f], x) == Standing(Drop(s, k), x) + (if !f.stage.Copied? && f.msg.body == x then 1 else 0)
  {
    assert s[k := f] == s[..k] + ([f] + s[k + 1..]);
    StandingConcat(s[..k], [f] + s[k + 1..], x);
    StandingConcat([f], s[k + 1..], x);
    StandingConcat(s[..k], s[k + 1..], x);
  }

  lemma {:induction false} MessagesBodies(s: seq<InFlight>, x: string)
    ensures Bodies(Messages(s), x) == Standing(s, x) + CopiedBodies(s, x)
  {
    if s == [] {
    } else {
      assert Messages(s)[1..] == Messages(s[1..]);
      MessagesBodies(s[1..], x);
    }
  }

  function Produced(step: Step, x: string): nat {
    if step.Produce? && step.m.body == x then 1 else 0
  }

  /**
   Bodies a step doubles: a crash redelivers what was published as a copy and not yet acked; after a lost
   confirm the original goes back to the queue although its copy is stored.
   */
  function Doubled(b: Broker, step: Step, x: string): nat {
    match step
    case Crash => CopiedBodies(b.inFlight, x)
    case LostConfirm(k, _) => if k < |b.inFlight| && b.inFlight[k].msg.body == x then 1 else 0
    case _ => 0
  }

  /** No step loses a message or changes a body; only a crash before an ack and a lost confirm add a copy. */
  lemma StepConserves(cfg: Config, b: Broker, step: Step, x: string)
    requires Enabled(cfg, b, step)
    ensures Held(Next(cfg, b, step), x) == Held(b, x) + Produced(step, x) + Doubled(b, step, x)
  {
    match step
    case Produce(m) => BodiesConcat(b.main, [m], x);
    case Deliver => StandingConcat(b.inFlight, [InFlight(b.main[0], Untried)], x);
    case Publish(k, o) => StoredBodies(cfg, b, k, o, Copied, x);
    case LostConfirm(k, o) => StoredBodies(cfg, b, k, o, Unconfirmed, x);
    case Ack(k, o) => AckConserves(cfg, b, k, o, x);
    case RejectRequeue(k, o, publishOk) => RejectConserves(cfg, b, step, x);
    case TtlExpire(stamps) => BodiesConcat(b.main, [Expire(cfg, b.retry[0], stamps)], x);
    case Crash =>
      MessagesBodies(b.inFlight, x);
      BodiesConcat(Messages(b.inFlight), b.main, x);
  }

  lemma StoredBodies(cfg: Config, b: Broker, k: nat, o: Outcome, stage: Stage, x: string)
    requires k < |b.inFlight| && b.inFlight[k].stage.Untried? && Copies(cfg, b.inFlight[k].msg, o) && !stage.Untried?
    ensures Held(Stored(cfg, b, k, o, stage), x)
            == Held(b, x) + (if stage.Unconfirmed? && b.inFlight[k].msg.body == x then 1 else 0)
  {
    StandingAt(b.inFlight, k, b.inFlight[k].(stage := stage), x);
    StandingAt(b.inFlight, k, b.inFlight[k], x);
    assert b.inFlight[k := b.inFlight[k]] == b.inFlight;
    match Settle(cfg, b.inFlight[k].msg, o, true)
    case RetryLater(copy) => BodiesConcat(b.retry, [copy], x);
    case DeadLetter(copy) => BodiesConcat(b.dlq, [copy], x);
  }

  lemma AckConserves(cfg: Config, b: Broker, k: nat, o: Outcome, x: string)
    requires Enabled(cfg, b, Ack(k, o))
    ensures Held(Next(cfg, b, Ack(k, o)), x) == Held(b, x)
  {
    StandingAt(b.inFlight, k, b.inFlight[k], x);
    assert b.inFlight[k := b.inFlight[k]] == b.inFlight;
    BodiesConcat(b.done, [b.inFlight[k].msg], x);
  }

  lemma RejectConserves(cfg: Config, b: Broker, step: Step, x: string)
    requires Enabled(cfg, b, step) && step.RejectRequeue?
    ensures Held(Next(cfg, b, step), x) == Held(b, x)
  {
    StandingAt(b.inFlight, step.k, b.inFlight[step.k], x);
    assert b.inFlight[step.k := b.inFlight[step.k]] == b.inFlight;
    BodiesConcat([b.inFlight[step.k].msg], b.main, x);
  }

  predicate ValidRun(cfg: Config, b: Broker, steps: seq<Step>)
    decreases |steps|
  {
    steps == [] || (Enabled(cfg, b, steps[0]) && ValidRun(cfg, Next(cfg, b, steps[0]), steps[1..]))
  }

  function After(cfg: Config, b: Broker, steps: seq<Step>): Broker
    requires ValidRun(cfg, b, steps)
    decreases |steps|
  {
    if steps == [] then b else After(cfg, Next(cfg, b, steps[0]), steps[1..])
  }

  function ProducedIn(steps: seq<Step>, x: string): nat {
    if steps == [] then 0 else Produced(steps[0], x) + ProducedIn(steps[1..], x)
  }

  function DoubledIn(cfg: Config, b: Broker, steps: seq<Step>, x: string): nat
    requires ValidRun(cfg, b, steps)
    decreases |steps|
  {
    if steps == [] then 0
    else Doubled(b, steps[0], x) + DoubledIn(cfg, Next(cfg, b, steps[0]), steps[1..], x)
  }

  /**
   Conservation over runs: what was produced is held, each copy in exactly one place, plus exactly the
   copies doubled by crashes and lost confirms. So nothing is ever lost.
   */
  lemma {:induction false} RunConserves(cfg: Config, b: Broker, steps: seq<Step>, x: string)
    requires ValidRun(cfg, b, steps)
    ensures Held(After(cfg, b, steps), x) == Held(b, x) + ProducedIn(steps, x) + DoubledIn(cfg, b, steps, x)
    decreases |steps|
  {
    if steps == [] {
    } else {
      StepConserves(cfg, b, steps[0], x);
      RunConserves(cfg, Next(cfg, b, steps[0]), steps[1..], x);
    }
  }

  /** A run without crashes and lost confirms holds exactly what it was given: nothing lost, nothing doubled. */
  lemma {:induction false} CalmRunConserves(cfg: Config, b: Broker, steps: seq<Step>, x: string)
    requires ValidRun(cfg, b, steps)
    requires forall i | 0 <= i < |steps| :: !steps[i].Crash? && !steps[i].LostConfirm?
    ensures Held(After(cfg, b, steps), x) == Held(b, x) + ProducedIn(steps, x)
    decreases |steps|
  {
    if steps == [] {
    } else {
      assert !steps[0].Crash? && !steps[0].LostConfirm?;
      StepConserves(cfg, b, steps[0], x);
      CalmRunConserves(cfg, Next(cfg, b, steps[0]), steps[1..], x);
    }
  }

  // ---- The handler --------------------------------------------------------

  /** prepare_event_deliveries: its transaction commits these new rows, or rolls back. */
  datatype Ingest = IngestRaises(kind: ErrorKind, reason: string) | IngestCommits(newRows: D.Table)

  /** How the publish of a copy ends: stored and confirmed, not stored, or stored without a confirm. */
  datatype PublishEnd = Confirmed | Refused | Lost

  /**
   Everything outside the handler: the database, the senders, the broker. `meanwhile` is what others
   commit to the delivery table between this handler's claim and its finalize.
   */
  datatype Environment = Environment(
    eventId: D.EventId, now: Time, locked: set<D.DeliveryId>, ingest: Ingest, meanwhile: D.Table -> D.Table,
    sending: Sending, finalizeRaises: Option<ErrorKind>, publish: PublishEnd)

  const CLAIM_LIMIT: nat := 1000

  /** The tables a handling goes through: after ingest, at its finalize; what it claimed; whether it finalized. */
  datatype Trace = Trace(ingested: D.Table, claimed: seq<D.ClaimedDelivery>, mid: D.Table, finalized: bool)

  /** The claim of a handling is the claim statement on the ingested table, and others act before the finalize. */
  predicate ClaimedIn(t: Trace, env: Environment, worker: D.WorkerId) {
    && D.IsClaim(t.ingested, env.eventId, env.now, 1000, env.locked, D.IdSet(t.claimed))
    && var claimedRows := D.ClaimRows(t.ingested, D.IdSet(t.claimed), worker, env.now);
       Returned(claimedRows, t.claimed) && t.mid == env.meanwhile(claimedRows)
  }

  /** How the handling of a message ends, by what its body is and what the steps of the try block do. */
  predicate EndsAs(cfg: Config, m: Message, env: Environment, claimed: seq<D.ClaimedDelivery>, o: Outcome) {
    match cfg.decode(m.body)
    case NotJson => o.Raised? && o.kind == Unprocessable && o.headers == None
    case NotAnObject => o.Raised? && o.kind == Retryable && o.headers == None
    case BadEnvelope => o.Raised? && o.kind == Unprocessable && o.headers == None
    case Envelope(envelope) =>
      var headers := Some(MergedHeaders(envelope, m));
      if env.ingest.IngestRaises? then o == Raised(env.ingest.kind, env.ingest.reason, headers)
      else if claimed == [] then o == Done
      else match env.finalizeRaises
        case Some(kind) => o.Raised? && o.kind == kind && o.headers == headers
        case None =>
          if env.sending.SendRaises? then o == Raised(env.sending.kind, env.sending.reason, headers) else o == Done
  }

  /** The outcomes the queue protocol allows for a body are exactly those a handling of it can have. */
  lemma PossibleIsReached(cfg: Config, m: Message, o: Outcome)
    ensures PossibleOutcome(cfg, m, o) <==>
              exists env: Environment, claimed: seq<D.ClaimedDelivery> :: EndsAs(cfg, m, env, claimed, o)
  {
    var idle := Environment(0, 0, {}, IngestCommits(map[]), (t: D.Table) => t, Sends(_ => D.SendOk), None, Confirmed);
    if PossibleOutcome(cfg, m, o) {
      var env := if o.Raised? then idle.(ingest := IngestRaises(o.kind, o.reason)) else idle;
      assert EndsAs(cfg, m, env, [], o);
    }
  }

  /** The tables around a handling: nothing without an ingest; else its rows, its claim, and its finalize. */
  ghost predicate Processed(cfg: Config, m: Message, env: Environment, worker: D.WorkerId, before: D.Table,
                            after: D.Table, t: Trace)
  {
    // A prepare that raises is rolled back; nothing is claimed.
    if env.ingest.IngestRaises? || !cfg.decode(m.body).Envelope? then
      t.claimed == [] && !t.finalized && after == before
    else
      && t.ingested == before + env.ingest.newRows
      && (t.claimed == [] ==>
            after == t.ingested && D.IsClaim(t.ingested, env.eventId, env.now, 1000, env.locked, {}))
      && (t.claimed != [] ==> ClaimedIn(t, env, worker))
      // Before an ack of its own, every claimed delivery has been finalized, unless the finalize raises.
      && (t.finalized <==> t.claimed != [] && env.finalizeRaises.None?)
      && (t.claimed != [] && !t.finalized ==> after == t.mid)
      // Each claimed row still held then gets exactly its own result; no other row is touched.
      && (t.finalized ==> Settled(t.mid, after, worker, t.claimed, env.sending))
  }

  /**
   Where a handled message goes. A permanent failure, or one with the count used up, goes to the DLQ whatever the
   settings; a passing one goes to the retry queue if broker retries are on and its headers are known; any other
   failure, and a copy whose publish raised, puts the original first in its queue again.
   */
  predicate Routed(cfg: Config, b: Broker, b': Broker, k: nat, o: Outcome, end: PublishEnd)
    requires k < |b.inFlight|
  {
    var m := b.inFlight[k].msg;
    var dies := o.Raised? && (o.kind == Unprocessable || RetryCount(cfg, m) >= cfg.maxRetries);
    var retries := o.Raised? && !dies && cfg.useBrokerRetries && o.headers.Some?;
    && b'.inFlight == b.inFlight[..k] + b.inFlight[k + 1..]
    && b'.done == (if o.Done? then b.done + [m] else b.done)
    && (if dies && end != Refused then Appended(b.dlq, b'.dlq) && IsDeadLetter(cfg, m, o, b'.dlq[|b.dlq|])
        else b'.dlq == b.dlq)
    && (if retries && end != Refused then Appended(b.retry, b'.retry) && IsRetryCopy(cfg, m, o, b'.retry[|b.retry|])
        else b'.retry == b.retry)
    && b'.main == if o.Done? || ((dies || retries) && end == Confirmed) then b.main else [m] + b.main
  }

  /** One message more, at the end. */
  predicate Appended(before: seq<Message>, after: seq<Message>) {
    |after| == |before| + 1 && after[..|before|] == before
  }

  class NotificationWorker {
    const cfg: Config
    const workerId: D.WorkerId
    const deliveries: D.DeliveryTable
    var broker: Broker

    constructor (cfg: Config, workerId: D.WorkerId, deliveries: D.DeliveryTable, broker: Broker)
      ensures this.cfg == cfg && this.workerId == workerId && this.deliveries == deliveries && this.broker == broker
    {
      this.cfg, this.workerId, this.deliveries, this.broker := cfg, workerId, deliveries, broker;
    }

    /** The try block. */
    method Process(m: Message, env: Environment) returns (o: Outcome, ghost t: Trace)
      requires env.ingest.IngestCommits? ==> env.ingest.newRows.Keys !! deliveries.rows.Keys
      modifies deliveries
      ensures PossibleOutcome(cfg, m, o) && EndsAs(cfg, m, env, t.claimed, o)
      ensures Processed(cfg, m, env, workerId, old(deliveries.rows), deliveries.rows, t)
    {
      t := Trace(deliveries.rows, [], deliveries.rows, false);
      match cfg.decode(m.body) {
        case NotJson => return Raised(Unprocessable, "JSONDecodeError", None), t;
        case NotAnObject => return Raised(Retryable, "AttributeError", None), t;
        case BadEnvelope => return Raised(Unprocessable, "TypeError", None), t;
        case Envelope(envelope) =>
          var headers := Some(MergedHeaders(envelope, m));
          if env.ingest.IngestRaises? {
            return Raised(env.ingest.kind, env.ingest.reason, headers), t;
          }
          deliveries.rows := deliveries.rows + env.ingest.newRows;
          t := t.(ingested := deliveries.rows);
          var tasks := deliveries.ClaimDeliveriesToSend(env.eventId, env.now, workerId, CLAIM_LIMIT, env.locked);
          if tasks == [] {
            assert D.IdSet(tasks) == {};
            NothingClaimed(t.ingested, workerId, env.now);
            return Done, t;
          }
          var results := Results(tasks, env.sending);
          deliveries.rows := env.meanwhile(deliveries.rows);
          t := t.(claimed := tasks, mid := deliveries.rows);
          if env.finalizeRaises.Some? {
            return Raised(env.finalizeRaises.value, "finalize", headers), t;
          }
          FinalizeSettles(deliveries.rows, workerId, tasks, env.sending);
          var rowcount := deliveries.FinalizeDeliveryResults(workerId, results);
          t := t.(finalized := true);
          if env.sending.SendRaises? {
            o := Raised(env.sending.kind, env.sending.reason, headers);
          } else {
            o := Done;
          }
      }
    }

    /** on_message for the delivery at position `k`, when the settle calls succeed. */
    method OnMessage(k: nat, env: Environment) returns (ghost o: Outcome, ghost t: Trace)
      requires k < |broker.inFlight| && broker.inFlight[k].stage.Untried?
      requires env.ingest.IngestCommits? ==> env.ingest.newRows.Keys !! deliveries.rows.Keys
      modifies this`broker, deliveries
      ensures Handling(cfg, old(broker), k, o)
      // The steps of the queue protocol it performs: ack, publish then ack, or requeue.
      ensures OnMessageSteps(cfg, old(broker), broker, k, o, env.publish)
      ensures forall x :: Held(broker, x) == Held(old(broker), x)
                + if LosesConfirm(cfg, old(broker), k, o, env.publish) && old(broker).inFlight[k].msg.body == x then 1
                  else 0
      // An ack that loses claimed deliveries' results still leaves a copy of the message behind.
      ensures t.claimed != [] && !t.finalized ==>
                Settle(cfg, old(broker).inFlight[k].msg, o, env.publish.Confirmed?) != Complete
      ensures EndsAs(cfg, old(broker).inFlight[k].msg, env, t.claimed, o)
      ensures Processed(cfg, old(broker).inFlight[k].msg, env, workerId, old(deliveries.rows), deliveries.rows, t)
      // The queues, decided from the outcome alone.
      ensures Routed(cfg, old(broker), broker, k, o, env.publish)
    {
      hide Settled, ClaimedIn, Results, Processed, EndsAs, Routed, Bodies, Standing;
      ghost var before := broker;
      var m := broker.inFlight[k].msg;
      var outcome;
      outcome, t := Process(m, env);
      o := outcome;
      match outcome {
        case Done =>
          AckDone(k, outcome);
        case Raised(kind, _, headers) =>
          var retryCount := RetryCount(cfg, m) + 1;
          if kind == Unprocessable || retryCount > cfg.maxRetries {
            PublishThenSettle(DlqCopy(cfg, m, DlqReason(outcome)), true, k, outcome, env.publish);
          } else if cfg.useBrokerRetries && headers.Some? {
            PublishThenSettle(RetryCopy(cfg, m, headers.value), false, k, outcome, env.publish);
          } else {
            Reject(k, outcome, env.publish.Confirmed?);
          }
      }
      StepsRoute(cfg, before, broker, k, o, env.publish);
    }

    method AckDone(k: nat, ghost o: Outcome)
      requires Handling(cfg, broker, k, o) && broker.inFlight[k].stage.Untried? && o.Done?
      modifies this`broker
      ensures Enabled(cfg, old(broker), Ack(k, o)) && broker == Next(cfg, old(broker), Ack(k, o))
      ensures forall x :: Held(broker, x) == Held(old(broker), x)
    {
      forall x ensures Held(Next(cfg, broker, Ack(k, o)), x) == Held(broker, x) {
        StepConserves(cfg, broker, Ack(k, o), x);
      }
      broker := broker.(inFlight := Drop(broker.inFlight, k), done := broker.done + [broker.inFlight[k].msg]);
    }

    /** Publish the copy; ack the original if that succeeds, else requeue it. */
    method PublishThenSettle(copy: Message, toDlq: bool, k: nat, ghost o: Outcome, end: PublishEnd)
      requires Handling(cfg, broker, k, o) && broker.inFlight[k].stage.Untried? && o.Raised?
      requires Settle(cfg, broker.inFlight[k].msg, o, true) == if toDlq then DeadLetter(copy) else RetryLater(copy)
      requires Settle(cfg, broker.inFlight[k].msg, o, false).Requeue?
      modifies this`broker
      ensures OnMessageSteps(cfg, old(broker), broker, k, o, end)
      ensures forall x :: Held(broker, x) == Held(old(broker), x)
                + if LosesConfirm(cfg, old(broker), k, o, end) && old(broker).inFlight[k].msg.body == x then 1 else 0
    {
      ghost var before := broker;
      var m := broker.inFlight[k].msg;
      if !end.Refused? {
        if toDlq {
          broker := broker.(dlq := broker.dlq + [copy]);
        } else {
          broker := broker.(retry := broker.retry + [copy]);
        }
      }
      if end.Confirmed? {
        broker := broker.(inFlight := Drop(broker.inFlight, k));
      } else {
        broker := broker.(inFlight := Drop(broker.inFlight, k), main := [m] + broker.main);
      }
      SettledByProtocol(cfg, before, broker, k, o, copy, toDlq, end);
    }

    method Reject(k: nat, ghost o: Outcome, ghost publishOk: bool)
      requires Handling(cfg, broker, k, o) && broker.inFlight[k].stage.Untried?
      requires Settle(cfg, broker.inFlight[k].msg, o, publishOk).Requeue?
      modifies this`broker
      ensures Enabled(cfg, old(broker), RejectRequeue(k, o, publishOk))
      ensures broker == Next(cfg, old(broker), RejectRequeue(k, o, publishOk))
      ensures forall x :: Held(broker, x) == Held(old(broker), x)
    {
      forall x ensures Held(Next(cfg, broker, RejectRequeue(k, o, publishOk)), x) == Held(broker, x) {
        StepConserves(cfg, broker, RejectRequeue(k, o, publishOk), x);
      }
      broker := broker.(inFlight := Drop(broker.inFlight, k), main := [broker.inFlight[k].msg] + broker.main);
    }
  }

  lemma NothingClaimed(rows: D.Table, worker: D.WorkerId, now: Time)
    ensures D.ClaimRows(rows, D.IdSet([]), worker, now) == rows
  {
    assert D.IdSet([]) == {};
  }

  /** The copy was stored although its publish raised. */
  predicate LosesConfirm(cfg: Config, b: Broker, k: nat, o: Outcome, end: PublishEnd)
    requires k < |b.inFlight|
  {
    end.Lost? && Copies(cfg, b.inFlight[k].msg, o)
  }

  /** From b to b' by the protocol's steps for one handled delivery. */
  predicate OnMessageSteps(cfg: Config, b: Broker, b': Broker, k: nat, o: Outcome, end: PublishEnd)
    requires Handling(cfg, b, k, o)
  {
    match Settle(cfg, b.inFlight[k].msg, o, end.Confirmed?)
    case Complete => Enabled(cfg, b, Ack(k, o)) && b' == Next(cfg, b, Ack(k, o))
    case Requeue =>
      var reject := RejectRequeue(k, o, end.Confirmed?);
      if LosesConfirm(cfg, b, k, o, end) then
        && Enabled(cfg, b, LostConfirm(k, o))
        && var mid := Next(cfg, b, LostConfirm(k, o)); Enabled(cfg, mid, reject) && b' == Next(cfg, mid, reject)
      else Enabled(cfg, b, reject) && b' == Next(cfg, b, reject)
    case _ =>
      && Enabled(cfg, b, Publish(k, o))
      && var mid := Next(cfg, b, Publish(k, o)); Enabled(cfg, mid, Ack(k, o)) && b' == Next(cfg, mid, Ack(k, o))
  }

  /** The protocol's steps move the message as its outcome says. */
  lemma StepsRoute(cfg: Config, b: Broker, b': Broker, k: nat, o: Outcome, end: PublishEnd)
    requires Handling(cfg, b, k, o) && b.inFlight[k].stage.Untried? && OnMessageSteps(cfg, b, b', k, o, end)
    ensures Routed(cfg, b, b', k, o, end)
  {
    var m := b.inFlight[k].msg;
    if o.Raised? { CopiesHeaderByHeader(cfg, m, o); }
    hide PossibleOutcome, IsDeadLetter, IsRetryCopy, RetryCopy, DlqCopy, RetryCount;
  }

  lemma SettledByProtocol(cfg: Config, b: Broker, b': Broker, k: nat, o: Outcome, copy: Message, toDlq: bool,
                          end: PublishEnd)
    requires Handling(cfg, b, k, o) && b.inFlight[k].stage.Untried? && o.Raised?
    requires Settle(cfg, b.inFlight[k].msg, o, true) == if toDlq then DeadLetter(copy) else RetryLater(copy)
    requires Settle(cfg, b.inFlight[k].msg, o, false).Requeue?
    requires var stored := if end.Refused? then b else if toDlq then b.(dlq := b.dlq + [copy])
                           else b.(retry := b.retry + [copy]);
             b' == stored.(inFlight := Drop(b.inFlight, k),
                           main := if end.Confirmed? then b.main else [b.inFlight[k].msg] + b.main)
    ensures OnMessageSteps(cfg, b, b', k, o, end)
    ensures forall x :: Held(b', x) == Held(b, x)
              + if LosesConfirm(cfg, b, k, o, end) && b.inFlight[k].msg.body == x then 1 else 0
  {
    match end
    case Confirmed =>
      var mid := Next(cfg, b, Publish(k, o));
      assert Drop(mid.inFlight, k) == Drop(b.inFlight, k);
      forall x ensures Held(b', x) == Held(b, x) {
        StepConserves(cfg, b, Publish(k, o), x);
        StepConserves(cfg, mid, Ack(k, o), x);
      }
    case Refused =>
      forall x ensures Held(b', x) == Held(b, x) {
        StepConserves(cfg, b, RejectRequeue(k, o, false), x);
      }
    case Lost =>
      var mid := Next(cfg, b, LostConfirm(k, o));
      assert Drop(mid.inFlight, k) == Drop(b.inFlight, k);
      forall x ensures Held(b', x) == Held(b, x) + if b.inFlight[k].msg.body == x then 1 else 0 {
        StepConserves(cfg, b, LostConfirm(k, o), x);
        StepConserves(cfg, mid, RejectRequeue(k, o, false), x);
      }
  }
}
