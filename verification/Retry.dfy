/**
 Messages, their headers, and what the worker does with a message it could not
 process: the retry copy, the dead letter, the requeue.
 */
module Retry {
  import opened Prelude

  /** A header value; AMQP allows numbers and nulls beside text. */
  datatype Value = Text(text: string) | Number(n: int) | Null

  type Headers = map<string, Value>

  datatype Message = Message(
    body: string, headers: Headers, routingKey: string, messageId: Option<string>, correlationId: Option<string>)

  /** What json.loads and the two .get calls make of a body. */
  datatype Decoded =
    | NotJson                    // ValueError
    | NotAnObject                // AttributeError, before the header map exists
    | BadEnvelope                // "headers" is not a mapping: TypeError
    | Envelope(headers: Headers)

  /** The worker's settings, and the parts of Python the model leaves abstract. */
  datatype Config = Config(
    maxRetries: int, useBrokerRetries: bool, retryRoutingKey: string, retryReturnTopic: string,
    dlqRoutingKey: string, decode: string -> Decoded, parseInt: string -> Option<int>)

  const ORIGINAL := "x-original-routing-key"
  const COUNT := "x-retry-count"
  const REASON := "x-dlq-reason"

  function SetDefault(h: Headers, key: string, v: Value): Headers {
    if key in h then h else h[key := v]
  }

  function OrNull(s: Option<string>): Value {
    match s case None => Null case Some(text) => Text(text)
  }

  predicate Truthy(v: Value) {
    match v case Text(text) => text != "" case Number(n) => n != 0 case Null => false
  }

  /** _get_retry_count: anything int() rejects counts as zero. */
  function RetryCount(cfg: Config, m: Message): int {
    if COUNT !in m.headers then 0
    else match m.headers[COUNT]
      case Number(n) => n
      case Text(text) => (match cfg.parseInt(text) case None => 0 case Some(n) => n)
      case Null => 0
  }

  function AmqpHeaders(m: Message): Headers {
    SetDefault(SetDefault(m.headers, "message_id", OrNull(m.messageId)), "correlation_id", OrNull(m.correlationId))
  }

  /** headers.get("x-original-routing-key") or msg.routing_key or "" */
  function Topic(merged: Headers, routingKey: string): Value {
    if ORIGINAL in merged && Truthy(merged[ORIGINAL]) then merged[ORIGINAL] else Text(routingKey)
  }

  /** The topic a message is processed under. */
  function TopicOf(envelope: Headers, m: Message): Value {
    Topic(envelope + AmqpHeaders(m), m.routingKey)
  }

  /** The header map handed to the rest of the pipeline: the message's headers win over the envelope's. */
  function MergedHeaders(envelope: Headers, m: Message): (h: Headers)
    ensures ORIGINAL in h
  {
    SetDefault(envelope + AmqpHeaders(m), ORIGINAL, TopicOf(envelope, m))
  }

  function RetryHeaders(h: Headers, routingKey: string, count: int): Headers {
    h[ORIGINAL := if ORIGINAL in h then h[ORIGINAL] else Text(routingKey)][COUNT := Number(count)]
  }

  function RetryCopy(cfg: Config, m: Message, h: Headers): Message {
    m.(headers := RetryHeaders(h, m.routingKey, RetryCount(cfg, m) + 1), routingKey := cfg.retryRoutingKey)
  }

  function DlqCopy(cfg: Config, m: Message, reason: string): Message {
    m.(headers := SetDefault(m.headers[REASON := Text(reason)], ORIGINAL, Text(m.routingKey)),
       routingKey := cfg.dlqRoutingKey)
  }

  /** Headers a broker adds to a message it dead-letters: whatever they are, not the worker's own two. */
  predicate BrokerStamps(stamps: Headers) {
    COUNT !in stamps && ORIGINAL !in stamps
  }

  /** The TTL of the retry queue runs out: back to the main queue under the retry-return topic. */
  function Expire(cfg: Config, m: Message, stamps: Headers): Message {
    m.(headers := m.headers + stamps, routingKey := cfg.retryReturnTopic)
  }

  datatype ErrorKind = Unprocessable | Retryable

  /** How the try block ends; `headers` is None when it failed before the header map was bound. */
  datatype Outcome = Done | Raised(kind: ErrorKind, reason: string, headers: Option<Headers>)

  /** The outcomes a body allows. */
  predicate PossibleOutcome(cfg: Config, m: Message, o: Outcome) {
    match cfg.decode(m.body)
    case NotJson => o.Raised? && o.kind == Unprocessable && o.headers == None
    case NotAnObject => o.Raised? && o.kind == Retryable && o.headers == None
    case BadEnvelope => o.Raised? && o.kind == Unprocessable && o.headers == None
    case Envelope(envelope) => o.Done? || o.headers == Some(MergedHeaders(envelope, m))
  }

  datatype Settlement =
    | Complete
    | RetryLater(copy: Message)
    | DeadLetter(copy: Message)
    | Requeue

  function DlqReason(o: Outcome): string
    requires o.Raised?
  {
    (if o.kind == Unprocessable then "unprocessable_message: " else "max_retries_exceeded: ") + o.reason
  }

  /** The except block: `publishOk` says whether its one publish succeeds. */
  function Settle(cfg: Config, m: Message, o: Outcome, publishOk: bool): Settlement {
    if o.Done? then Complete
    else if o.kind == Unprocessable || RetryCount(cfg, m) + 1 > cfg.maxRetries then
      (if publishOk then DeadLetter(DlqCopy(cfg, m, DlqReason(o))) else Requeue)
    // dict(headers) raises when headers was never bound; that too ends in a requeue.
    else if cfg.useBrokerRetries && o.headers.Some? && publishOk then RetryLater(RetryCopy(cfg, m, o.headers.value))
    else Requeue
  }

  // ---- What the copies carry, header by header ------------------------------

  /** Same body and ids, sent where this routing key leads. */
  predicate CopyOf(m: Message, copy: Message, routingKey: string) {
    && copy.body == m.body && copy.messageId == m.messageId && copy.correlationId == m.correlationId
    && copy.routingKey == routingKey
  }

  /** Every header of h is in h', unchanged, except those among `but`, and no others are new. */
  predicate SameHeaders(h: Headers, h': Headers, but: set<string>) {
    && h.Keys - but == h'.Keys - but
    && forall k | k in h && k !in but :: k in h' && h'[k] == h[k]
  }

  predicate IsDeadLetter(cfg: Config, m: Message, o: Outcome, copy: Message) {
    && o.Raised? && CopyOf(m, copy, cfg.dlqRoutingKey) && SameHeaders(m.headers, copy.headers, {REASON, ORIGINAL})
    && REASON in copy.headers && ORIGINAL in copy.headers
    && copy.headers[REASON] == Text((if o.kind == Unprocessable then "unprocessable_message: "
                                     else "max_retries_exceeded: ") + o.reason)
    && copy.headers[ORIGINAL] == if ORIGINAL in m.headers then m.headers[ORIGINAL] else Text(m.routingKey)
  }

  predicate IsRetryCopy(cfg: Config, m: Message, o: Outcome, copy: Message) {
    && o.Raised? && o.headers.Some? && CopyOf(m, copy, cfg.retryRoutingKey)
    && SameHeaders(o.headers.value, copy.headers, {COUNT, ORIGINAL})
    && COUNT in copy.headers && ORIGINAL in copy.headers
    && copy.headers[COUNT] == Number(RetryCount(cfg, m) + 1)
    && copy.headers[ORIGINAL] ==
         if ORIGINAL in o.headers.value then o.headers.value[ORIGINAL] else Text(m.routingKey)
  }

  lemma CopiesHeaderByHeader(cfg: Config, m: Message, o: Outcome)
    requires o.Raised?
    ensures IsDeadLetter(cfg, m, o, DlqCopy(cfg, m, DlqReason(o)))
    ensures o.headers.Some? ==> IsRetryCopy(cfg, m, o, RetryCopy(cfg, m, o.headers.value))
  {
    assert REASON != ORIGINAL && COUNT != ORIGINAL by {
      assert REASON[2] == 'd' && ORIGINAL[2] == 'o' && COUNT[2] == 'r';
    }
  }

  /** Where each merged header comes from: the message, its ids, the envelope, and last the topic. */
  lemma MergedHeaderByHeader(envelope: Headers, m: Message)
    ensures var h, ids := MergedHeaders(envelope, m), {"message_id", "correlation_id"};
            && h.Keys == envelope.Keys + m.headers.Keys + ids + {ORIGINAL}
            && (forall k | k in m.headers :: h[k] == m.headers[k])
            && (forall k | k in envelope && k !in m.headers && k !in ids :: h[k] == envelope[k])
            && ("message_id" !in m.headers ==>
                  h["message_id"] == match m.messageId case Some(id) => Text(id) case None => Null)
            && ("correlation_id" !in m.headers ==>
                  h["correlation_id"] == match m.correlationId case Some(id) => Text(id) case None => Null)
            && (ORIGINAL !in m.headers && ORIGINAL !in envelope ==> h[ORIGINAL] == Text(m.routingKey))
  {
    assert "message_id"[0] == 'm' && "correlation_id"[0] == 'c' && ORIGINAL[0] == 'x';
  }

  /** The topic of a message is its original one if that is known and not empty, else its routing key. */
  lemma TopicMeans(envelope: Headers, m: Message)
    ensures var original: Value := if ORIGINAL in m.headers then m.headers[ORIGINAL]
                                   else if ORIGINAL in envelope then envelope[ORIGINAL] else Null;
            TopicOf(envelope, m) ==
              match original
              case Text(text) => Text(if text != "" then text else m.routingKey)
              case Number(n) => if n != 0 then Number(n) else Text(m.routingKey)
              case Null => Text(m.routingKey)
  {
    assert "message_id"[0] == 'm' && "correlation_id"[0] == 'c' && ORIGINAL[0] == 'x';
  }

  /** A copy is the message: same body and ids, every header it had, sent where its queue is bound. */
  lemma CopiesKeepTheMessage(cfg: Config, m: Message, o: Outcome, publishOk: bool)
    requires PossibleOutcome(cfg, m, o)
    ensures match Settle(cfg, m, o, publishOk)
            case RetryLater(copy) =>
              && copy.body == m.body && copy.messageId == m.messageId && copy.correlationId == m.correlationId
              && copy.routingKey == cfg.retryRoutingKey && RetryCount(cfg, copy) == RetryCount(cfg, m) + 1
              && forall k | k in m.headers && k != COUNT :: k in copy.headers && copy.headers[k] == m.headers[k]
            case DeadLetter(copy) =>
              && copy.body == m.body && copy.messageId == m.messageId && copy.correlationId == m.correlationId
              && copy.routingKey == cfg.dlqRoutingKey && REASON in copy.headers && ORIGINAL in copy.headers
              && forall k | k in m.headers && k != REASON :: k in copy.headers && copy.headers[k] == m.headers[k]
            case Complete => o.Done?
            case Requeue => o.Raised?
  {
  }

  // ---- The life of a message whose handling keeps failing -----------------

  /** One failing handling: what was raised, and whether the publish of the copy succeeded. */
  datatype Try = Try(kind: ErrorKind, publishOk: bool, stamps: Headers)

  datatype Life = Waiting(m: Message) | Dead(m: Message)

  function Failure(cfg: Config, m: Message, kind: ErrorKind): (o: Outcome)
    ensures PossibleOutcome(cfg, m, o) && o.Raised?
  {
    match cfg.decode(m.body)
    case NotJson => Raised(Unprocessable, "", None)
    case NotAnObject => Raised(Retryable, "", None)
    case BadEnvelope => Raised(Unprocessable, "", None)
    case Envelope(envelope) => Raised(kind, "", Some(MergedHeaders(envelope, m)))
  }

  function Handled(cfg: Config, m: Message, t: Try): Life {
    match Settle(cfg, m, Failure(cfg, m, t.kind), t.publishOk)
    case Complete => Waiting(m)
    case RetryLater(copy) => Waiting(Expire(cfg, copy, t.stamps))
    case DeadLetter(copy) => Dead(copy)
    case Requeue => Waiting(m)
  }

  function Live(cfg: Config, life: Life, tries: seq<Try>): Life
    decreases |tries|
  {
    if life.Dead? || tries == [] then life
    else Live(cfg, Handled(cfg, life.m, tries[0]), tries[1..])
  }

  function FailedPublishes(tries: seq<Try>): nat {
    if tries == [] then 0 else (if tries[0].publishOk then 0 else 1) + FailedPublishes(tries[1..])
  }

  predicate BrokerStampsOnly(tries: seq<Try>) {
    forall t | t in tries :: BrokerStamps(t.stamps)
  }

  /** Handlings a message can still fail before the next one sends it to the DLQ: the retry measure. */
  function Measure(cfg: Config, m: Message): int {
    if RetryCount(cfg, m) + 1 > cfg.maxRetries then 1 else cfg.maxRetries + 1 - RetryCount(cfg, m)
  }

  /** A successful publish lowers the measure or ends the message; a failed one leaves it alone. */
  lemma HandledMeasure(cfg: Config, m: Message, t: Try)
    requires cfg.useBrokerRetries && cfg.decode(m.body) != NotAnObject && BrokerStamps(t.stamps)
    ensures Measure(cfg, m) >= 1
    ensures Handled(cfg, m, t).m.body == m.body
    ensures !t.publishOk ==> Handled(cfg, m, t) == Waiting(m)
    ensures t.publishOk ==> Handled(cfg, m, t).Dead? || Measure(cfg, Handled(cfg, m, t).m) == Measure(cfg, m) - 1
  {
    if t.publishOk && Handled(cfg, m, t).Waiting? {
      assert RetryCount(cfg, Handled(cfg, m, t).m) == RetryCount(cfg, m) + 1;
    }
  }

  lemma {:induction false} DiesWithinMeasure(cfg: Config, m: Message, tries: seq<Try>)
    requires cfg.useBrokerRetries && cfg.decode(m.body) != NotAnObject && BrokerStampsOnly(tries)
    requires |tries| >= Measure(cfg, m) + FailedPublishes(tries)
    ensures Live(cfg, Waiting(m), tries).Dead? && Live(cfg, Waiting(m), tries).m.body == m.body
    decreases |tries|
  {
    FailedAtMost(tries);
    HandledMeasure(cfg, m, if tries == [] then Try(Retryable, false, map[]) else tries[0]);
    assert tries != [] && tries[0] in tries;
    HandledMeasure(cfg, m, tries[0]);
    var next := Handled(cfg, m, tries[0]);
    if next.Waiting? {
      DiesWithinMeasure(cfg, next.m, tries[1..]);
    }
  }

  lemma {:induction false} FailedAtMost(tries: seq<Try>)
    ensures FailedPublishes(tries) <= |tries|
  {
    if tries == [] {
    } else {
      FailedAtMost(tries[1..]);
    }
  }

  /**
   Retry termination: a message that keeps failing is handled at most max_retries + 1 times, plus
   once for every publish that failed, before it rests in the DLQ with its body unchanged.
   */
  lemma RetryTermination(cfg: Config, m: Message, tries: seq<Try>)
    requires cfg.useBrokerRetries && cfg.maxRetries >= 0 && cfg.decode(m.body) != NotAnObject
    requires RetryCount(cfg, m) == 0 && BrokerStampsOnly(tries)
    requires |tries| >= cfg.maxRetries + 1 + FailedPublishes(tries)
    ensures Live(cfg, Waiting(m), tries).Dead? && Live(cfg, Waiting(m), tries).m.body == m.body
  {
    DiesWithinMeasure(cfg, m, tries);
  }

  /**
   When a message that keeps failing is in the DLQ, read off its arrival, the settings and its failures: after
   the first publish that succeeds if its body cannot be processed or its count is used up; for an envelope
   also by a permanent failure, or once the broker has brought it back as often as it may.
   */
  predicate DeathDue(cfg: Config, m: Message, tries: seq<Try>) {
    var handled := |tries| - FailedPublishes(tries);
    && handled >= 1
    && (|| cfg.decode(m.body) == NotJson || cfg.decode(m.body) == BadEnvelope
        || RetryCount(cfg, m) >= cfg.maxRetries
        || (cfg.decode(m.body).Envelope? && exists t :: t in tries && t.publishOk && t.kind == Unprocessable)
        || (cfg.decode(m.body).Envelope? && cfg.useBrokerRetries && handled > cfg.maxRetries - RetryCount(cfg, m)))
  }

  /** What one failing handling does to a message, by its kind and whether the copy is published. */
  lemma HandledCases(cfg: Config, m: Message, t: Try)
    requires BrokerStamps(t.stamps)
    ensures !t.publishOk ==> Handled(cfg, m, t) == Waiting(m)
    ensures t.publishOk && (cfg.decode(m.body) == NotJson || cfg.decode(m.body) == BadEnvelope) ==>
              Handled(cfg, m, t).Dead?
    ensures t.publishOk && RetryCount(cfg, m) >= cfg.maxRetries ==> Handled(cfg, m, t).Dead?
    ensures t.publishOk && cfg.decode(m.body).Envelope? && t.kind == Unprocessable ==> Handled(cfg, m, t).Dead?
    ensures cfg.decode(m.body) == NotAnObject && RetryCount(cfg, m) < cfg.maxRetries ==>
              Handled(cfg, m, t) == Waiting(m)
    ensures t.publishOk && RetryCount(cfg, m) < cfg.maxRetries
            && cfg.decode(m.body).Envelope? && t.kind == Retryable ==>
              var next := Handled(cfg, m, t);
              if cfg.useBrokerRetries then
                next.Waiting? && next.m.body == m.body && RetryCount(cfg, next.m) == RetryCount(cfg, m) + 1
              else next == Waiting(m)
  {
  }

  /** The exact life of a failing message, for any failures of either kind and any publishes. */
  lemma {:induction false} DeadIff(cfg: Config, m: Message, tries: seq<Try>)
    requires BrokerStampsOnly(tries)
    ensures Live(cfg, Waiting(m), tries).Dead? <==> DeathDue(cfg, m, tries)
    decreases |tries|
  {
    if tries == [] {
    } else {
      assert tries[0] in tries;
      HandledCases(cfg, m, tries[0]);
      FailedAtMost(tries[1..]);
      var next := Handled(cfg, m, tries[0]);
      if next.Waiting? {
        DeadIff(cfg, next.m, tries[1..]);
        assert tries == [tries[0]] + tries[1..];
        hide Handled, RetryCount;
        DueLater(cfg, m, next.m, tries);
      } else {
        hide Handled, RetryCount;
      }
    }
  }

  lemma DueLater(cfg: Config, m: Message, next: Message, tries: seq<Try>)
    requires tries != [] && FailedPublishes(tries[1..]) <= |tries| - 1 && next.body == m.body
    requires cfg.decode(m.body) == NotAnObject || !tries[0].publishOk || !cfg.useBrokerRetries ==> next == m
    requires tries[0].publishOk ==> cfg.decode(m.body) != NotJson && cfg.decode(m.body) != BadEnvelope
    requires tries[0].publishOk ==> RetryCount(cfg, m) < cfg.maxRetries
    requires tries[0].publishOk && cfg.decode(m.body).Envelope? ==> tries[0].kind == Retryable
    requires tries[0].publishOk && cfg.decode(m.body).Envelope? && cfg.useBrokerRetries ==>
               RetryCount(cfg, next) == RetryCount(cfg, m) + 1
    ensures DeathDue(cfg, next, tries[1..]) <==> DeathDue(cfg, m, tries)
  {
    hide RetryCount;
    assert forall t :: t in tries <==> t == tries[0] || t in tries[1..];
    if t :| t in tries[1..] && t.publishOk && t.kind == Unprocessable {
      SomePublished(tries[1..], t);
    }
  }

  lemma {:induction false} SomePublished(tries: seq<Try>, t: Try)
    requires t in tries && t.publishOk
    ensures FailedPublishes(tries) < |tries|
    decreases |tries|
  {
    FailedAtMost(tries[1..]);
    if tries[0] != t {
      SomePublished(tries[1..], t);
    }
  }

  /** The message carries no count that int() could read. */
  predicate Uncounted(cfg: Config, m: Message) {
    COUNT in m.headers ==>
      match m.headers[COUNT]
      case Number(_) => false
      case Text(text) => cfg.parseInt(text) == None
      case Null => true
  }

  /** Such a message counts as fresh; a number, or a text that reads as one, is its count. */
  lemma CountMeans(cfg: Config, m: Message, n: int)
    ensures Uncounted(cfg, m) ==> RetryCount(cfg, m) == 0
    ensures COUNT in m.headers && m.headers[COUNT] == Number(n) ==> RetryCount(cfg, m) == n
    ensures COUNT in m.headers && m.headers[COUNT].Text? && cfg.parseInt(m.headers[COUNT].text) == Some(n) ==>
              RetryCount(cfg, m) == n
  {
  }

  /** A fresh message whose handling fails for passing reasons is dead exactly after max_retries + 1 handlings. */
  lemma FreshLife(cfg: Config, m: Message, tries: seq<Try>)
    requires cfg.useBrokerRetries && cfg.maxRetries >= 0 && cfg.decode(m.body).Envelope?
    requires Uncounted(cfg, m) && BrokerStampsOnly(tries) && forall t | t in tries :: t.kind == Retryable
    ensures Live(cfg, Waiting(m), tries).Dead? <==> |tries| - FailedPublishes(tries) >= cfg.maxRetries + 1
  {
    DeadIff(cfg, m, tries);
    CountMeans(cfg, m, 0);
  }

  /** A message leaves the loop of failures of a kind exactly when this holds on arrival. */
  predicate CanDie(cfg: Config, m: Message, kind: ErrorKind) {
    || cfg.decode(m.body) == NotJson || cfg.decode(m.body) == BadEnvelope
    || RetryCount(cfg, m) + 1 > cfg.maxRetries
    || (cfg.decode(m.body).Envelope? && (cfg.useBrokerRetries || kind == Unprocessable))
  }

  function Failures(n: nat, kind: ErrorKind): (tries: seq<Try>)
    ensures |tries| == n && BrokerStampsOnly(tries) && FailedPublishes(tries) == 0
    ensures forall t | t in tries :: t.kind == kind && t.publishOk
  {
    if n == 0 then [] else [Try(kind, true, map[])] + Failures(n - 1, kind)
  }

  /** Otherwise it is requeued unchanged for ever: no number of failures brings it to the DLQ. */
  lemma {:induction false} StuckForever(cfg: Config, m: Message, tries: seq<Try>)
    requires !CanDie(cfg, m, Retryable) && forall t | t in tries :: t.kind == Retryable
    ensures Live(cfg, Waiting(m), tries) == Waiting(m)
    decreases |tries|
  {
    if tries == [] {
    } else {
      assert tries[0] in tries;
      StuckForever(cfg, m, tries[1..]);
    }
  }

  /**
   The exact condition of the retry promise, under failures of one kind and publishes that succeed.
   A body that is valid JSON but not an object fails it whenever its count is below the limit.
   */
  lemma DiesIffCanDie(cfg: Config, m: Message, kind: ErrorKind)
    ensures (exists n: nat :: Live(cfg, Waiting(m), Failures(n, kind)).Dead?) <==> CanDie(cfg, m, kind)
  {
    hide Live, RetryCount;
    if CanDie(cfg, m, kind) {
      var n: nat := if RetryCount(cfg, m) >= cfg.maxRetries then 1 else cfg.maxRetries - RetryCount(cfg, m) + 1;
      DeadIff(cfg, m, Failures(n, kind));
      assert Failures(n, kind)[0] in Failures(n, kind);
      assert Live(cfg, Waiting(m), Failures(n, kind)).Dead?;
    } else {
      forall n: nat ensures !Live(cfg, Waiting(m), Failures(n, kind)).Dead? {
        DeadIff(cfg, m, Failures(n, kind));
      }
    }
  }

  /**
   With broker retries off, as the settings ship, every retryable failure below the limit is such a loop:
   nothing counts the attempts of a message that is only requeued.
   */
  lemma WithoutBrokerRetriesNothingCounts(cfg: Config, m: Message, tries: seq<Try>)
    requires !cfg.useBrokerRetries && RetryCount(cfg, m) + 1 <= cfg.maxRetries
    requires cfg.decode(m.body) !in {NotJson, BadEnvelope} && forall t | t in tries :: t.kind == Retryable
    ensures Live(cfg, Waiting(m), tries) == Waiting(m)
  {
    StuckForever(cfg, m, tries);
  }

  /** The concrete failure: with or without broker retries, a body that decodes to a list loops for ever. */
  lemma ListBodyLoops(cfg: Config, tries: seq<Try>)
    requires cfg.maxRetries == 5 && cfg.decode("[1]") == NotAnObject
    requires forall t | t in tries :: t.kind == Retryable
    ensures var m := Message("[1]", map[], "inventory.item.expired", None, None);
            Live(cfg, Waiting(m), tries) == Waiting(m)
  {
    StuckForever(cfg, Message("[1]", map[], "inventory.item.expired", None, None), tries);
  }

  // ---- Headers and topic over retry cycles --------------------------------

  /** One successful retry cycle: copied with its merged headers, delayed, returned. */
  function Cycle(cfg: Config, envelope: Headers, m: Message, stamps: Headers): Message {
    Expire(cfg, RetryCopy(cfg, m, MergedHeaders(envelope, m)), stamps)
  }

  function Cycles(cfg: Config, envelope: Headers, m: Message, stamps: seq<Headers>): Message
    decreases |stamps|
  {
    if stamps == [] then m else Cycles(cfg, envelope, Cycle(cfg, envelope, m, stamps[0]), stamps[1..])
  }

  /** The headers a handled message is copied with already hold every key a merge could add. */
  lemma MergedIsComplete(envelope: Headers, m: Message)
    ensures var h := MergedHeaders(envelope, m);
            envelope.Keys <= h.Keys && "message_id" in h && "correlation_id" in h
  {
  }

  /** Merging such a map again changes nothing. */
  lemma MergeIsIdempotent(envelope: Headers, m: Message)
    requires envelope.Keys <= m.headers.Keys
    requires "message_id" in m.headers && "correlation_id" in m.headers && ORIGINAL in m.headers
    ensures MergedHeaders(envelope, m) == m.headers
  {
    assert AmqpHeaders(m) == m.headers;
    assert envelope + m.headers == m.headers;
  }

  /** The header map is a fixed point of a cycle, but for the count and whatever the broker stamps on the copy. */
  lemma CycleKeepsHeaders(cfg: Config, envelope: Headers, m: Message, stamps: Headers)
    ensures MergedHeaders(envelope, Cycle(cfg, envelope, m, stamps))
            == MergedHeaders(envelope, m)[COUNT := Number(RetryCount(cfg, m) + 1)] + stamps
    ensures BrokerStamps(stamps) ==> RetryCount(cfg, Cycle(cfg, envelope, m, stamps)) == RetryCount(cfg, m) + 1
    ensures ORIGINAL in Cycle(cfg, envelope, m, stamps).headers
  {
    var h := MergedHeaders(envelope, m);
    var m' := Cycle(cfg, envelope, m, stamps);
    assert h[ORIGINAL := h[ORIGINAL]] == h;
    assert m'.headers == h[COUNT := Number(RetryCount(cfg, m) + 1)] + stamps;
    MergedIsComplete(envelope, m);
    MergeIsIdempotent(envelope, m');
  }

  /** The stamps of several cycles; a later one wins. */
  function AllStamps(stamps: seq<Headers>): Headers {
    if stamps == [] then map[] else stamps[0] + AllStamps(stamps[1..])
  }

  /** Every cycle counts once, and returns the message under the retry-return topic. */
  lemma {:induction false} CyclesCount(cfg: Config, envelope: Headers, m: Message, stamps: seq<Headers>)
    requires forall s | s in stamps :: BrokerStamps(s)
    ensures BrokerStamps(AllStamps(stamps))
    ensures RetryCount(cfg, Cycles(cfg, envelope, m, stamps)) == RetryCount(cfg, m) + |stamps|
    ensures stamps != [] ==> Cycles(cfg, envelope, m, stamps).routingKey == cfg.retryReturnTopic
    decreases |stamps|
  {
    hide Cycle, RetryCount;
    if stamps == [] {
    } else {
      assert BrokerStamps(stamps[0]);
      CycleKeepsHeaders(cfg, envelope, m, stamps[0]);
      CycleReturns(cfg, envelope, m, stamps[0]);
      CyclesCount(cfg, envelope, Cycle(cfg, envelope, m, stamps[0]), stamps[1..]);
    }
  }

  /** However many cycles, the merged headers differ from the first ones by the count and the stamps alone. */
  lemma {:induction false} CyclesKeepHeaders(cfg: Config, envelope: Headers, m: Message, stamps: seq<Headers>)
    requires stamps != [] && forall s | s in stamps :: BrokerStamps(s)
    ensures MergedHeaders(envelope, Cycles(cfg, envelope, m, stamps))
            == (MergedHeaders(envelope, m) + AllStamps(stamps))[COUNT := Number(RetryCount(cfg, m) + |stamps|)]
    decreases |stamps|
  {
    hide *;
    var next, count := Cycle(cfg, envelope, m, stamps[0]), RetryCount(cfg, m);
    assert BrokerStamps(stamps[0]);
    CyclesUnfold(cfg, envelope, m, stamps);
    CycleKeepsHeaders(cfg, envelope, m, stamps[0]);
    CyclesCount(cfg, envelope, next, stamps[1..]);
    CountOverStamps(MergedHeaders(envelope, m), stamps[0], AllStamps(stamps[1..]), count + 1, count + |stamps|);
    if |stamps| > 1 {
      CyclesKeepHeaders(cfg, envelope, next, stamps[1..]);
    } else {
      CyclesUnfold(cfg, envelope, next, stamps[1..]);
      AddNothing(stamps[0]);
    }
  }

  lemma CyclesUnfold(cfg: Config, envelope: Headers, m: Message, stamps: seq<Headers>)
    ensures Cycles(cfg, envelope, m, stamps) ==
              if stamps == [] then m else Cycles(cfg, envelope, Cycle(cfg, envelope, m, stamps[0]), stamps[1..])
    ensures AllStamps(stamps) == if stamps == [] then map[] else stamps[0] + AllStamps(stamps[1..])
  {
  }

  lemma AddNothing(stamps: Headers)
    ensures stamps + map[] == stamps
  {
  }

  lemma CycleReturns(cfg: Config, envelope: Headers, m: Message, stamps: Headers)
    ensures Cycle(cfg, envelope, m, stamps).routingKey == cfg.retryReturnTopic
  {
  }

  lemma CountOverStamps(h: Headers, first: Headers, rest: Headers, count: int, last: int)
    requires BrokerStamps(first) && BrokerStamps(rest)
    ensures (h[COUNT := Number(count)] + first + rest)[COUNT := Number(last)]
            == (h + (first + rest))[COUNT := Number(last)]
    ensures h[COUNT := Number(count)] + first == (h + first)[COUNT := Number(count)]
    ensures BrokerStamps(first + rest)
  {
  }

  /**
   Any number of cycles later a message is processed under its original topic exactly when the
   merged x-original-routing-key was not empty (or the original topic is the retry-return topic).
   */
  lemma TopicStableIff(cfg: Config, envelope: Headers, m: Message, stamps: seq<Headers>)
    requires stamps != [] && forall s | s in stamps :: BrokerStamps(s)
    ensures TopicOf(envelope, Cycles(cfg, envelope, m, stamps)) == TopicOf(envelope, m)
            <==> Truthy(MergedHeaders(envelope, m)[ORIGINAL]) || TopicOf(envelope, m) == Text(cfg.retryReturnTopic)
  {
    CyclesKeepHeaders(cfg, envelope, m, stamps);
    CyclesCount(cfg, envelope, m, stamps);
    MergedTopic(envelope, m);
    MergedTopic(envelope, Cycles(cfg, envelope, m, stamps));
  }

  /** The topic read back from the merged headers. */
  lemma MergedTopic(envelope: Headers, m: Message)
    ensures TopicOf(envelope, m) == Topic(MergedHeaders(envelope, m), m.routingKey)
  {
  }

  /** In the ordinary cases (header absent and a routing key, or header not empty) the topic never drifts. */
  lemma TopicNeverDrifts(cfg: Config, envelope: Headers, m: Message, stamps: seq<Headers>)
    requires forall s | s in stamps :: BrokerStamps(s)
    requires var h := envelope + AmqpHeaders(m);
             if ORIGINAL in h then Truthy(h[ORIGINAL]) else m.routingKey != ""
    ensures TopicOf(envelope, Cycles(cfg, envelope, m, stamps)) == TopicOf(envelope, m)
  {
    if stamps != [] { TopicStableIff(cfg, envelope, m, stamps); }
  }

  /** An empty x-original-routing-key drifts: the first retry is processed as the retry-return topic. */
  lemma EmptyOriginalDrifts(cfg: Config)
    requires cfg.retryReturnTopic == "inventory.item.retry"
    ensures var m := Message("{}", map[ORIGINAL := Text("")], "inventory.item.expired", None, None);
            TopicOf(map[], m) == Text("inventory.item.expired")
            && TopicOf(map[], Cycle(cfg, map[], m, map[])) == Text("inventory.item.retry")
  {
    var m := Message("{}", map[ORIGINAL := Text("")], "inventory.item.expired", None, None);
    var m' := Cycle(cfg, map[], m, map[]);
    var once: seq<Headers> := [map[]];
    assert Cycles(cfg, map[], m, once) == m' by { assert once[1..] == []; }
    CyclesKeepHeaders(cfg, map[], m, once);
    CyclesCount(cfg, map[], m, once);
    assert MergedHeaders(map[], m)[ORIGINAL] == Text("");
    MergedTopic(map[], m');
  }
}
