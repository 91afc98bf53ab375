/**
 The worker's calls as runs of the lease protocol: a consumer's message and a sweeper's event each
 claim a batch, send every delivery at most once, and finalize, while others act in between.
 */
module DeliveryCalls {
  import opened Prelude
  import opened Selection
  import opened Deliveries
  import opened DeliveryResults
  import opened LeaseProtocol
  import Sweep
  import Ingest

  /** For each delivery of a call, the position of the call's claim in the row's history. */
  type Batch = map<DeliveryId, nat>

  /** What a call does between its claim and its finalize: which deliveries it sends, and which sends return. */
  datatype SendsMade = SendsMade(sent: set<DeliveryId>, returned: DeliveryId -> bool)

  /** The call's claim on one delivery, once its sends are made. */
  function CallClaim(worker: WorkerId, now: Time, id: DeliveryId, sends: SendsMade): Claim {
    Claim(worker, now, if id in sends.sent then 1 else 0, id in sends.sent && sends.returned(id), Open)
  }

  /** The call's claims are in the histories where `batch` says, open, with the sends made that `sends` says. */
  predicate Held(s: System, worker: WorkerId, now: Time, claimed: seq<ClaimedDelivery>, batch: Batch,
                 sends: SendsMade)
  {
    && batch.Keys == IdSet(claimed)
    && forall c | c in claimed :: HeldOne(s, worker, now, c, batch, sends)
  }

  predicate HeldOne(s: System, worker: WorkerId, now: Time, c: ClaimedDelivery, batch: Batch, sends: SendsMade) {
    && c.id in batch && c.id in s.cells && batch[c.id] < |s.cells[c.id].claims|
    && s.cells[c.id].claims[batch[c.id]] == CallClaim(worker, now, c.id, sends)
    && c.attemptCount == batch[c.id] + 1 && c.channel == s.cells[c.id].row.channel
  }

  // ---- Steps of others ------------------------------------------------------------

  /** A step that does not send, finalize or give up any of the call's claims. */
  predicate Foreign(step: Step, batch: Batch) {
    match step
    case Send(id, k, _) => id in batch ==> batch[id] != k
    case Finalize(_, theirs, _) => forall id | id in theirs && id in batch :: theirs[id] != batch[id]
    case Crash(theirs) => forall id | id in theirs && id in batch :: theirs[id] != batch[id]
    case _ => true
  }

  /** No step of a run sends this row. */
  predicate NoSends(steps: seq<Step>, id: DeliveryId) {
    forall i | 0 <= i < |steps| :: !(steps[i].Send? && steps[i].id == id)
  }

  predicate AllForeign(steps: seq<Step>, batch: Batch) {
    forall i | 0 <= i < |steps| :: Foreign(steps[i], batch)
  }

  lemma ForeignCell(s: System, step: Step, batch: Batch, id: DeliveryId)
    requires Enabled(s, step) && Foreign(step, batch)
    requires id in batch && id in s.cells && batch[id] < |s.cells[id].claims|
    ensures id in Next(s, step).cells && batch[id] < |Next(s, step).cells[id].claims|
    ensures Next(s, step).cells[id].claims[batch[id]] == s.cells[id].claims[batch[id]]
    ensures Next(s, step).cells[id].row.channel == s.cells[id].row.channel
  {
    hide ById, PossibleResult, IsClaim;
  }

  lemma ForeignKeeps(s: System, step: Step, worker: WorkerId, now: Time, claimed: seq<ClaimedDelivery>, batch: Batch,
                     sends: SendsMade)
    requires Held(s, worker, now, claimed, batch, sends) && Enabled(s, step) && Foreign(step, batch)
    ensures Held(Next(s, step), worker, now, claimed, batch, sends)
  {
    hide Enabled, Next, Foreign;
    forall c | c in claimed
      ensures c.id in Next(s, step).cells && batch[c.id] < |Next(s, step).cells[c.id].claims|
      ensures Next(s, step).cells[c.id].claims[batch[c.id]] == s.cells[c.id].claims[batch[c.id]]
      ensures Next(s, step).cells[c.id].row.channel == s.cells[c.id].row.channel
    {
      ForeignCell(s, step, batch, c.id);
    }
  }

  lemma {:induction false} ForeignRunKeeps(s: System, steps: seq<Step>, worker: WorkerId, now: Time,
                                           claimed: seq<ClaimedDelivery>, batch: Batch, sends: SendsMade)
    requires Held(s, worker, now, claimed, batch, sends) && ValidRun(s, steps) && AllForeign(steps, batch)
    ensures Held(After(s, steps), worker, now, claimed, batch, sends)
    decreases |steps|
  {
    hide Enabled, Next, Held, Foreign;
    if steps == [] {
    } else {
      ForeignKeeps(s, steps[0], worker, now, claimed, batch, sends);
      assert forall i | 0 <= i < |steps[1..]| :: steps[1..][i] == steps[i + 1];
      ForeignRunKeeps(Next(s, steps[0]), steps[1..], worker, now, claimed, batch, sends);
    }
  }

  lemma {:induction false} RunAppend(s: System, first: seq<Step>, second: seq<Step>)
    requires ValidRun(s, first) && ValidRun(After(s, first), second)
    ensures ValidRun(s, first + second) && After(s, first + second) == After(After(s, first), second)
    decreases |first|
  {
    hide Enabled, Next;
    if first == [] {
      assert first + second == second;
    } else {
      assert (first + second)[1..] == first[1..] + second;
      RunAppend(Next(s, first[0]), first[1..], second);
    }
  }

  lemma RunOne(s: System, step: Step)
    requires Enabled(s, step)
    ensures ValidRun(s, [step]) && After(s, [step]) == Next(s, step)
  {
    hide Enabled, Next;
    assert [step][1..] == [];
  }

  // ---- The claim --------------------------------------------------------------------

  /** Where the claims of a claim step go: behind all earlier claims of their rows. */
  function ClaimPlaces(s: System, ids: set<DeliveryId>): Batch {
    map id | id in ids && id in s.cells :: |s.cells[id].claims|
  }

  /** A claim step whose RETURNING was `claimed`. */
  predicate ClaimsAre(s: System, claim: Step, claimed: seq<ClaimedDelivery>) {
    && claim.ClaimBatch? && Enabled(s, claim) && claim.chosen == IdSet(claimed)
    && Returned(ClaimRows(Rows(s), claim.chosen, claim.worker, claim.now), claimed)
  }

  lemma ClaimHolds(s: System, claim: Step, claimed: seq<ClaimedDelivery>, returned: DeliveryId -> bool)
    requires Inv(s) && ClaimsAre(s, claim, claimed)
    ensures Held(Next(s, claim), claim.worker, claim.now, claimed, ClaimPlaces(s, claim.chosen),
                 SendsMade({}, returned))
  {
    ReturnedAreClaimed(s, claim, claimed);
    hide *;
    var batch := ClaimPlaces(s, claim.chosen);
    forall c | c in claimed
      ensures HeldOne(Next(s, claim), claim.worker, claim.now, c, batch, SendsMade({}, returned))
    {
      ClaimHoldsOne(s, claim, c, returned);
    }
    HeldFromEach(Next(s, claim), claim.worker, claim.now, claimed, batch, SendsMade({}, returned));
  }

  lemma HeldFromEach(s: System, worker: WorkerId, now: Time, claimed: seq<ClaimedDelivery>, batch: Batch,
                     sends: SendsMade)
    requires batch.Keys == IdSet(claimed) && forall c | c in claimed :: HeldOne(s, worker, now, c, batch, sends)
    ensures Held(s, worker, now, claimed, batch, sends)
  {
  }

  lemma ReturnedAreClaimed(s: System, claim: Step, claimed: seq<ClaimedDelivery>)
    requires ClaimsAre(s, claim, claimed)
    ensures claim.ClaimBatch? && Enabled(s, claim) && ClaimPlaces(s, claim.chosen).Keys == IdSet(claimed)
    ensures forall c | c in claimed :: c.id in s.cells && c.id in claim.chosen
              && c == Snapshot(c.id, ClaimRow(s.cells[c.id].row, claim.worker, claim.now))
  {
    OnlyEligibleRowsAreClaimed(Rows(s), claim.event, claim.now, claim.limit, claim.locked, claim.chosen);
    hide IsClaim, Claimable, Distinct, ClaimedIds;
    assert claim.chosen <= s.cells.Keys;
    forall c | c in claimed
      ensures c.id in s.cells && c.id in claim.chosen
      ensures c == Snapshot(c.id, ClaimRow(s.cells[c.id].row, claim.worker, claim.now))
    {
      assert c.id in IdSet(claimed);
    }
  }

  lemma ClaimHoldsOne(s: System, claim: Step, c: ClaimedDelivery, returned: DeliveryId -> bool)
    requires Inv(s) && claim.ClaimBatch? && Enabled(s, claim) && c.id in s.cells && c.id in claim.chosen
    requires c == Snapshot(c.id, ClaimRow(s.cells[c.id].row, claim.worker, claim.now))
    ensures HeldOne(Next(s, claim), claim.worker, claim.now, c, ClaimPlaces(s, claim.chosen), SendsMade({}, returned))
  {
    assert CellInv(s.cells[c.id], s.clock);
    hide CellInv, IsClaim;
  }

  // ---- The sends --------------------------------------------------------------------

  /** One Send step per delivery that is sent, in order. */
  function SendSteps(claimed: seq<ClaimedDelivery>, batch: Batch, sends: SendsMade): seq<Step>
    requires forall c | c in claimed :: c.id in batch
  {
    if claimed == [] then []
    else (if claimed[0].id in sends.sent then [Send(claimed[0].id, batch[claimed[0].id], sends.returned(claimed[0].id))]
          else [])
         + SendSteps(claimed[1..], batch, sends)
  }

  lemma {:induction false} SendStepsOnly(claimed: seq<ClaimedDelivery>, batch: Batch, sends: SendsMade, id: DeliveryId)
    requires (forall c | c in claimed :: c.id in batch) && id !in sends.sent
    ensures NoSends(SendSteps(claimed, batch, sends), id)
    decreases |claimed|
  {
    if claimed == [] {
    } else {
      SendStepsOnly(claimed[1..], batch, sends, id);
    }
  }

  /** Only deliveries of the call whose channel has a sender are sent. */
  predicate Sendable(claimed: seq<ClaimedDelivery>, sends: SendsMade) {
    && sends.sent <= IdSet(claimed)
    && forall c | c in claimed && c.id in sends.sent :: c.channel in WORKER_SENDERS
  }

  /** One send: its claim was open and not yet sent, so the protocol's guard holds. */
  lemma SendOneStep(s: System, worker: WorkerId, now: Time, claimed: seq<ClaimedDelivery>, batch: Batch,
                    sends: SendsMade, c: ClaimedDelivery)
    requires Held(s, worker, now, claimed, batch, sends) && c in claimed && Distinct(ClaimedIds(claimed))
    requires c.id !in sends.sent && c.channel in WORKER_SENDERS && c.id in batch
    ensures var step := Send(c.id, batch[c.id], sends.returned(c.id));
            && Enabled(s, step) && Rows(Next(s, step)) == Rows(s) && Next(s, step).clock == s.clock
            && Held(Next(s, step), worker, now, claimed, batch, sends.(sent := sends.sent + {c.id}))
  {
    SameIdSameClaim(claimed, c);
    assert c.id in IdSet(claimed);
    var s' := Next(s, Send(c.id, batch[c.id], sends.returned(c.id)));
    forall id | id in s.cells ensures id in s'.cells && s'.cells[id].row == s.cells[id].row {}
    assert Rows(s') == Rows(s);
  }

  /** All sends of a call, from any state in which none of those still to do has been made. */
  lemma {:induction false} SendsAreRun(s: System, worker: WorkerId, now: Time, claimed: seq<ClaimedDelivery>,
                                       batch: Batch, todo: seq<ClaimedDelivery>, made: set<DeliveryId>,
                                       sends: SendsMade)
    requires Held(s, worker, now, claimed, batch, sends.(sent := made)) && Distinct(ClaimedIds(claimed))
    requires (forall c | c in todo :: c in claimed && c.id in batch) && Distinct(ClaimedIds(todo))
    requires forall c | c in todo :: c.id !in made && (c.id in sends.sent ==> c.channel in WORKER_SENDERS)
    ensures ValidRun(s, SendSteps(todo, batch, sends))
    ensures var s' := After(s, SendSteps(todo, batch, sends));
            && Rows(s') == Rows(s) && s'.clock == s.clock
            && Held(s', worker, now, claimed, batch, sends.(sent := made + (IdSet(todo) * sends.sent)))
    decreases |todo|
  {
    hide Held, Enabled, Next;
    if todo == [] {
      assert made + (IdSet(todo) * sends.sent) == made;
    } else {
      var c := todo[0];
      RestOfTodo(todo);
      if c.id in sends.sent {
        var step := Send(c.id, batch[c.id], sends.returned(c.id));
        SendOneStep(s, worker, now, claimed, batch, sends.(sent := made), c);
        SendsAreRun(Next(s, step), worker, now, claimed, batch, todo[1..], made + {c.id}, sends);
        RunOne(s, step);
        RunAppend(s, [step], SendSteps(todo[1..], batch, sends));
        assert made + {c.id} + (IdSet(todo[1..]) * sends.sent) == made + (IdSet(todo) * sends.sent);
      } else {
        SendsAreRun(s, worker, now, claimed, batch, todo[1..], made, sends);
        assert IdSet(todo[1..]) * sends.sent == IdSet(todo) * sends.sent;
        assert SendSteps(todo, batch, sends) == SendSteps(todo[1..], batch, sends);
      }
    }
  }

  lemma RestOfTodo(todo: seq<ClaimedDelivery>)
    requires todo != [] && Distinct(ClaimedIds(todo))
    ensures Distinct(ClaimedIds(todo[1..])) && IdSet(todo) == {todo[0].id} + IdSet(todo[1..])
    ensures forall c | c in todo[1..] :: c.id != todo[0].id
  {
    var ids := ClaimedIds(todo);
    assert ClaimedIds(todo[1..]) == ids[1..];
    assert todo == [todo[0]] + todo[1..];
    forall c | c in todo[1..] ensures c.id != todo[0].id {
      var i :| 0 <= i < |todo[1..]| && todo[1..][i] == c;
      assert ids[i + 1] == c.id && ids[0] == todo[0].id;
    }
  }

  // ---- The finalize -----------------------------------------------------------------

  /** The result of a claimed delivery is one the protocol allows for the call's claim. */
  predicate Fits(c: ClaimedDelivery, worker: WorkerId, now: Time, sends: SendsMade, clock: Time, r: SendResult) {
    && c.attemptCount >= 1
    && PossibleResult(c.channel, c.attemptCount - 1, CallClaim(worker, now, c.id, sends), clock, r)
  }

  predicate ResultsFit(claimed: seq<ClaimedDelivery>, worker: WorkerId, now: Time, sends: SendsMade, clock: Time,
                       results: seq<SendResult>)
  {
    && Distinct(ResultIds(results))
    && forall r | r in results ::
         exists c :: c in claimed && c.id == r.deliveryId && Fits(c, worker, now, sends, clock, r)
  }

  /** The claims a finalize settles: those with a result. */
  function WithResults(batch: Batch, results: seq<SendResult>): Batch {
    map id | id in batch && id in ResultIds(results) :: batch[id]
  }

  /** The claims of a call after its finalize: those with a result are settled, the others still open. */
  predicate Ended(s: System, batch: Batch, results: seq<SendResult>) {
    forall id | id in batch ::
      && id in s.cells && batch[id] < |s.cells[id].claims|
      && s.cells[id].claims[batch[id]].phase == if id in ResultIds(results) then LeaseProtocol.Settled else Open
  }

  /** The claims whose results a sweep dropped: nobody will ever finalize them. */
  function Dropped(batch: Batch, results: seq<SendResult>): Batch {
    map id | id in batch && id !in ResultIds(results) :: batch[id]
  }

  predicate NoneOpen(s: System, batch: Batch) {
    forall id | id in batch :: !IsOpen(s, id, batch[id])
  }

  lemma DroppedAreGivenUp(s: System, batch: Batch, results: seq<SendResult>)
    requires Ended(s, batch, results)
    ensures Enabled(s, Crash(Dropped(batch, results)))
    ensures Rows(Next(s, Crash(Dropped(batch, results)))) == Rows(s)
    ensures NoneOpen(Next(s, Crash(Dropped(batch, results))), batch)
  {
    var step := Crash(Dropped(batch, results));
    assert Enabled(s, step);
    assert Rows(Next(s, step)) == Rows(s);
  }

  lemma FinalizeIsStep(s: System, worker: WorkerId, now: Time, claimed: seq<ClaimedDelivery>, batch: Batch,
                       sends: SendsMade, results: seq<SendResult>)
    requires Held(s, worker, now, claimed, batch, sends)
    requires ResultsFit(claimed, worker, now, sends, s.clock, results)
    ensures var step := Finalize(worker, WithResults(batch, results), results);
            Enabled(s, step) && Rows(Next(s, step)) == FinalizeBulk(Rows(s), worker, results)
    ensures Ended(Next(s, Finalize(worker, WithResults(batch, results), results)), batch, results)
  {
    FinalizeIsEnabled(s, worker, now, claimed, batch, sends, results);
    FinalizeStepIsStatement(s, Finalize(worker, WithResults(batch, results), results));
    hide ResultsFit, FinalizeBulk;
    FinalizeEnds(s, worker, now, claimed, batch, sends, results);
  }

  lemma FinalizeEnds(s: System, worker: WorkerId, now: Time, claimed: seq<ClaimedDelivery>, batch: Batch,
                     sends: SendsMade, results: seq<SendResult>)
    requires Held(s, worker, now, claimed, batch, sends)
    requires Enabled(s, Finalize(worker, WithResults(batch, results), results))
    ensures Ended(Next(s, Finalize(worker, WithResults(batch, results), results)), batch, results)
  {
    hide PossibleResult, Distinct, FinalizeRow;
    forall id | id in batch
      ensures id in s.cells && batch[id] < |s.cells[id].claims| && s.cells[id].claims[batch[id]].phase == Open
    {
      var c :| c in claimed && c.id == id;
    }
  }

  lemma FinalizeIsEnabled(s: System, worker: WorkerId, now: Time, claimed: seq<ClaimedDelivery>, batch: Batch,
                          sends: SendsMade, results: seq<SendResult>)
    requires Held(s, worker, now, claimed, batch, sends)
    requires ResultsFit(claimed, worker, now, sends, s.clock, results)
    ensures Enabled(s, Finalize(worker, WithResults(batch, results), results))
  {
    hide PossibleResult;
    var theirs := WithResults(batch, results);
    forall id | id in ResultIds(results) ensures id in theirs {
      var i :| 0 <= i < |results| && ResultIds(results)[i] == id;
      assert results[i] in results;
    }
    forall id | id in theirs ensures IsOpen(s, id, theirs[id]) && s.cells[id].claims[theirs[id]].worker == worker {
      var c :| c in claimed && c.id == id;
    }
    forall r | r in results && r.deliveryId in theirs && IsOpen(s, r.deliveryId, theirs[r.deliveryId])
      ensures var c := s.cells[r.deliveryId];
              PossibleResult(c.row.channel, theirs[r.deliveryId], c.claims[theirs[r.deliveryId]], s.clock, r)
    {
      var c :| c in claimed && c.id == r.deliveryId && Fits(c, worker, now, sends, s.clock, r);
    }
  }

  // ---- Whole calls --------------------------------------------------------------------

  /** A call up to its sends: the claim, anything others do, the sends. */
  predicate Opens(s: System, claim: Step, claimed: seq<ClaimedDelivery>, others: seq<Step>, sends: SendsMade) {
    && Inv(s) && ClaimsAre(s, claim, claimed) && Sendable(claimed, sends)
    && ValidRun(Next(s, claim), others) && AllForeign(others, ClaimPlaces(s, claim.chosen))
  }

  lemma PlacesAreAll(s: System, claim: Step, claimed: seq<ClaimedDelivery>)
    requires ClaimsAre(s, claim, claimed)
    ensures forall c | c in claimed :: c.id in ClaimPlaces(s, claim.chosen)
  {
    OnlyEligibleRowsAreClaimed(Rows(s), claim.event, claim.now, claim.limit, claim.locked, claim.chosen);
    assert forall c | c in claimed :: c.id in IdSet(claimed);
  }

  function OpeningSteps(s: System, claim: Step, claimed: seq<ClaimedDelivery>, others: seq<Step>, sends: SendsMade)
      : seq<Step>
    requires Opens(s, claim, claimed, others, sends)
  {
    PlacesAreAll(s, claim, claimed);
    [claim] + others + SendSteps(claimed, ClaimPlaces(s, claim.chosen), sends)
  }

  lemma ClaimThenOthers(s: System, claim: Step, claimed: seq<ClaimedDelivery>, others: seq<Step>, sends: SendsMade)
    requires Opens(s, claim, claimed, others, sends)
    ensures ValidRun(s, [claim] + others) && After(s, [claim] + others) == After(Next(s, claim), others)
    ensures Held(After(s, [claim] + others), claim.worker, claim.now, claimed, ClaimPlaces(s, claim.chosen),
                 sends.(sent := {}))
  {
    ClaimHolds(s, claim, claimed, sends.returned);
    hide Held, Next, Inv, Sendable, ClaimPlaces, AllForeign;
    ForeignRunKeeps(Next(s, claim), others, claim.worker, claim.now, claimed, ClaimPlaces(s, claim.chosen),
                    sends.(sent := {}));
    RunOne(s, claim);
    RunAppend(s, [claim], others);
  }

  lemma SendableFacts(claimed: seq<ClaimedDelivery>, sends: SendsMade)
    requires Sendable(claimed, sends)
    ensures sends.(sent := {} + (IdSet(claimed) * sends.sent)) == sends
    ensures forall c | c in claimed && c.id in sends.sent :: c.channel in WORKER_SENDERS
  {
    assert IdSet(claimed) * sends.sent == sends.sent;
  }

  lemma OpeningIsRun(s: System, claim: Step, claimed: seq<ClaimedDelivery>, others: seq<Step>, sends: SendsMade)
    requires Opens(s, claim, claimed, others, sends)
    ensures ValidRun(s, OpeningSteps(s, claim, claimed, others, sends))
    ensures var s' := After(s, OpeningSteps(s, claim, claimed, others, sends));
            && Held(s', claim.worker, claim.now, claimed, ClaimPlaces(s, claim.chosen), sends)
            && Rows(s') == Rows(After(Next(s, claim), others))
  {
    var batch := ClaimPlaces(s, claim.chosen);
    PlacesAreAll(s, claim, claimed);
    SendableFacts(claimed, sends);
    assert Distinct(ClaimedIds(claimed));
    ClaimThenOthers(s, claim, claimed, others, sends);
    hide Held, Enabled, Next, Opens, ClaimPlaces, ClaimedIds, Distinct;
    SendsAreRun(After(s, [claim] + others), claim.worker, claim.now, claimed, batch, claimed, {}, sends);
    RunAppend(s, [claim] + others, SendSteps(claimed, batch, sends));
  }

  /** The state after a call's sends. */
  function Opened(s: System, claim: Step, claimed: seq<ClaimedDelivery>, others: seq<Step>, sends: SendsMade): System
    requires Opens(s, claim, claimed, others, sends)
  {
    OpeningIsRun(s, claim, claimed, others, sends);
    After(s, OpeningSteps(s, claim, claimed, others, sends))
  }

  /** The rest of a call: anything others do, then the finalize. `s'` is the state the finalize finds. */
  predicate Closes(s: System, claim: Step, claimed: seq<ClaimedDelivery>, others: seq<Step>, sends: SendsMade,
                   later: seq<Step>, s': System)
  {
    && Opens(s, claim, claimed, others, sends)
    && ValidRun(Opened(s, claim, claimed, others, sends), later)
    && AllForeign(later, ClaimPlaces(s, claim.chosen))
    && s' == After(Opened(s, claim, claimed, others, sends), later)
  }

  /**
   A call is a run of the protocol, its sends at most one per claim; the table it leaves is what the
   finalize statement makes of the table it finds, and none of its claims is left open.
   */
  lemma CallIsRun(s: System, claim: Step, claimed: seq<ClaimedDelivery>, others: seq<Step>, sends: SendsMade,
                  later: seq<Step>, s': System, results: seq<SendResult>) returns (steps: seq<Step>)
    requires Closes(s, claim, claimed, others, sends, later, s')
    requires ResultsFit(claimed, claim.worker, claim.now, sends, s'.clock, results)
    ensures ValidRun(s, steps) && Rows(After(s, steps)) == FinalizeBulk(Rows(s'), claim.worker, results)
    ensures steps != [] && steps[0] == claim && NoneOpen(After(s, steps), ClaimPlaces(s, claim.chosen))
    // The call itself sends only what `sends` says.
    ensures forall id | id !in sends.sent && NoSends(others, id) && NoSends(later, id) :: NoSends(steps, id)
  {
    var batch := ClaimPlaces(s, claim.chosen);
    var opening := OpeningSteps(s, claim, claimed, others, sends);
    OpeningIsRun(s, claim, claimed, others, sends);
    assert opening[0] == claim;
    hide Held, Enabled, Next, Opens, OpeningSteps, ResultsFit, ClaimPlaces, AllForeign, FinalizeBulk, Ended, NoneOpen;
    var s1 := After(s, opening);
    ForeignRunKeeps(s1, later, claim.worker, claim.now, claimed, batch, sends);
    FinalizeIsStep(s', claim.worker, claim.now, claimed, batch, sends, results);
    var last := Finalize(claim.worker, WithResults(batch, results), results);
    RunOne(s', last);
    RunAppend(s, opening, later);
    RunAppend(s, opening + later, [last]);
    var s'' := Next(s', last);
    DroppedAreGivenUp(s'', batch, results);
    RunOne(s'', Crash(Dropped(batch, results)));
    RunAppend(s, opening + later + [last], [Crash(Dropped(batch, results))]);
    steps := opening + later + [last] + [Crash(Dropped(batch, results))];
    hide NoSends;
    forall id | id !in sends.sent && NoSends(others, id) && NoSends(later, id) ensures NoSends(steps, id) {
      OpeningSends(s, claim, claimed, others, sends, id);
      EndingSends(opening, later, last, Crash(Dropped(batch, results)), id);
    }
  }

  lemma EndingSends(opening: seq<Step>, later: seq<Step>, last: Step, crash: Step, id: DeliveryId)
    requires NoSends(opening, id) && NoSends(later, id) && !last.Send? && !crash.Send?
    ensures NoSends(opening + later + [last] + [crash], id)
  {
    AppendNoSends(opening, later, id);
    AppendNoSends(opening + later, [last], id);
    AppendNoSends(opening + later + [last], [crash], id);
  }

  lemma OpeningSends(s: System, claim: Step, claimed: seq<ClaimedDelivery>, others: seq<Step>, sends: SendsMade,
                     id: DeliveryId)
    requires Opens(s, claim, claimed, others, sends) && id !in sends.sent && NoSends(others, id)
    ensures NoSends(OpeningSteps(s, claim, claimed, others, sends), id)
  {
    PlacesAreAll(s, claim, claimed);
    var made := SendSteps(claimed, ClaimPlaces(s, claim.chosen), sends);
    assert OpeningSteps(s, claim, claimed, others, sends) == [claim] + others + made;
    assert NoSends([claim], id);
    hide *;
    SendStepsOnly(claimed, ClaimPlaces(s, claim.chosen), sends, id);
    AppendNoSends([claim], others, id);
    AppendNoSends([claim] + others, made, id);
  }

  lemma AppendNoSends(first: seq<Step>, second: seq<Step>, id: DeliveryId)
    requires NoSends(first, id) && NoSends(second, id)
    ensures NoSends(first + second, id)
  {
  }

  // ---- The consumer ---------------------------------------------------------------------

  /** What send_claimed_deliveries does to the deliveries handed to it. */
  predicate SendsOf(handed: seq<ClaimedDelivery>, sending: Sending, sends: SendsMade) {
    match sending
    // Every delivery with a sender is sent once, and its outcome says whether the send returned.
    case Sends(f) =>
      && sends.sent == (set c | c in handed && c.channel in WORKER_SENDERS :: c.id)
      && forall c | c in handed :: sends.returned(c.id) == f(c.id).SendOk?
    // An exception out of the gather: some may have been sent by then.
    case SendRaises(_, _, _) => sends.sent <= set c | c in handed && c.channel in WORKER_SENDERS :: c.id
  }

  /** Whatever instants the sends record lie between the claim and the finalize. */
  predicate Timely(handed: seq<ClaimedDelivery>, sending: Sending, now: Time, clock: Time) {
    match sending
    case Sends(f) => forall c | c in handed && f(c.id).SendRaised? :: now <= f(c.id).at <= clock
    case SendRaises(_, _, at) => forall c | c in handed :: now <= at(c.id) <= clock
  }

  lemma ResultFits(handed: seq<ClaimedDelivery>, sending: Sending, sends: SendsMade, worker: WorkerId, now: Time,
                   clock: Time, c: ClaimedDelivery)
    requires c in handed && c.attemptCount >= 1
    requires SendsOf(handed, sending, sends) && Timely(handed, sending, now, clock)
    ensures Fits(c, worker, now, sends, clock, ResultFor(c, sending)) && ResultFor(c, sending).deliveryId == c.id
  {
    var claim := CallClaim(worker, now, c.id, sends);
    match sending
    case SendRaises(_, reason, at) =>
      WorkerResultsArePossible(c, c.attemptCount - 1, claim, clock, SendRaised(reason, at(c.id)), reason, at(c.id));
    case Sends(f) =>
      var at := if f(c.id).SendRaised? then f(c.id).at else now;
      assert c.channel in WORKER_SENDERS ==> c.id in sends.sent;
      if now <= clock {
        WorkerResultsArePossible(c, c.attemptCount - 1, claim, clock, f(c.id), "", at);
      }
  }

  /** The consumer's handling of a message is a run, and leaves exactly the table that Process leaves. */
  lemma ConsumerCallIsRun(s: System, claim: Step, claimed: seq<ClaimedDelivery>, others: seq<Step>, sends: SendsMade,
                          later: seq<Step>, s': System, sending: Sending) returns (steps: seq<Step>)
    requires Closes(s, claim, claimed, others, sends, later, s')
    requires SendsOf(claimed, sending, sends) && Timely(claimed, sending, claim.now, s'.clock)
    ensures ValidRun(s, steps) && steps != [] && steps[0] == claim
    ensures NoneOpen(After(s, steps), ClaimPlaces(s, claim.chosen))
    ensures DeliveryResults.Settled(Rows(s'), Rows(After(s, steps)), claim.worker, claimed, sending)
  {
    var results := Results(claimed, sending);
    ClosedFacts(s, claim, claimed, others, sends, later, s');
    ResultsCoverClaims(claimed, sending);
    hide Closes, Results, SendsOf, Timely, Fits, ResultFor;
    forall r | r in results
      ensures exists c :: c in claimed && c.id == r.deliveryId
                          && Fits(c, claim.worker, claim.now, sends, s'.clock, r)
    {
      var i :| 0 <= i < |results| && results[i] == r;
      ResultFits(claimed, sending, sends, claim.worker, claim.now, s'.clock, claimed[i]);
    }
    steps := CallIsRun(s, claim, claimed, others, sends, later, s', results);
    FinalizeSettles(Rows(s'), claim.worker, claimed, sending);
  }

  lemma ClosedFacts(s: System, claim: Step, claimed: seq<ClaimedDelivery>, others: seq<Step>, sends: SendsMade,
                    later: seq<Step>, s': System)
    requires Closes(s, claim, claimed, others, sends, later, s')
    ensures Distinct(ClaimedIds(claimed)) && (forall c | c in claimed :: c.attemptCount >= 1)
    ensures claim.now <= s.clock <= s'.clock
  {
    OpeningIsRun(s, claim, claimed, others, sends);
    var mid := Opened(s, claim, claimed, others, sends);
    RunKeepsInv(s, OpeningSteps(s, claim, claimed, others, sends));
    RunKeepsInv(mid, later);
  }

  // ---- The sweeper ------------------------------------------------------------------------

  lemma FrontDistinct(claimed: seq<ClaimedDelivery>)
    requires claimed != [] && Distinct(ClaimedIds(claimed))
    ensures var n := |claimed| - 1;
            Distinct(ClaimedIds(claimed[..n])) && forall c | c in claimed[..n] :: c.id != claimed[n].id
  {
    var n := |claimed| - 1;
    var ids := ClaimedIds(claimed);
    assert ClaimedIds(claimed[..n]) == ids[..n];
    forall c | c in claimed[..n] ensures c.id != claimed[n].id {
      var i :| 0 <= i < n && claimed[..n][i] == c;
      assert ids[i] == c.id && ids[n] == claimed[n].id;
    }
  }

  lemma SnocDistinct(ids: seq<DeliveryId>, id: DeliveryId)
    requires Distinct(ids) && id !in ids
    ensures Distinct(ids + [id])
  {
  }

  lemma {:induction false} SetApartDistinct(claimed: seq<ClaimedDelivery>, at: DeliveryId -> Time)
    requires Distinct(ClaimedIds(claimed))
    ensures Distinct(ClaimedIds(Sweep.Others(claimed))) && Distinct(ResultIds(Sweep.SkippedResults(claimed, at)))
    decreases |claimed|
  {
    if claimed == [] {
    } else {
      var n := |claimed| - 1;
      var front, c := claimed[..n], claimed[n];
      FrontDistinct(claimed);
      SetApartDistinct(front, at);
      var others, skipped := Sweep.Others(front), Sweep.SkippedResults(front, at);
      if Sweep.NotSwept(c) {
        assert ResultIds(skipped + [Sweep.Skipped(c, at(c.id))]) == ResultIds(skipped) + [c.id];
        forall i | 0 <= i < |skipped| ensures ResultIds(skipped)[i] != c.id {
          var r := skipped[i];
          assert r in skipped;
          var d :| d in front && Sweep.NotSwept(d) && r == Sweep.Skipped(d, at(d.id));
        }
        SnocDistinct(ResultIds(skipped), c.id);
      } else {
        assert ClaimedIds(others + [c]) == ClaimedIds(others) + [c.id];
        assert c.id !in ClaimedIds(others);
        SnocDistinct(ClaimedIds(others), c.id);
      }
    }
  }

  lemma SweepResultsDistinct(claimed: seq<ClaimedDelivery>, at: DeliveryId -> Time, sending: Sending)
    requires Distinct(ClaimedIds(claimed))
    ensures Distinct(ResultIds(Sweep.SweepResults(claimed, at, sending)))
  {
    var others, skipped := Sweep.Others(claimed), Sweep.SkippedResults(claimed, at);
    var sent := Results(others, sending);
    SetApartDistinct(claimed, at);
    ResultsCoverClaims(others, sending);
    assert ResultIds(sent + skipped) == ResultIds(sent) + ResultIds(skipped);
    hide Results, Distinct;
    forall i, j | 0 <= i < |others| && 0 <= j < |skipped| ensures others[i].id != skipped[j].deliveryId {
      NotBothSetApart(claimed, at, others[i], skipped[j]);
    }
    AppendDistinct(ResultIds(sent), ResultIds(skipped));
  }

  lemma NotBothSetApart(claimed: seq<ClaimedDelivery>, at: DeliveryId -> Time, c: ClaimedDelivery, r: SendResult)
    requires Distinct(ClaimedIds(claimed)) && c in Sweep.Others(claimed) && r in Sweep.SkippedResults(claimed, at)
    ensures c.id != r.deliveryId
  {
    var d :| d in claimed && Sweep.NotSwept(d) && r == Sweep.Skipped(d, at(d.id));
    SameIdSameClaim(claimed, c);
  }

  lemma AppendDistinct(a: seq<DeliveryId>, b: seq<DeliveryId>)
    requires Distinct(a) && Distinct(b)
    requires forall i, j | 0 <= i < |a| && 0 <= j < |b| :: a[i] != b[j]
    ensures Distinct(a + b)
  {
  }

  /**
   The sweeper's handling of an event is a run, and leaves exactly the table that SweepEvent leaves, also
   when the results of set-apart deliveries are dropped.
   */
  lemma SweepCallIsRun(s: System, claim: Step, claimed: seq<ClaimedDelivery>, others: seq<Step>, sends: SendsMade,
                       later: seq<Step>, s': System, at: DeliveryId -> Time, sending: Sending)
      returns (steps: seq<Step>)
    requires Closes(s, claim, claimed, others, sends, later, s')
    requires SendsOf(Sweep.Others(claimed), sending, sends)
    requires Timely(Sweep.Others(claimed), sending, claim.now, s'.clock)
    requires forall c | c in claimed && Sweep.NotSwept(c) :: claim.now <= at(c.id) <= s'.clock
    ensures ValidRun(s, steps) && steps != [] && steps[0] == claim
    ensures NoneOpen(After(s, steps), ClaimPlaces(s, claim.chosen))
    ensures Sweep.Swept(Rows(s'), Rows(After(s, steps)), claim.worker, claimed, at, sending)
    ensures forall id | id !in sends.sent && NoSends(others, id) && NoSends(later, id) :: NoSends(steps, id)
  {
    var results := Sweep.SweepResults(claimed, at, sending);
    ClosedFacts(s, claim, claimed, others, sends, later, s');
    SweepResultsDistinct(claimed, at, sending);
    hide Closes, Results, SendsOf, Timely, Fits, ResultFor, Sweep.SweepResults;
    forall r | r in results
      ensures exists c :: c in claimed && c.id == r.deliveryId
                          && Fits(c, claim.worker, claim.now, sends, s'.clock, r)
    {
      var c := Sweep.ResultsAreOfClaims(claimed, at, sending, r);
      if Sweep.NotSwept(c) {
        SkippedFits(c, claim.worker, claim.now, sends, s'.clock, at(c.id));
      } else {
        ResultFits(Sweep.Others(claimed), sending, sends, claim.worker, claim.now, s'.clock, c);
      }
    }
    steps := CallIsRun(s, claim, claimed, others, sends, later, s', results);
    Sweep.FinalizeSweeps(Rows(s'), claim.worker, claimed, at, sending);
  }

  lemma SkippedFits(c: ClaimedDelivery, worker: WorkerId, now: Time, sends: SendsMade, clock: Time, at: Time)
    requires c.attemptCount >= 1 && now <= at <= clock
    ensures Fits(c, worker, now, sends, clock, Sweep.Skipped(c, at))
  {
    var text := "ValueError: Delivery channel " + ChannelValue(c.channel) + " should not be in notification_deliveries";
    WorkerResultsArePossible(c, c.attemptCount - 1, CallClaim(worker, now, c.id, sends), clock, SendRaised(text, at),
                             text, at);
  }

  // ---- Ingest -------------------------------------------------------------------------------

  /** The upsert of an event's deliveries is a sequence of inserts. */
  lemma {:induction false} UpsertIsRun(s: System, event: EventId, targets: seq<Ingest.Target>, ids: seq<DeliveryId>,
                                       createdAt: Time) returns (steps: seq<Step>)
    requires |ids| == |targets| && Ingest.FreshIds(Rows(s), ids)
    ensures ValidRun(s, steps) && forall i | 0 <= i < |steps| :: steps[i].Insert?
    ensures Rows(After(s, steps)) == Ingest.Upsert(Rows(s), event, targets, ids, createdAt)
    decreases |targets|
  {
    if targets == [] {
      steps := [];
    } else {
      var d := Ingest.NewDelivery(event, targets[0], createdAt);
      var rows' := Ingest.UpsertOne(Rows(s), event, targets[0], ids[0], createdAt);
      UpsertOneStep(s, event, targets[0], ids[0], createdAt);
      FewerFreshIds(Rows(s), event, targets[0], ids, createdAt);
      hide Enabled, Next, Ingest.HasDelivery, Ingest.FreshIds, Ingest.UpsertOne;
      if Ingest.HasDelivery(Rows(s), event, targets[0]) {
        steps := UpsertIsRun(s, event, targets[1..], ids[1..], createdAt);
      } else {
        var rest := UpsertIsRun(Next(s, Insert(ids[0], d)), event, targets[1..], ids[1..], createdAt);
        steps := [Insert(ids[0], d)] + rest;
        RunCons(s, Insert(ids[0], d), rest);
      }
    }
  }

  lemma UpsertOneStep(s: System, event: EventId, t: Ingest.Target, id: DeliveryId, createdAt: Time)
    requires id !in Rows(s)
    ensures var step := Insert(id, Ingest.NewDelivery(event, t, createdAt));
            var rows' := Ingest.UpsertOne(Rows(s), event, t, id, createdAt);
            if Ingest.HasDelivery(Rows(s), event, t) then rows' == Rows(s)
            else Enabled(s, step) && Rows(Next(s, step)) == rows'
  {
    hide Ingest.HasDelivery;
    var d := Ingest.NewDelivery(event, t, createdAt);
    assert Rows(s.(cells := s.cells[id := Cell(d, [])])) == Rows(s)[id := d];
  }

  lemma FewerFreshIds(rows: Table, event: EventId, t: Ingest.Target, ids: seq<DeliveryId>, createdAt: Time)
    requires ids != [] && Ingest.FreshIds(rows, ids)
    ensures ids[0] !in rows && Ingest.FreshIds(Ingest.UpsertOne(rows, event, t, ids[0], createdAt), ids[1..])
  {
    hide Ingest.HasDelivery;
    var rest := ids[1..];
    forall i | 0 <= i < |rest| ensures rest[i] != ids[0] && rest[i] !in rows {
      assert rest[i] == ids[i + 1];
    }
    forall i, j | 0 <= i < j < |rest| ensures rest[i] != rest[j] {
      assert rest[i] == ids[i + 1] && rest[j] == ids[j + 1];
    }
  }

  /** So a delivery that was SENT once stays as it is through any run and any later ingest of its event. */
  lemma SentSurvivesIngest(init: System, steps: seq<Step>, event: EventId, targets: seq<Ingest.Target>,
                           ids: seq<DeliveryId>, createdAt: Time, id: DeliveryId)
    requires Inv(init) && ValidRun(init, steps) && id in init.cells && init.cells[id].row.status == Sent
    requires |ids| == |targets| && Ingest.FreshIds(Rows(After(init, steps)), ids)
    ensures var rows := Ingest.Upsert(Rows(After(init, steps)), event, targets, ids, createdAt);
            id in rows && rows[id] == init.cells[id].row
  {
    RunKeepsInv(init, steps);
    SentIsAbsorbing(init, steps, id);
    var s := After(init, steps);
    var inserts := UpsertIsRun(s, event, targets, ids, createdAt);
    SentIsAbsorbing(s, inserts, id);
    assert Rows(After(s, inserts))[id] == After(s, inserts).cells[id].row;
  }
}
