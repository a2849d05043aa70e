/**
 What the steps of an execution bring about: which requests are started, what is reserved for them,
 and that every reservation that was made is settled, marked failed or reported as a conflict.
 */
module AiExecutionLaws {
  import opened Wrappers
  import opened VersionedStore
  import opened AiGateway
  import opened AiPolicy
  import opened AiExecution
  import opened AiSettlement

  // Starting

  ghost predicate Shows(w: World, c: nat, e: Execution) {
    c in w.executions && w.executions[c] == e
  }

  /** The gateway document of a world is distinct in its registries after every history. */
  lemma GatewayDistinct(limits: Limits, accepts: Document<Gateway> -> bool, w: World)
    requires WorldOk(GatewayProtocol(limits, accepts), w)
    ensures Distinct(BodyOf(w.store.stored, EMPTY))
  {
    LogDistinct(limits, accepts, w.store.log);
  }

  /** The client has a request under way. */
  ghost predicate Running(w: World, c: nat) {
    && c in w.executions
    && var e := w.executions[c];
    e.Estimating? || e.Reserving? || e.Generating? || e.Settling? || e.Failing?
  }

  /** A client with a request under way starts no other, and makes no other call of the store; any other client may. */
  lemma OneAtATime(p: Gate, w: World, c: nat, request: Request, known: bool, event: Event<Operation>)
    requires event.client == c && (event.BeginMutate? || event.BeginReplace?)
    ensures Running(w, c) ==> Happen(p, w, Started(c, request, known)) == w && Happen(p, w, StoreStep(event)) == w
    ensures !Running(w, c) ==> Happen(p, w, StoreStep(event)) == w.(store := Next(p, w.store, event))
  {
  }

  /** Every other call of the store goes through, whoever makes it. */
  lemma StoreGoesOn(p: Gate, w: World, event: Event<Operation>)
    requires !event.BeginMutate? && !event.BeginReplace?
    ensures Happen(p, w, StoreStep(event)) == w.(store := Next(p, w.store, event))
  {
  }

  /**
   After every history a free client's request goes on to be estimated exactly when it is new, allowed
   by the gateway read and its provider is known, under the prompt and model that allow it; otherwise
   it is thrown with the first condition that fails. The store and all others are left alone.
   */
  lemma StartsExactly(limits: Limits, accepts: Document<Gateway> -> bool, w: World, c: nat, request: Request, known: bool)
    requires WorldOk(GatewayProtocol(limits, accepts), w)
    requires !Running(w, c) && Free(ClientOf(w.store, c))
    ensures var g := BodyOf(w.store.stored, EMPTY);
      var w' := Happen(GatewayProtocol(limits, accepts), w, Started(c, request, known));
      && w'.store == w.store && w'.executions.Keys == w.executions.Keys + {c}
      && (forall d :: d in w.executions && d != c ==> w'.executions[d] == w.executions[d])
      && if Known(g, request.requestId) then w'.executions[c] == Thrown(RequestDuplicate, None)
         else if !g.enabled then w'.executions[c] == Thrown(GatewayDisabled, None)
         else if !Answers(g, request, None) then w'.executions[c] == Thrown(PromptNotActive, None)
         else if !Allows(g, request, None) then w'.executions[c] == Thrown(ModelNotAllowed, None)
         else if !known then w'.executions[c] == Thrown(ProviderUnavailable, None)
         else
           && w'.executions[c].Estimating? && w'.executions[c].plan.request == request
           && RunsUnder(g, request, w'.executions[c].plan.prompt, w'.executions[c].plan.model)
  {
    var g := BodyOf(w.store.stored, EMPTY);
    GatewayDistinct(limits, accepts, w);
    AdmissionExactly(g, request, None);
    KnownExactly(g, request.requestId);
    if Allows(g, request, None) { AllowedAnswers(g, request, None); }
  }

  /** The first reason for which an estimated request is not reserved. */
  function NotReserved(plan: Plan, sourcesRead: bool, estimate: Option<Estimate>): Option<Error> {
    if !sourcesRead then Some(SourcesRejected)
    else if estimate.None? then Some(ProviderUnavailable)
    else if estimate.value.inputTokens > plan.model.maximumInputTokens then Some(InputTokensExceeded)
    else if estimate.value.costMicros > plan.prompt.maximumCostMicros
         || EstimatedCost(estimate.value.inputTokens, plan.prompt.maximumOutputTokens, plan.model)
              > plan.prompt.maximumCostMicros
    then Some(CostExceeded)
    else None
  }

  /**
   An estimate within the limits starts the reservation of one request, the estimated input, all the
   output the prompt may take, and the larger of the two costs; any other throws and leaves the store alone.
   */
  lemma EstimatesExactly(p: Gate, w: World, c: nat, plan: Plan, sourcesRead: bool, estimate: Option<Estimate>,
                         day: int, createdAt: int)
    requires WorldOk(p, w) && Shows(w, c, Estimating(plan))
    ensures var w' := Happen(p, w, Estimated(c, sourcesRead, estimate, day, createdAt));
      var obstacle := NotReserved(plan, sourcesRead, estimate);
      && c in w'.executions
      && if obstacle.Some? then w' == w.(executions := w.executions[c := Thrown(obstacle.value, None)])
         else
           var e := w'.executions[c];
           && w' == Begin(p, w, c, e, Reserve(plan.request, plan.prompt.version, e.reservation, day, createdAt))
           && e.Reserving? && e.plan == plan
           && e.reservation.requests == 1 && e.reservation.inputTokens == estimate.value.inputTokens
           && e.reservation.outputTokens == plan.prompt.maximumOutputTokens
           && e.reservation.costMicros >= estimate.value.costMicros
           && e.reservation.costMicros
                >= EstimatedCost(estimate.value.inputTokens, plan.prompt.maximumOutputTokens, plan.model)
           && (e.reservation.costMicros == estimate.value.costMicros
               || e.reservation.costMicros
                    == EstimatedCost(estimate.value.inputTokens, plan.prompt.maximumOutputTokens, plan.model))
  {
  }

  // Answers that are no output

  lemma UnansweredBegins(p: Gate, w: World, c: nat, e: Execution, answer: Answer)
    requires Shows(w, c, e) && e.Generating? && !answer.Generated?
    ensures Happen(p, w, Answered(c, answer))
         == Begin(p, w, c, Failing(HeldBy(e), if answer.TimedOut? then ProviderTimeout else ProviderFailed),
                  Fail(e.plan.request.requestId))
  {
  }

  /**
   After every history, a provider that times out or breaks ends the execution with just that error;
   the request's receipt, if it is retained and reserved, is marked failed at that time, and every
   other receipt, every day and all else stay as they were.
   */
  lemma {:induction false} UnansweredFails(limits: Limits, accepts: Document<Gateway> -> bool, history: seq<Happening>,
                                           c: nat, e: Execution, answer: Answer, now: int)
    requires ChecksCounters(accepts) && e.Generating? && !answer.Generated?
    requires Shows(Live(GatewayProtocol(limits, accepts), World(Initial(), map[]), history), c, e)
    ensures var p := GatewayProtocol(limits, accepts);
      var w := Live(p, World(Initial(), map[]), history);
      var w' := Live(p, w, [Answered(c, answer)] + Undisturbed(c, now));
      var g, g' := BodyOf(w.store.stored, EMPTY), BodyOf(w'.store.stored, EMPTY);
      && c in w'.executions && w'.executions[c].Thrown?
      && w'.executions[c].error == (if answer.TimedOut? then ProviderTimeout else ProviderFailed)
      && g'.(receipts := g.receipts) == g && |g'.receipts| == |g.receipts|
      && forall i :: 0 <= i < |g.receipts| ==>
           g'.receipts[i] == if g.receipts[i].requestId == e.plan.request.requestId && g.receipts[i].status.Reserved?
                             then g.receipts[i].(status := Failed, completedAt := Some(now)) else g.receipts[i]
  {
    var p := GatewayProtocol(limits, accepts);
    var w := Live(p, World(Initial(), map[]), history);
    LiveKeeps(p, World(Initial(), map[]), history);
    assert ExecutionOk(w.store, c, e);
    LiveOne(p, w, Answered(c, answer), Undisturbed(c, now));
    var error := if answer.TimedOut? then ProviderTimeout else ProviderFailed;
    UnansweredBegins(p, w, c, e, answer);
    FailingIsThrown(limits, accepts, w, c, HeldBy(e), error, now);
  }

  /** The error reported for a settlement that its change refuses. */
  ghost function Reason(g: Gateway, op: Operation): Error
    requires op.Succeed?
  {
    var receipt := FindReceipt(g.receipts, op.request.requestId);
    if !g.enabled || !Allows(g, op.request, Some(op.promptVersion)) then DisabledDuringRequest
    else if receipt.Some? && receipt.value.status.Reserved? && !op.actual.Within(receipt.value.reservedUsage)
    then ProviderInvalid
    else RequestInvalid
  }

  lemma ReasonIsReported(limits: Limits, op: Operation, now: int, g: Gateway)
    requires Distinct(g) && op.Succeed? && Apply(limits, op, now, g).Refuse?
    ensures Translate(Apply(limits, op, now, g).error) == Reason(g, op)
  {
    SucceedExactly(limits, op, now, g);
    if Allows(g, op.request, Some(op.promptVersion)) { AllowedAnswers(g, op.request, Some(op.promptVersion)); }
  }

  lemma ContinueDenied(p: Gate, w: World, c: nat, error: Error)
    requires c in w.executions && w.executions[c].Settling?
    requires ClientOf(w.store, c).Finished? && ClientOf(w.store, c).outcome == Refused(error)
    ensures Happen(p, w, Continued(c))
         == Begin(p, w, c, Failing(HeldBy(w.executions[c]), Translate(error)),
                  Fail(w.executions[c].plan.request.requestId))
  {
  }

  /** An answer whose settlement its change refuses leaves the store alone, and the failing of the request begins. */
  lemma AnswerDenied(limits: Limits, accepts: Document<Gateway> -> bool, w: World, c: nat, e: Execution,
                     actual: Charge, now: int) returns (denied: World)
    requires WorldOk(GatewayProtocol(limits, accepts), w)
    requires Shows(w, c, e) && e.Generating? && actual.requests == 1
    requires Apply(limits, Settle(e, actual), now, BodyOf(w.store.stored, EMPTY)).Refuse?
    ensures var p := GatewayProtocol(limits, accepts);
      var error := Reason(BodyOf(w.store.stored, EMPTY), Settle(e, actual));
      && Invariant(p, denied.store) && Free(ClientOf(denied.store, c))
      && denied.store.stored == w.store.stored && denied.store.log == w.store.log
      && AfterAnswer(p, w, c, actual, now)
           == Begin(p, denied, c, Failing(HeldBy(e), error), Fail(e.plan.request.requestId))
  {
    var p := GatewayProtocol(limits, accepts);
    var g := BodyOf(w.store.stored, EMPTY);
    assert ExecutionOk(w.store, c, e);
    AnswerSettles(p, w, c, e, actual, now);
    GatewayDistinct(limits, accepts, w);
    ReasonIsReported(limits, Settle(e, actual), now, g);
    var error := Apply(limits, Settle(e, actual), now, g).error;
    AloneRefused(p, w.store, c, Settle(e, actual), now, error);
    RunsLinearize(p, w.store, Alone(c, Settle(e, actual), None, now));
    var s := Run(p, w.store, Alone(c, Settle(e, actual), None, now));
    denied := World(s, w.executions[c := Settling(e.plan, e.reservation, e.reservedAt, actual)]);
    ContinueDenied(p, denied, c, error);
  }

  /**
   After every history, an undisturbed answer that may not be settled is not returned: the execution
   throws that the gateway was disabled meanwhile, that the provider went beyond its reservation, or
   that the reservation is gone, and the request's receipt is marked failed.
   */
  lemma {:induction false} DeniedIsReported(limits: Limits, accepts: Document<Gateway> -> bool, history: seq<Happening>,
                                            c: nat, e: Execution, actual: Charge, now: int)
    requires ChecksCounters(accepts) && e.Generating? && actual.requests == 1
    requires var w := Live(GatewayProtocol(limits, accepts), World(Initial(), map[]), history);
      && Shows(w, c, e)
      && Apply(limits, Settle(e, actual), now, BodyOf(w.store.stored, EMPTY)).Refuse?
    ensures var p := GatewayProtocol(limits, accepts);
      var w := Live(p, World(Initial(), map[]), history);
      var g := BodyOf(w.store.stored, EMPTY);
      Ends(Live(p, AfterAnswer(p, w, c, actual, now), Undisturbed(c, now)), c,
           Reported(HeldBy(e), Reason(g, Settle(e, actual)), |w.store.log|),
           WithFailed(g, e.plan.request.requestId, now))
  {
    var p := GatewayProtocol(limits, accepts);
    var w := Live(p, World(Initial(), map[]), history);
    LiveKeeps(p, World(Initial(), map[]), history);
    var denied := AnswerDenied(limits, accepts, w, c, e, actual, now);
    FailingIsThrown(limits, accepts, denied, c, HeldBy(e), Reason(BodyOf(w.store.stored, EMPTY), Settle(e, actual)), now);
  }

  // Reserving

  lemma ContinueReserving(p: Gate, w: World, c: nat)
    requires c in w.executions && w.executions[c].Reserving? && ClientOf(w.store, c).Finished?
    ensures var e, outcome := w.executions[c], ClientOf(w.store, c).outcome;
      && Happen(p, w, Continued(c)).store == w.store
      && (outcome.Committed? ==>
            Shows(Happen(p, w, Continued(c)), c, Generating(e.plan, e.reservation, outcome.index)))
      && (outcome.Refused? ==> Shows(Happen(p, w, Continued(c)), c, Thrown(outcome.error, None)))
      && (outcome.Conflict? ==> Shows(Happen(p, w, Continued(c)), c, Thrown(WriteConflict, None)))
      && (outcome.Rejected? ==> Shows(Happen(p, w, Continued(c)), c, Thrown(SchemaRejected, None)))
  {
  }

  /** A settlement lost to others, or refused on save, fails the request; what is thrown is that the provider failed. */
  lemma ContinueLost(p: Gate, w: World, c: nat)
    requires c in w.executions && w.executions[c].Settling? && ClientOf(w.store, c).Finished?
    requires ClientOf(w.store, c).outcome.Conflict? || ClientOf(w.store, c).outcome.Rejected?
    ensures var e := w.executions[c];
      Happen(p, w, Continued(c))
        == Begin(p, w, c, Failing(Held(e.plan, e.reservation, e.reservedAt), ProviderFailed), Fail(e.plan.request.requestId))
  {
  }

  /** The failing's own end: the error it was for, unless it was itself lost or refused. */
  lemma ContinueFailing(p: Gate, w: World, c: nat, held: Held, error: Error)
    requires Shows(w, c, Failing(held, error)) && ClientOf(w.store, c).Finished?
    ensures var outcome, w' := ClientOf(w.store, c).outcome, Happen(p, w, Continued(c));
      && w'.store == w.store && c in w'.executions
      && (outcome.Committed? ==> w'.executions[c] == Thrown(error, Some(Failure(held, outcome))))
      && (outcome.Conflict? ==> w'.executions[c] == Thrown(WriteConflict, Some(Failure(held, outcome))))
      && (outcome.Rejected? ==> w'.executions[c] == Thrown(SchemaRejected, Some(Failure(held, outcome))))
  {
  }

  /**
   An undisturbed reservation of an estimated request: admitted by its change and the check on save it
   is committed and the provider asked; refused by either, that is thrown and nothing stored.
   */
  lemma ReservesOrThrows(limits: Limits, accepts: Document<Gateway> -> bool, w: World, c: nat, e: Execution,
                         op: Operation, now: int)
    requires e.Reserving? && Free(ClientOf(w.store, c))
    ensures var p := GatewayProtocol(limits, accepts);
      var w' := Live(p, Begin(p, w, c, e, op), Undisturbed(c, now));
      match Apply(limits, op, now, BodyOf(w.store.stored, EMPTY))
      case Write(next) =>
        if accepts(Document(VersionOf(w.store.stored) + 1, now, next)) then
          && Ends(w', c, Generating(e.plan, e.reservation, |w.store.log|), next)
          && |w'.store.log| == |w.store.log| + 1
        else Shows(w', c, Thrown(SchemaRejected, None)) && w'.store.stored == w.store.stored
      case Refuse(error) => Shows(w', c, Thrown(error, None)) && w'.store.stored == w.store.stored
      case Skip => true
  {
    var p := GatewayProtocol(limits, accepts);
    BegunAlone(p, w, c, e, op, now);
    var later := World(Run(p, w.store, Alone(c, op, None, now)), w.executions[c := e]);
    match Apply(limits, op, now, BodyOf(w.store.stored, EMPTY))
    case Write(next) =>
      AloneCommits(p, w.store, c, op, None, now, next);
      ContinueReserving(p, later, c);
    case Refuse(error) =>
      AloneRefused(p, w.store, c, op, now, error);
      ContinueReserving(p, later, c);
    case Skip =>
  }

  // Every reservation is accounted for

  /** An execution that has made this reservation. */
  ghost predicate Has(e: Execution, held: Held) {
    match e
    case Generating(plan, reservation, reservedAt) => Held(plan, reservation, reservedAt) == held
    case Settling(plan, reservation, reservedAt, _) => Held(plan, reservation, reservedAt) == held
    case Returned(plan, reservation, reservedAt, _, _) => Held(plan, reservation, reservedAt) == held
    case Failing(h, _) => h == held
    case Thrown(_, failure) => failure.Some? && failure.value.held == held
    case _ => false
  }

  lemma HasKept(p: Gate, w: World, h: Happening, c: nat, held: Held)
    requires c in w.executions && Has(w.executions[c], held) && !(h.Started? && h.client == c)
    ensures var w' := Happen(p, w, h); c in w'.executions && Has(w'.executions[c], held)
  {
  }

  lemma {:induction false} HasStays(p: Gate, w: World, history: seq<Happening>, c: nat, held: Held)
    requires c in w.executions && Has(w.executions[c], held)
    requires forall i :: 0 <= i < |history| ==> !(history[i].Started? && history[i].client == c)
    ensures var w' := Live(p, w, history); c in w'.executions && Has(w'.executions[c], held)
    decreases |history|
  {
    if history != [] {
      HasKept(p, w, history[0], c, held);
      HasStays(p, Happen(p, w, history[0]), history[1..], c, held);
    }
  }

  /** The failing of a request is never refused by its change, nor by a check of counters alone. */
  ghost predicate FailEnds(accepts: Document<Gateway> -> bool, outcome: Outcome<Error>) {
    outcome.Committed? || outcome.Conflict? || (outcome.Rejected? && !ChecksCounters(accepts))
  }

  ghost predicate FailsOk(accepts: Document<Gateway> -> bool, client: Client<Operation, Gateway, Error>) {
    match client
    case Writing(op, _, _, _, next) => op.Fail? && ChecksCounters(accepts) ==> Countable(next.body)
    case Finished(op, outcome) => op.Fail? ==> FailEnds(accepts, outcome)
    case _ => true
  }

  ghost predicate WaysOk(accepts: Document<Gateway> -> bool, w: World) {
    && (forall c :: c in w.store.clients ==> FailsOk(accepts, w.store.clients[c]))
    && (forall c :: c in w.executions && w.executions[c].Thrown? && w.executions[c].failure.Some? ==>
          FailEnds(accepts, w.executions[c].failure.value.outcome))
  }

  lemma StoreWays(limits: Limits, accepts: Document<Gateway> -> bool, s: Store, event: Event<Operation>)
    requires Invariant(GatewayProtocol(limits, accepts), s)
    requires FailsOk(accepts, ClientOf(s, event.client))
    ensures FailsOk(accepts, ClientOf(Next(GatewayProtocol(limits, accepts), s, event), event.client))
  {
    var client := ClientOf(s, event.client);
    if ChecksCounters(accepts) {
      StoredIsCountable(limits, accepts, s);
      if client.Writing? { assert accepts(client.next) <==> Countable(client.next.body); }
    }
  }

  lemma WaysStored(limits: Limits, accepts: Document<Gateway> -> bool, w: World, event: Event<Operation>)
    requires WorldOk(GatewayProtocol(limits, accepts), w) && WaysOk(accepts, w)
    ensures WaysOk(accepts, w.(store := Next(GatewayProtocol(limits, accepts), w.store, event)))
  {
    StoreWays(limits, accepts, w.store, event);
    StepEffect(GatewayProtocol(limits, accepts), w.store, event);
    var s' := Next(GatewayProtocol(limits, accepts), w.store, event);
    forall c | c in s'.clients ensures FailsOk(accepts, s'.clients[c]) {
      if c != event.client { assert ClientOf(s', c) == ClientOf(w.store, c); }
    }
  }

  lemma WaysContinued(limits: Limits, accepts: Document<Gateway> -> bool, w: World, h: Happening)
    requires WorldOk(GatewayProtocol(limits, accepts), w) && WaysOk(accepts, w) && h.Continued?
    ensures WaysOk(accepts, Happen(GatewayProtocol(limits, accepts), w, h))
  {
    if Busy(w, h.client) { assert ExecutionOk(w.store, h.client, w.executions[h.client]); }
  }

  lemma WaysKept(limits: Limits, accepts: Document<Gateway> -> bool, w: World, h: Happening)
    requires WorldOk(GatewayProtocol(limits, accepts), w) && WaysOk(accepts, w)
    ensures WaysOk(accepts, Happen(GatewayProtocol(limits, accepts), w, h))
  {
    if h.StoreStep? {
      WaysStored(limits, accepts, w, h.event);
    } else if h.Continued? {
      WaysContinued(limits, accepts, w, h);
    }
  }

  lemma {:induction false} WaysStay(limits: Limits, accepts: Document<Gateway> -> bool, w: World, history: seq<Happening>)
    requires WorldOk(GatewayProtocol(limits, accepts), w) && WaysOk(accepts, w)
    ensures WaysOk(accepts, Live(GatewayProtocol(limits, accepts), w, history))
    decreases |history|
  {
    if history != [] {
      var p := GatewayProtocol(limits, accepts);
      WaysKept(limits, accepts, w, history[0]);
      HappenKeeps(p, w, history[0]);
      WaysStay(limits, accepts, Happen(p, w, history[0]), history[1..]);
    }
  }

  /** The client committed, after a reservation, that its request failed. */
  ghost predicate MarkedFailed(log: Log, c: nat, held: Held) {
    exists i :: held.at < i < |log| && log[i].client == c && log[i].op == Fail(held.plan.request.requestId)
  }

  /** How an execution that made a reservation may stand. */
  ghost predicate Accounted(accepts: Document<Gateway> -> bool, w: World, c: nat, held: Held) {
    && c in w.executions
    && (w.executions[c].Returned? ==>
          && HeldBy(w.executions[c]) == held && held.at < w.executions[c].settledAt
          && Settled(w.store, c, held.plan, w.executions[c].actual, w.executions[c].settledAt))
    && (w.executions[c].Thrown? ==>
          || MarkedFailed(w.store.log, c, held)
          || w.executions[c].error == WriteConflict
          || (!ChecksCounters(accepts)
              && w.executions[c].failure == Some(Failure(held, Rejected))))
  }

  lemma HeldIsAccounted(p: Gate, accepts: Document<Gateway> -> bool, w: World, c: nat, held: Held)
    requires WorldOk(p, w) && WaysOk(accepts, w)
    requires c in w.executions && Has(w.executions[c], held)
    ensures Accounted(accepts, w, c, held)
  {
    assert ExecutionOk(w.store, c, w.executions[c]);
  }

  /**
   After every history, and through every further one: an execution that made a reservation either
   still runs, or has returned with that reservation settled by a later commit of its own, or has
   thrown with its request marked failed by a later commit of its own; the failing itself can only be
   lost to other writers, which is thrown as a conflict, or refused by a stricter check on save.
   */
  lemma {:induction false} ReservedIsAccounted(limits: Limits, accepts: Document<Gateway> -> bool,
                                               before: seq<Happening>, after: seq<Happening>, c: nat, held: Held)
    requires Shows(Live(GatewayProtocol(limits, accepts), World(Initial(), map[]), before), c,
                   Generating(held.plan, held.reservation, held.at))
    requires forall i :: 0 <= i < |after| ==> !(after[i].Started? && after[i].client == c)
    ensures var p := GatewayProtocol(limits, accepts);
      var w' := Live(p, Live(p, World(Initial(), map[]), before), after);
      && Accounted(accepts, w', c, held)
      && (Busy(w', c) || w'.executions[c].Returned? || w'.executions[c].Thrown?)
  {
    var p := GatewayProtocol(limits, accepts);
    var start := World(Initial(), map[]);
    var w := Live(p, start, before);
    LiveKeeps(p, start, before);
    WaysStay(limits, accepts, start, before);
    HasStays(p, w, after, c, held);
    LiveKeeps(p, w, after);
    WaysStay(limits, accepts, w, after);
    HeldIsAccounted(p, accepts, Live(p, w, after), c, held);
  }
}
