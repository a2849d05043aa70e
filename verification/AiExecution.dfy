/**
 `execute` as a program of one client among any number: snapshot, estimate, reserve, generate,
 settle, and fail on the way out of an error. Operators change policy, prompts and the kill
 switch between any two of its steps.
 */
module AiExecution {
  import opened Wrappers
  import opened VersionedStore
  import opened AiGateway

  datatype Estimate = Estimate(inputTokens: nat, outputTokens: nat, costMicros: nat)
  datatype Answer = TimedOut | Broken | Generated(inputTokens: nat, outputTokens: nat, costMicros: nat)

  /** What the initial snapshot settled: the request and the prompt and model it runs under. */
  datatype Plan = Plan(request: Request, prompt: Prompt, model: Model)

  /** A committed reservation. */
  datatype Held = Held(plan: Plan, reservation: Charge, at: nat)

  /** How the failing of a held reservation's request came out. */
  datatype Failure = Failure(held: Held, outcome: Outcome<Error>)

  datatype Execution =
    | Estimating(plan: Plan)
    | Reserving(plan: Plan, reservation: Charge)
    | Generating(plan: Plan, reservation: Charge, reservedAt: nat)
    | Settling(plan: Plan, reservation: Charge, reservedAt: nat, actual: Charge)
    | Returned(plan: Plan, reservation: Charge, reservedAt: nat, actual: Charge, settledAt: nat)
    | Failing(held: Held, error: Error)
    | Thrown(error: Error, failure: Option<Failure>)

  type Store = System<Operation, Gateway, Error>
  datatype World = World(store: Store, executions: map<nat, Execution>)

  datatype Happening =
    | Started(client: nat, request: Request, providerKnown: bool)
    | Estimated(client: nat, sourcesRead: bool, estimate: Option<Estimate>, day: int, createdAt: int)
    | Answered(client: nat, answer: Answer)
    | Continued(client: nat)               // the awaited store operation has finished
    | StoreStep(event: Event<Operation>)   // anyone's next repository call

  predicate Busy(w: World, c: nat) {
    c in w.executions && !w.executions[c].Returned? && !w.executions[c].Thrown?
  }

  function At(w: World, c: nat, e: Execution): World {
    w.(executions := w.executions[c := e])
  }

  function Begin(p: Protocol<Operation, Gateway, Error>, w: World, c: nat, e: Execution, op: Operation): World {
    World(Next(p, w.store, BeginMutate(c, op)), w.executions[c := e])
  }

  /** How a failed store operation is thrown. */
  function Thrower(outcome: Outcome<Error>): Error {
    match outcome
    case Refused(error) => error
    case Conflict => WriteConflict
    case _ => SchemaRejected  // the document failed its check on save
  }

  /** The error `execute` raises for one caught after the reservation. */
  function Translate(error: Error): Error {
    match error
    case GatewayDisabled => DisabledDuringRequest
    case PromptNotActive => DisabledDuringRequest
    case ModelNotAllowed => DisabledDuringRequest
    case ProviderTimeout => error
    case ProviderInvalid => error
    case RequestInvalid => error
    case _ => ProviderFailed
  }

  function StartStep(w: World, c: nat, request: Request, providerKnown: bool): World {
    var g := BodyOf(w.store.stored, EMPTY);
    if FindReceipt(g.receipts, request.requestId).Some? then At(w, c, Thrown(RequestDuplicate, None))
    else
      match ExecutionPolicy(g, request, None)
      case Denied(error) => At(w, c, Thrown(error, None))
      case Admitted(prompt, model) =>
        if !providerKnown then At(w, c, Thrown(ProviderUnavailable, None))
        else At(w, c, Estimating(Plan(request, prompt, model)))
  }

  function Max(a: nat, b: nat): nat { if a >= b then a else b }

  function EstimateStep(p: Protocol<Operation, Gateway, Error>, w: World, c: nat, e: Execution,
                        sourcesRead: bool, estimate: Option<Estimate>, day: int, createdAt: int): World
    requires e.Estimating?
  {
    if !sourcesRead then At(w, c, Thrown(SourcesRejected, None))
    else if estimate.None? then At(w, c, Thrown(ProviderUnavailable, None))
    else if estimate.value.inputTokens > e.plan.model.maximumInputTokens then At(w, c, Thrown(InputTokensExceeded, None))
    else
      var output := e.plan.prompt.maximumOutputTokens;
      var cost := Max(estimate.value.costMicros, EstimatedCost(estimate.value.inputTokens, output, e.plan.model));
      if cost > e.plan.prompt.maximumCostMicros then At(w, c, Thrown(CostExceeded, None))
      else
        var reservation := Usage(1, estimate.value.inputTokens, output, cost);
        Begin(p, w, c, Reserving(e.plan, reservation),
              Reserve(e.plan.request, e.plan.prompt.version, reservation, day, createdAt))
  }

  function HeldBy(e: Execution): Held
    requires e.Generating? || e.Settling? || e.Returned?
  {
    Held(e.plan, e.reservation, e.reservedAt)
  }

  function AnswerStep(p: Protocol<Operation, Gateway, Error>, w: World, c: nat, e: Execution, answer: Answer): World
    requires e.Generating?
  {
    match answer
    case TimedOut => Begin(p, w, c, Failing(HeldBy(e), Translate(ProviderTimeout)), Fail(e.plan.request.requestId))
    case Broken => Begin(p, w, c, Failing(HeldBy(e), ProviderFailed), Fail(e.plan.request.requestId))
    case Generated(input, output, cost) =>
      var actual := Usage(1, input, output, cost);
      Begin(p, w, c, Settling(e.plan, e.reservation, e.reservedAt, actual),
            Succeed(e.plan.request, e.plan.prompt.version, actual))
  }

  function ContinueStep(p: Protocol<Operation, Gateway, Error>, w: World, c: nat, e: Execution,
                        outcome: Outcome<Error>): World {
    match e
    case Reserving(plan, reservation) =>
      if outcome.Committed? then At(w, c, Generating(plan, reservation, outcome.index))
      else At(w, c, Thrown(Thrower(outcome), None))
    case Settling(plan, reservation, reservedAt, actual) =>
      if outcome.Committed? then At(w, c, Returned(plan, reservation, reservedAt, actual, outcome.index))
      else Begin(p, w, c, Failing(Held(plan, reservation, reservedAt), Translate(Thrower(outcome))),
                 Fail(plan.request.requestId))
    case Failing(held, error) =>
      At(w, c, Thrown(if outcome.Committed? then error else Thrower(outcome), Some(Failure(held, outcome))))
    case _ => w
  }

  function Happen(p: Protocol<Operation, Gateway, Error>, w: World, h: Happening): World {
    match h
    case Started(c, request, providerKnown) =>
      if Busy(w, c) || !Free(ClientOf(w.store, c)) then w else StartStep(w, c, request, providerKnown)
    case Estimated(c, sourcesRead, estimate, day, createdAt) =>
      if Busy(w, c) && w.executions[c].Estimating?
      then EstimateStep(p, w, c, w.executions[c], sourcesRead, estimate, day, createdAt) else w
    case Answered(c, answer) =>
      if Busy(w, c) && w.executions[c].Generating?
      then AnswerStep(p, w, c, w.executions[c], answer) else w
    case Continued(c) =>
      if Busy(w, c) && ClientOf(w.store, c).Finished?
      then ContinueStep(p, w, c, w.executions[c], ClientOf(w.store, c).outcome) else w
    case StoreStep(event) =>
      if (event.BeginMutate? || event.BeginReplace?) && Busy(w, event.client) then w
      else w.(store := Next(p, w.store, event))
  }

  function Live(p: Protocol<Operation, Gateway, Error>, w: World, history: seq<Happening>): World
    decreases |history|
  {
    if history == [] then w else Live(p, Happen(p, w, history[0]), history[1..])
  }

  // Safety

  /** One request, within the plan's limits, at no less than the policy's own estimate. */
  predicate Priced(plan: Plan, reservation: Charge) {
    && reservation.requests == 1
    && 0 <= reservation.inputTokens <= plan.model.maximumInputTokens
    && reservation.outputTokens == plan.prompt.maximumOutputTokens
    && EstimatedCost(reservation.inputTokens, plan.prompt.maximumOutputTokens, plan.model)
         <= reservation.costMicros <= plan.prompt.maximumCostMicros
  }

  ghost predicate Reserves(op: Operation, plan: Plan, reservation: Charge) {
    && op.Reserve? && op.request == plan.request && op.promptVersion == plan.prompt.version
    && op.reservation == reservation
    && Priced(plan, reservation)
  }

  ghost predicate Reserved(store: Store, c: nat, plan: Plan, reservation: Charge, at: nat) {
    at < |store.log| && store.log[at].client == c && Reserves(store.log[at].op, plan, reservation)
  }

  ghost predicate Settled(store: Store, c: nat, plan: Plan, actual: Charge, at: nat) {
    && at < |store.log| && store.log[at].client == c
    && store.log[at].op == Succeed(plan.request, plan.prompt.version, actual)
  }

  /** If the request of a reservation is said to be marked failed, the client committed that after reserving. */
  ghost predicate Failed(store: Store, c: nat, held: Held, outcome: Outcome<Error>) {
    outcome.Committed? ==>
      && held.at < outcome.index < |store.log| && store.log[outcome.index].client == c
      && store.log[outcome.index].op == Fail(held.plan.request.requestId)
  }

  ghost predicate ExecutionOk(store: Store, c: nat, e: Execution) {
    var client := ClientOf(store, c);
    match e
    case Estimating(_) => client.Idle? || client.Finished?
    case Reserving(plan, reservation) =>
      !client.Idle? && Reserves(client.op, plan, reservation)
    case Generating(plan, reservation, reservedAt) =>
      && client.Finished?
      && Reserved(store, c, plan, reservation, reservedAt)
    case Settling(plan, reservation, reservedAt, actual) =>
      && Reserved(store, c, plan, reservation, reservedAt)
      && !client.Idle? && client.op == Succeed(plan.request, plan.prompt.version, actual)
      && (client.Finished? && client.outcome.Committed? ==> reservedAt < client.outcome.index)
    case Returned(plan, reservation, reservedAt, actual, settledAt) =>
      && Reserved(store, c, plan, reservation, reservedAt)
      && Settled(store, c, plan, actual, settledAt)
      && reservedAt < settledAt
    case Failing(held, _) =>
      && Reserved(store, c, held.plan, held.reservation, held.at)
      && !client.Idle? && client.op == Fail(held.plan.request.requestId)
      && (client.Finished? ==> Failed(store, c, held, client.outcome))
    case Thrown(error, failure) =>
      failure.Some? ==>
        var held, outcome := failure.value.held, failure.value.outcome;
        && Reserved(store, c, held.plan, held.reservation, held.at)
        && Failed(store, c, held, outcome)
        && (outcome.Conflict? ==> error == WriteConflict)
  }

  ghost predicate WorldOk(p: Protocol<Operation, Gateway, Error>, w: World) {
    && Invariant(p, w.store)
    && forall c :: c in w.executions ==> ExecutionOk(w.store, c, w.executions[c])
  }

  /** A client keeps its operation until it starts another. */
  lemma OperationStays(p: Protocol<Operation, Gateway, Error>, s: Store, event: Event<Operation>, c: nat)
    requires !ClientOf(s, c).Idle?
    requires event.client == c ==> !event.BeginMutate? && !event.BeginReplace?
    ensures !ClientOf(Next(p, s, event), c).Idle?
    ensures ClientOf(Next(p, s, event), c).op == ClientOf(s, c).op
  {
  }

  lemma StoreStepKeeps(p: Protocol<Operation, Gateway, Error>, s: Store, event: Event<Operation>, c: nat, e: Execution)
    requires Invariant(p, s) && ExecutionOk(s, c, e)
    requires (event.BeginMutate? || event.BeginReplace?) && event.client == c ==> e.Returned? || e.Thrown?
    ensures ExecutionOk(Next(p, s, event), c, e)
  {
    StepEffect(p, s, event);
    if !ClientOf(s, c).Idle? && !e.Returned? && !e.Thrown? { OperationStays(p, s, event, c); }
  }

  lemma OthersKeep(p: Protocol<Operation, Gateway, Error>, w: World, event: Event<Operation>, c: nat)
    requires WorldOk(p, w) && event.client == c
    ensures Invariant(p, Next(p, w.store, event))
    ensures forall d :: d in w.executions && d != c ==> ExecutionOk(Next(p, w.store, event), d, w.executions[d])
  {
    StepEffect(p, w.store, event);
    forall d | d in w.executions && d != c ensures ExecutionOk(Next(p, w.store, event), d, w.executions[d]) {
      StoreStepKeeps(p, w.store, event, d, w.executions[d]);
    }
  }

  lemma StartKeeps(p: Protocol<Operation, Gateway, Error>, w: World, h: Happening)
    requires WorldOk(p, w) && h.Started?
    ensures WorldOk(p, Happen(p, w, h))
  {
  }

  lemma EstimateKeeps(p: Protocol<Operation, Gateway, Error>, w: World, h: Happening)
    requires WorldOk(p, w) && h.Estimated?
    ensures WorldOk(p, Happen(p, w, h))
  {
    var c := h.client;
    var w' := Happen(p, w, h);
    if w' != w && w'.executions[c].Reserving? {
      var e := w'.executions[c];
      OthersKeep(p, w, BeginMutate(c, Reserve(e.plan.request, e.plan.prompt.version, e.reservation, h.day, h.createdAt)), c);
    }
  }

  lemma AnswerKeeps(p: Protocol<Operation, Gateway, Error>, w: World, h: Happening)
    requires WorldOk(p, w) && h.Answered?
    ensures WorldOk(p, Happen(p, w, h))
  {
    var c := h.client;
    if Busy(w, c) && w.executions[c].Generating? {
      var e := w.executions[c];
      if h.answer.Generated? {
        var actual := Usage(1, h.answer.inputTokens, h.answer.outputTokens, h.answer.costMicros);
        OthersKeep(p, w, BeginMutate(c, Succeed(e.plan.request, e.plan.prompt.version, actual)), c);
      } else {
        OthersKeep(p, w, BeginMutate(c, Fail(e.plan.request.requestId)), c);
      }
    }
  }

  lemma ContinueKeeps(p: Protocol<Operation, Gateway, Error>, w: World, h: Happening)
    requires WorldOk(p, w) && h.Continued?
    ensures WorldOk(p, Happen(p, w, h))
  {
    var c := h.client;
    if Busy(w, c) && w.executions[c].Settling? {
      OthersKeep(p, w, BeginMutate(c, Fail(w.executions[c].plan.request.requestId)), c);
    }
  }

  lemma HappenKeeps(p: Protocol<Operation, Gateway, Error>, w: World, h: Happening)
    requires WorldOk(p, w)
    ensures WorldOk(p, Happen(p, w, h))
  {
    match h
    case Started(_, _, _) => StartKeeps(p, w, h);
    case Estimated(_, _, _, _, _) => EstimateKeeps(p, w, h);
    case Answered(_, _) => AnswerKeeps(p, w, h);
    case Continued(_) => ContinueKeeps(p, w, h);
    case StoreStep(event) =>
      StepEffect(p, w.store, event);
      if Happen(p, w, h) != w {
        forall d | d in w.executions ensures ExecutionOk(Next(p, w.store, event), d, w.executions[d]) {
          StoreStepKeeps(p, w.store, event, d, w.executions[d]);
        }
      }
  }

  lemma {:induction false} LiveKeeps(p: Protocol<Operation, Gateway, Error>, w: World, history: seq<Happening>)
    requires WorldOk(p, w)
    ensures WorldOk(p, Live(p, w, history))
    decreases |history|
  {
    if history != [] {
      HappenKeeps(p, w, history[0]);
      LiveKeeps(p, Happen(p, w, history[0]), history[1..]);
    }
  }

  /** The reservation at a log position was admitted: policy, identity and budgets. */
  ghost predicate AdmittedAt(log: seq<Commit<Operation, Gateway>>, at: nat, c: nat, e: Execution)
    requires e.Returned?
  {
    && at < |log| && log[at].client == c && log[at].op.Reserve?
    && var g := BodyOf(log[at].before, EMPTY);
    && Permits(g, e.plan.request, e.plan.prompt.version)
    && FindReceipt(g.receipts, e.plan.request.requestId).None?
    && UsageFits(UsageOn(g.dailyUsage, log[at].op.day), e.reservation, g.budgets)
  }

  /** The settlement at a log position was still allowed and fitted a retained reservation. */
  ghost predicate SettledAt(log: seq<Commit<Operation, Gateway>>, at: nat, c: nat, e: Execution)
    requires e.Returned?
  {
    && at < |log| && log[at].client == c
    && var g := BodyOf(log[at].before, EMPTY);
    && Permits(g, e.plan.request, e.plan.prompt.version)
    && exists receipt ::
        && receipt in g.receipts && receipt.requestId == e.plan.request.requestId
        && receipt.status.Reserved? && e.actual.Within(receipt.reservedUsage)
  }

  lemma CommitsAllowed(limits: Limits, accepts: Document<Gateway> -> bool, store: Store, c: nat, e: Execution)
    requires Linear(GatewayProtocol(limits, accepts), store.log)
    requires e.Returned? && ExecutionOk(store, c, e)
    ensures AdmittedAt(store.log, e.reservedAt, c, e)
    ensures SettledAt(store.log, e.settledAt, c, e)
  {
    ReservationAdmitted(limits, accepts, store, c, e);
    SettlementAllowed(limits, accepts, store, c, e);
  }

  lemma ReservationAdmitted(limits: Limits, accepts: Document<Gateway> -> bool, store: Store, c: nat, e: Execution)
    requires Linear(GatewayProtocol(limits, accepts), store.log)
    requires e.Returned? && Reserved(store, c, e.plan, e.reservation, e.reservedAt)
    ensures AdmittedAt(store.log, e.reservedAt, c, e)
  {
    assert LinearAt(GatewayProtocol(limits, accepts), store.log, e.reservedAt);
    AdmissionPermits(BodyOf(store.log[e.reservedAt].before, EMPTY), e.plan.request, Some(e.plan.prompt.version));
  }

  lemma SettlementAllowed(limits: Limits, accepts: Document<Gateway> -> bool, store: Store, c: nat, e: Execution)
    requires Linear(GatewayProtocol(limits, accepts), store.log)
    requires e.Returned? && Settled(store, c, e.plan, e.actual, e.settledAt)
    ensures SettledAt(store.log, e.settledAt, c, e)
  {
    assert LinearAt(GatewayProtocol(limits, accepts), store.log, e.settledAt);
    AdmissionPermits(BodyOf(store.log[e.settledAt].before, EMPTY), e.plan.request, Some(e.plan.prompt.version));
  }

  /**
   Every execution that returns output reserved, and later settled, with commits of its own whose
   predecessors had the gateway enabled, the prompt version active and registered and the model
   enabled and allowed; the reservation respected the budgets, the model's input limit and the
   prompt's cost limit at no less than the estimated price, and what was settled fitted a retained
   reservation of the request.
   */
  lemma {:induction false} ReturnedWasAllowed(limits: Limits, accepts: Document<Gateway> -> bool,
                                              history: seq<Happening>, c: nat)
    ensures var w := Live(GatewayProtocol(limits, accepts), World(Initial(), map[]), history);
      c in w.executions && w.executions[c].Returned? ==>
        var e := w.executions[c];
        && e.reservedAt < e.settledAt
        && AdmittedAt(w.store.log, e.reservedAt, c, e)
        && SettledAt(w.store.log, e.settledAt, c, e)
        && Priced(e.plan, e.reservation)
  {
    var p := GatewayProtocol(limits, accepts);
    var w := Live(p, World(Initial(), map[]), history);
    LiveKeeps(p, World(Initial(), map[]), history);
    if c in w.executions && w.executions[c].Returned? {
      CommitsAllowed(limits, accepts, w.store, c, w.executions[c]);
    }
  }
}
