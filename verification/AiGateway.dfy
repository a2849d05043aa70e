/** The AI gateway document, its prices, its admission rules and the changes made to it. */
module AiGateway {
  import opened Wrappers
  import opened VersionedStore

  const MAX_SAFE := 9_007_199_254_740_991

  datatype Limits = Limits(
    maximumPromptVersions: nat, maximumActivePrompts: nat, maximumDailyUsageRecords: nat,
    maximumRequestReceipts: nat, maximumStateEvents: nat)

  /** Limits are constants of the source; the results hold for any positive values. */
  ghost predicate Positive(limits: Limits) {
    && limits.maximumPromptVersions > 0 && limits.maximumActivePrompts > 0
    && limits.maximumDailyUsageRecords > 0 && limits.maximumRequestReceipts > 0
    && limits.maximumStateEvents > 0
  }

  datatype Usage = Usage(requests: int, inputTokens: int, outputTokens: int, costMicros: int) {
    function Plus(that: Usage): Usage {
      Usage(requests + that.requests, inputTokens + that.inputTokens,
            outputTokens + that.outputTokens, costMicros + that.costMicros)
    }

    function Minus(that: Usage): Usage {
      Usage(requests - that.requests, inputTokens - that.inputTokens,
            outputTokens - that.outputTokens, costMicros - that.costMicros)
    }

    /** At most `that` in every component. */
    predicate Within(that: Usage) {
      && requests <= that.requests && inputTokens <= that.inputTokens
      && outputTokens <= that.outputTokens && costMicros <= that.costMicros
    }
  }

  const NOTHING := Usage(0, 0, 0, 0)

  /** Usage as estimates, provider results and reservations carry it: never negative. */
  type Charge = u: Usage | NOTHING.Within(u) witness NOTHING

  datatype ModelRef = ModelRef(providerId: string, modelId: string)
  datatype Model = Model(
    ref: ModelRef, enabled: bool, maximumInputTokens: nat, maximumOutputTokens: nat,
    inputCostMicrosPerMillion: nat, outputCostMicrosPerMillion: nat)
  datatype Prompt = Prompt(
    promptId: string, version: nat, allowedModels: seq<ModelRef>,
    maximumOutputTokens: nat, maximumCostMicros: nat)
  datatype ActivePrompt = ActivePrompt(promptId: string, version: nat)
  datatype DailyUsage = DailyUsage(day: int, usage: Usage)
  datatype Status = Reserved | Succeeded(actual: Usage) | Failed
  datatype Receipt = Receipt(
    requestId: string, promptId: string, promptVersion: nat, ref: ModelRef,
    status: Status, usageDay: int, reservedUsage: Usage, createdAt: int, completedAt: Option<int>)
  datatype StateEvent = StateEvent(enabled: bool, actorId: string, reason: string, occurredAt: int)

  datatype Gateway = Gateway(
    enabled: bool, models: seq<Model>, budgets: Usage, promptVersions: seq<Prompt>,
    activePrompts: seq<ActivePrompt>, dailyUsage: seq<DailyUsage>, receipts: seq<Receipt>,
    stateEvents: seq<StateEvent>)

  const EMPTY := Gateway(false, [], Usage(100, 200_000, 50_000, 10_000_000), [], [], [], [], [])

  datatype Request = Request(requestId: string, promptId: string, ref: ModelRef)

  datatype Error =
    | GatewayDisabled | PromptNotActive | ModelNotAllowed | RequestDuplicate | BudgetExceeded
    | RequestInvalid | ProviderInvalid | InvalidPolicy | PromptVersionExists | PromptRegistryFull
    | InvalidPrompt | PromptNotFound | InvalidState | ProviderUnavailable | InputTokensExceeded
    | CostExceeded | ProviderTimeout | ProviderFailed | DisabledDuringRequest | WriteConflict
    | SourcesRejected | SchemaRejected

  datatype Operation =
    | UpdatePolicy(models: seq<Model>, budgets: Usage)
    | CreatePromptVersion(prompt: Prompt)
    | ActivatePrompt(promptId: string, version: nat)
    | SetState(enabled: bool, actorId: string, reason: string)
    | Reserve(request: Request, promptVersion: nat, reservation: Charge, day: int, createdAt: int)
    | Fail(requestId: string)
    | Succeed(request: Request, promptVersion: nat, actual: Charge)

  // Prices

  function CeilingCost(tokens: nat, microsPerMillion: nat): nat {
    (tokens * microsPerMillion + 999_999) / 1_000_000
  }

  function EstimatedCost(inputTokens: nat, outputTokens: nat, model: Model): nat {
    var total := CeilingCost(inputTokens, model.inputCostMicrosPerMillion)
               + CeilingCost(outputTokens, model.outputCostMicrosPerMillion);
    if total > MAX_SAFE then MAX_SAFE else total
  }

  /** The least whole number of micros that covers the price. */
  lemma CeilingCostIsLeast(tokens: nat, rate: nat, micros: nat)
    ensures tokens * rate <= micros * 1_000_000 <==> CeilingCost(tokens, rate) <= micros
  {
    var price := tokens * rate;
    assert CeilingCost(tokens, rate) == (price + 999_999) / 1_000_000;
  }

  lemma MultiplyMonotone(a: nat, b: nat, rate: nat)
    requires a <= b
    ensures a * rate <= b * rate
  {
    assert b * rate == a * rate + (b - a) * rate;
  }

  lemma CeilingCostMonotone(a: nat, b: nat, rate: nat)
    requires a <= b
    ensures CeilingCost(a, rate) <= CeilingCost(b, rate)
  {
    MultiplyMonotone(a, b, rate);
    CeilingCostIsLeast(b, rate, CeilingCost(b, rate));
    CeilingCostIsLeast(a, rate, CeilingCost(b, rate));
  }

  /**
   Below saturation an estimate covers both prices, each rounded up on its own, and is the least
   such amount; using fewer tokens than estimated never costs more.
   */
  lemma EstimateCoversPrice(inputTokens: nat, outputTokens: nat, model: Model, i: nat, o: nat)
    requires i <= inputTokens && o <= outputTokens
    ensures EstimatedCost(i, o, model) <= EstimatedCost(inputTokens, outputTokens, model) <= MAX_SAFE
    ensures var cost := EstimatedCost(inputTokens, outputTokens, model);
      cost < MAX_SAFE ==>
        cost * 1_000_000 >= inputTokens * model.inputCostMicrosPerMillion
                          + outputTokens * model.outputCostMicrosPerMillion
    ensures forall a: nat, b: nat ::
      && inputTokens * model.inputCostMicrosPerMillion <= a * 1_000_000
      && outputTokens * model.outputCostMicrosPerMillion <= b * 1_000_000
      ==> EstimatedCost(inputTokens, outputTokens, model) <= a + b
  {
    var inRate, outRate := model.inputCostMicrosPerMillion, model.outputCostMicrosPerMillion;
    CeilingCostMonotone(i, inputTokens, inRate);
    CeilingCostMonotone(o, outputTokens, outRate);
    CeilingCostIsLeast(inputTokens, inRate, CeilingCost(inputTokens, inRate));
    CeilingCostIsLeast(outputTokens, outRate, CeilingCost(outputTokens, outRate));
    forall a: nat, b: nat |
      inputTokens * inRate <= a * 1_000_000 && outputTokens * outRate <= b * 1_000_000
      ensures EstimatedCost(inputTokens, outputTokens, model) <= a + b
    {
      CeilingCostIsLeast(inputTokens, inRate, a);
      CeilingCostIsLeast(outputTokens, outRate, b);
    }
  }

  // Lookups: `find` answers the first match.

  function FindActive(active: seq<ActivePrompt>, promptId: string): Option<ActivePrompt> {
    if active == [] then None
    else if active[0].promptId == promptId then Some(active[0])
    else FindActive(active[1..], promptId)
  }

  function FindPrompt(prompts: seq<Prompt>, promptId: string, version: nat): Option<Prompt> {
    if prompts == [] then None
    else if prompts[0].promptId == promptId && prompts[0].version == version then Some(prompts[0])
    else FindPrompt(prompts[1..], promptId, version)
  }

  function FindModel(models: seq<Model>, ref: ModelRef): Option<Model> {
    if models == [] then None
    else if models[0].ref == ref then Some(models[0])
    else FindModel(models[1..], ref)
  }

  function FindDay(days: seq<DailyUsage>, day: int): (found: Option<DailyUsage>)
    ensures found.Some? <==> exists i :: 0 <= i < |days| && days[i].day == day
    ensures found.Some? ==> found.value in days && found.value.day == day
  {
    if days == [] then None
    else if days[0].day == day then Some(days[0])
    else
      var found := FindDay(days[1..], day);
      assert forall i :: 1 <= i < |days| ==> days[i] == days[1..][i - 1];
      found
  }

  function FindReceipt(receipts: seq<Receipt>, requestId: string): (found: Option<Receipt>)
    ensures found.Some? <==> exists i :: 0 <= i < |receipts| && receipts[i].requestId == requestId
    ensures found.Some? ==> found.value in receipts && found.value.requestId == requestId
  {
    if receipts == [] then None
    else if receipts[0].requestId == requestId then Some(receipts[0])
    else
      var found := FindReceipt(receipts[1..], requestId);
      assert forall i :: 1 <= i < |receipts| ==> receipts[i] == receipts[1..][i - 1];
      found
  }

  datatype Admission = Admitted(prompt: Prompt, model: Model) | Denied(error: Error)

  /** `#executionPolicy`: may this request run, and under which prompt and model? */
  function ExecutionPolicy(g: Gateway, request: Request, expected: Option<nat>): Admission {
    if !g.enabled then Denied(GatewayDisabled)
    else
      var active := FindActive(g.activePrompts, request.promptId);
      if active.None? || (expected.Some? && active.value.version != expected.value)
      then Denied(PromptNotActive)
      else
        var prompt := FindPrompt(g.promptVersions, active.value.promptId, active.value.version);
        if prompt.None? then Denied(PromptNotActive)
        else
          var model := FindModel(g.models, request.ref);
          if model.None? || !model.value.enabled || request.ref !in prompt.value.allowedModels
          then Denied(ModelNotAllowed)
          else if prompt.value.maximumOutputTokens > model.value.maximumOutputTokens
          then Denied(ModelNotAllowed)
          else Admitted(prompt.value, model.value)
  }

  /** Enabled, with the prompt version active and registered and the model enabled and allowed. */
  ghost predicate Permits(g: Gateway, request: Request, version: nat) {
    && g.enabled
    && ActivePrompt(request.promptId, version) in g.activePrompts
    && exists prompt, model ::
      && prompt in g.promptVersions && model in g.models
      && prompt.promptId == request.promptId && prompt.version == version
      && model.ref == request.ref && model.enabled && request.ref in prompt.allowedModels
      && prompt.maximumOutputTokens <= model.maximumOutputTokens
  }

  lemma {:induction false} FoundActive(active: seq<ActivePrompt>, promptId: string)
    ensures var found := FindActive(active, promptId);
      found.Some? ==> found.value in active && found.value.promptId == promptId
  {
    if active != [] && active[0].promptId != promptId { FoundActive(active[1..], promptId); }
  }

  lemma {:induction false} FoundPrompt(prompts: seq<Prompt>, promptId: string, version: nat)
    ensures var found := FindPrompt(prompts, promptId, version);
      found.Some? ==>
        && found.value in prompts
        && found.value.promptId == promptId && found.value.version == version
  {
    if prompts != [] { FoundPrompt(prompts[1..], promptId, version); }
  }

  lemma {:induction false} FoundModel(models: seq<Model>, ref: ModelRef)
    ensures var found := FindModel(models, ref);
      found.Some? ==> found.value in models && found.value.ref == ref
  {
    if models != [] { FoundModel(models[1..], ref); }
  }

  lemma AdmissionPermits(g: Gateway, request: Request, expected: Option<nat>)
    requires ExecutionPolicy(g, request, expected).Admitted?
    ensures var admitted := ExecutionPolicy(g, request, expected);
      && (expected.Some? ==> admitted.prompt.version == expected.value)
      && admitted.prompt.promptId == request.promptId
      && Permits(g, request, admitted.prompt.version)
  {
    FoundActive(g.activePrompts, request.promptId);
    var active := FindActive(g.activePrompts, request.promptId).value;
    FoundPrompt(g.promptVersions, active.promptId, active.version);
    FoundModel(g.models, request.ref);
  }

  // Changes

  function UsageOn(days: seq<DailyUsage>, day: int): Usage {
    var found := FindDay(days, day);
    if found.Some? then found.value.usage else NOTHING
  }

  /** Neither the safe integer range nor a budget component would be exceeded. */
  predicate UsageFits(current: Usage, addition: Usage, budgets: Usage) {
    var sum := current.Plus(addition);
    sum.Within(Usage(MAX_SAFE, MAX_SAFE, MAX_SAFE, MAX_SAFE)) && sum.Within(budgets)
  }

  function WithoutDay(days: seq<DailyUsage>, day: int): (kept: seq<DailyUsage>)
    ensures forall u :: u in kept <==> u in days && u.day != day
    ensures |kept| <= |days|
  {
    if days == [] then []
    else if days[0].day == day then WithoutDay(days[1..], day)
    else [days[0]] + WithoutDay(days[1..], day)
  }

  function ReplaceDay(days: seq<DailyUsage>, next: DailyUsage): (replaced: seq<DailyUsage>)
    ensures |replaced| == |days|
    ensures forall i :: 0 <= i < |days| ==> replaced[i] == if days[i].day == next.day then next else days[i]
  {
    seq(|days|, i requires 0 <= i < |days| => if days[i].day == next.day then next else days[i])
  }

  function FailReceipts(receipts: seq<Receipt>, requestId: string, now: int): (next: seq<Receipt>)
    ensures |next| == |receipts|
    ensures forall i :: 0 <= i < |receipts| ==>
      next[i] == if receipts[i].requestId == requestId && receipts[i].status.Reserved?
                 then receipts[i].(status := Failed, completedAt := Some(now)) else receipts[i]
  {
    seq(|receipts|, i requires 0 <= i < |receipts| =>
      if receipts[i].requestId == requestId && receipts[i].status.Reserved?
      then receipts[i].(status := Failed, completedAt := Some(now)) else receipts[i])
  }

  function SettleReceipts(receipts: seq<Receipt>, requestId: string, actual: Usage, now: int): (next: seq<Receipt>)
    ensures |next| == |receipts|
    ensures forall i :: 0 <= i < |receipts| ==>
      next[i] == if receipts[i].requestId == requestId
                 then receipts[i].(status := Succeeded(actual), completedAt := Some(now)) else receipts[i]
  {
    seq(|receipts|, i requires 0 <= i < |receipts| =>
      if receipts[i].requestId == requestId
      then receipts[i].(status := Succeeded(actual), completedAt := Some(now)) else receipts[i])
  }

  function ApplyReserve(limits: Limits, op: Operation, g: Gateway): Verdict<Gateway, Error>
    requires op.Reserve?
  {
    var admitted := ExecutionPolicy(g, op.request, Some(op.promptVersion));
    if admitted.Denied? then Refuse(admitted.error)
    else if FindReceipt(g.receipts, op.request.requestId).Some? then Refuse(RequestDuplicate)
    else
      var current := UsageOn(g.dailyUsage, op.day);
      if !UsageFits(current, op.reservation, g.budgets) then Refuse(BudgetExceeded)
      else
        var next := DailyUsage(op.day, current.Plus(op.reservation));
        var receipt := Receipt(op.request.requestId, op.request.promptId, op.promptVersion,
                               op.request.ref, Reserved, op.day, op.reservation, op.createdAt, None);
        Write(g.(
          dailyUsage := Newest(WithoutDay(g.dailyUsage, op.day) + [next], limits.maximumDailyUsageRecords),
          receipts := Newest(g.receipts + [receipt], limits.maximumRequestReceipts)))
  }

  function ApplySucceed(op: Operation, now: int, g: Gateway): Verdict<Gateway, Error>
    requires op.Succeed?
  {
    var admitted := ExecutionPolicy(g, op.request, Some(op.promptVersion));
    if admitted.Denied? then Refuse(admitted.error)
    else
      var receipt := FindReceipt(g.receipts, op.request.requestId);
      if receipt.None? || !receipt.value.status.Reserved? then Refuse(RequestInvalid)
      else if !op.actual.Within(receipt.value.reservedUsage) then Refuse(ProviderInvalid)
      else
        var day := receipt.value.usageDay;
        var current := FindDay(g.dailyUsage, day);
        if current.None? then Refuse(RequestInvalid)
        else
          var next := current.value.usage.Minus(receipt.value.reservedUsage.Minus(op.actual));
          Write(g.(
            dailyUsage := ReplaceDay(g.dailyUsage, DailyUsage(day, next)),
            receipts := SettleReceipts(g.receipts, op.request.requestId, op.actual, now)))
  }

  function WithoutPrompt(active: seq<ActivePrompt>, promptId: string): seq<ActivePrompt> {
    if active == [] then []
    else if active[0].promptId == promptId then WithoutPrompt(active[1..], promptId)
    else [active[0]] + WithoutPrompt(active[1..], promptId)
  }

  predicate DuplicateModels(models: seq<Model>) {
    exists i, j :: 0 <= i < j < |models| && models[i].ref == models[j].ref
  }

  /** The first allowed model decides: each must be known and its output limit respected. */
  predicate AllowedModelsKnown(g: Gateway, prompt: Prompt) {
    forall ref :: ref in prompt.allowedModels ==>
      var model := FindModel(g.models, ref);
      model.Some? && prompt.maximumOutputTokens <= model.value.maximumOutputTokens
  }

  function ApplyPolicy(limits: Limits, op: Operation, now: int, g: Gateway): Verdict<Gateway, Error>
    requires !op.Reserve? && !op.Fail? && !op.Succeed?
  {
    match op
    case UpdatePolicy(models, budgets) =>
      if DuplicateModels(models) then Refuse(InvalidPolicy)
      else Write(g.(models := models, budgets := budgets))
    case CreatePromptVersion(prompt) =>
      if FindPrompt(g.promptVersions, prompt.promptId, prompt.version).Some? then Refuse(PromptVersionExists)
      else if |g.promptVersions| >= limits.maximumPromptVersions then Refuse(PromptRegistryFull)
      else if !AllowedModelsKnown(g, prompt) then Refuse(InvalidPrompt)
      else Write(g.(promptVersions := g.promptVersions + [prompt]))
    case ActivatePrompt(promptId, version) =>
      if FindPrompt(g.promptVersions, promptId, version).None? then Refuse(PromptNotFound)
      else if FindActive(g.activePrompts, promptId).None? && |g.activePrompts| >= limits.maximumActivePrompts
      then Refuse(PromptRegistryFull)
      else Write(g.(activePrompts := WithoutPrompt(g.activePrompts, promptId) + [ActivePrompt(promptId, version)]))
    case SetState(enabled, actorId, reason) =>
      if enabled && g.activePrompts == [] then Refuse(InvalidState)
      else Write(g.(
        enabled := enabled,
        stateEvents := Newest(g.stateEvents + [StateEvent(enabled, actorId, reason, now)], limits.maximumStateEvents)))
  }

  function Apply(limits: Limits, op: Operation, now: int, g: Gateway): Verdict<Gateway, Error> {
    match op
    case Reserve(_, _, _, _, _) => ApplyReserve(limits, op, g)
    case Succeed(_, _, _) => ApplySucceed(op, now, g)
    case Fail(requestId) => Write(g.(receipts := FailReceipts(g.receipts, requestId, now)))
    case _ => ApplyPolicy(limits, op, now, g)
  }

  /** The gateway over the shared store; the schema check on save is arbitrary. */
  function GatewayProtocol(limits: Limits, accepts: Document<Gateway> -> bool): Protocol<Operation, Gateway, Error> {
    Protocol(EMPTY, (op, now, g) => Apply(limits, op, now, g), accepts)
  }
}
