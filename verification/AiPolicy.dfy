/**
 What each change of the gateway document brings about and when it is admitted, the registries kept
 free of duplicates, and the kill switch and the activations read off the log of changes.
 */
module AiPolicy {
  import opened Wrappers
  import opened VersionedStore
  import opened AiGateway

  type Log = seq<Commit<Operation, Gateway>>

  // Registries

  ghost predicate DistinctActive(active: seq<ActivePrompt>) {
    forall i, j :: 0 <= i < j < |active| ==> active[i].promptId != active[j].promptId
  }

  ghost predicate DistinctPrompts(prompts: seq<Prompt>) {
    forall i, j :: 0 <= i < j < |prompts| ==>
      !(prompts[i].promptId == prompts[j].promptId && prompts[i].version == prompts[j].version)
  }

  ghost predicate DistinctModels(models: seq<Model>) {
    forall i, j :: 0 <= i < j < |models| ==> models[i].ref != models[j].ref
  }

  /** Every registry holds each key once. */
  ghost predicate Distinct(g: Gateway) {
    DistinctActive(g.activePrompts) && DistinctPrompts(g.promptVersions) && DistinctModels(g.models)
  }

  ghost predicate Registered(g: Gateway, promptId: string, version: nat) {
    exists prompt :: prompt in g.promptVersions && prompt.promptId == promptId && prompt.version == version
  }

  ghost predicate Activated(g: Gateway, promptId: string) {
    exists active :: active in g.activePrompts && active.promptId == promptId
  }

  lemma {:induction false} FindActiveExactly(active: seq<ActivePrompt>, promptId: string)
    ensures var found := FindActive(active, promptId);
      && (found.Some? ==> found.value in active && found.value.promptId == promptId)
      && (found.None? ==> forall a :: a in active ==> a.promptId != promptId)
      && (DistinctActive(active) ==> forall a :: a in active && a.promptId == promptId ==> found == Some(a))
  {
    if active != [] {
      FindActiveExactly(active[1..], promptId);
      forall a | a in active ensures a == active[0] || a in active[1..] {}
      if DistinctActive(active) { TailDistinctActive(active); }
    }
  }

  lemma TailDistinctActive(active: seq<ActivePrompt>)
    requires active != [] && DistinctActive(active)
    ensures DistinctActive(active[1..])
    ensures forall a :: a in active[1..] ==> a.promptId != active[0].promptId
  {
    forall i, j | 0 <= i < j < |active[1..]| ensures active[1..][i].promptId != active[1..][j].promptId {
      assert active[i + 1].promptId != active[j + 1].promptId;
    }
  }

  lemma {:induction false} FindPromptExactly(prompts: seq<Prompt>, promptId: string, version: nat)
    ensures var found := FindPrompt(prompts, promptId, version);
      && (found.Some? ==> found.value in prompts && found.value.promptId == promptId && found.value.version == version)
      && (found.None? ==> forall p :: p in prompts ==> !(p.promptId == promptId && p.version == version))
      && (DistinctPrompts(prompts) ==>
            forall p :: p in prompts && p.promptId == promptId && p.version == version ==> found == Some(p))
  {
    if prompts != [] {
      FindPromptExactly(prompts[1..], promptId, version);
      forall p | p in prompts ensures p == prompts[0] || p in prompts[1..] {}
      if DistinctPrompts(prompts) { TailDistinctPrompts(prompts); }
    }
  }

  lemma TailDistinctPrompts(prompts: seq<Prompt>)
    requires prompts != [] && DistinctPrompts(prompts)
    ensures DistinctPrompts(prompts[1..])
    ensures forall p :: p in prompts[1..] ==> !(p.promptId == prompts[0].promptId && p.version == prompts[0].version)
  {
    forall i, j | 0 <= i < j < |prompts[1..]|
      ensures !(prompts[1..][i].promptId == prompts[1..][j].promptId && prompts[1..][i].version == prompts[1..][j].version)
    {
      assert prompts[1..][i] == prompts[i + 1] && prompts[1..][j] == prompts[j + 1];
    }
  }

  lemma {:induction false} FindModelExactly(models: seq<Model>, ref: ModelRef)
    ensures var found := FindModel(models, ref);
      && (found.Some? ==> found.value in models && found.value.ref == ref)
      && (found.None? ==> forall m :: m in models ==> m.ref != ref)
      && (DistinctModels(models) ==> forall m :: m in models && m.ref == ref ==> found == Some(m))
  {
    if models != [] {
      FindModelExactly(models[1..], ref);
      forall m | m in models ensures m == models[0] || m in models[1..] {}
      if DistinctModels(models) { TailDistinctModels(models); }
    }
  }

  lemma TailDistinctModels(models: seq<Model>)
    requires models != [] && DistinctModels(models)
    ensures DistinctModels(models[1..])
    ensures forall m :: m in models[1..] ==> m.ref != models[0].ref
  {
    forall i, j | 0 <= i < j < |models[1..]| ensures models[1..][i].ref != models[1..][j].ref {
      assert models[i + 1].ref != models[j + 1].ref;
    }
  }

  // Admission

  /** The prompt version and model a request runs under. */
  ghost predicate RunsUnder(g: Gateway, request: Request, prompt: Prompt, model: Model) {
    && ActivePrompt(request.promptId, prompt.version) in g.activePrompts
    && prompt in g.promptVersions && prompt.promptId == request.promptId
    && model in g.models && model.ref == request.ref && model.enabled
    && request.ref in prompt.allowedModels && prompt.maximumOutputTokens <= model.maximumOutputTokens
  }

  /** The active version of the request's prompt, the expected one if one is, is registered. */
  ghost predicate Answers(g: Gateway, request: Request, expected: Option<nat>) {
    exists active :: active in g.activePrompts && active.promptId == request.promptId
      && Registered(g, active.promptId, active.version) && (expected.Some? ==> active.version == expected.value)
  }

  ghost predicate Allows(g: Gateway, request: Request, expected: Option<nat>) {
    exists prompt, model :: RunsUnder(g, request, prompt, model) && (expected.Some? ==> prompt.version == expected.value)
  }

  /**
   With distinct registries a request is admitted exactly when the gateway is on and some prompt and
   model allow it, under just these; a denial names the first condition that fails.
   */
  lemma AdmissionExactly(g: Gateway, request: Request, expected: Option<nat>)
    requires Distinct(g)
    ensures var admission := ExecutionPolicy(g, request, expected);
      && (admission.Admitted? <==> g.enabled && Allows(g, request, expected))
      && (admission.Admitted? ==>
            && RunsUnder(g, request, admission.prompt, admission.model)
            && (expected.Some? ==> admission.prompt.version == expected.value))
      && (admission.Denied? ==>
            admission.error == (if !g.enabled then GatewayDisabled
                                else if !Answers(g, request, expected) then PromptNotActive else ModelNotAllowed))
  {
    FindActiveExactly(g.activePrompts, request.promptId);
    var active := FindActive(g.activePrompts, request.promptId);
    FindModelExactly(g.models, request.ref);
    if active.Some? {
      FindPromptExactly(g.promptVersions, active.value.promptId, active.value.version);
      forall prompt, model | RunsUnder(g, request, prompt, model)
        ensures active.value.version == prompt.version
        ensures FindPrompt(g.promptVersions, active.value.promptId, active.value.version) == Some(prompt)
        ensures FindModel(g.models, request.ref) == Some(model)
      {
        assert active == Some(ActivePrompt(request.promptId, prompt.version));
      }
    }
    AdmissionWitness(g, request, expected);
  }

  lemma AdmissionWitness(g: Gateway, request: Request, expected: Option<nat>)
    requires Distinct(g)
    ensures var admission := ExecutionPolicy(g, request, expected);
      admission.Admitted? ==> RunsUnder(g, request, admission.prompt, admission.model)
  {
    FoundActive(g.activePrompts, request.promptId);
    var active := FindActive(g.activePrompts, request.promptId);
    if active.Some? { FoundPrompt(g.promptVersions, active.value.promptId, active.value.version); }
    FoundModel(g.models, request.ref);
  }

  // Operators' changes

  lemma {:induction false} WithoutPromptKeeps(active: seq<ActivePrompt>, promptId: string)
    ensures var kept := WithoutPrompt(active, promptId);
      && (forall a :: a in kept <==> a in active && a.promptId != promptId)
      && |kept| <= |active|
      && (DistinctActive(active) ==> DistinctActive(kept))
  {
    if active != [] {
      WithoutPromptKeeps(active[1..], promptId);
      forall a | a in active ensures a == active[0] || a in active[1..] {}
      if DistinctActive(active) { TailDistinctActive(active); }
    }
  }

  /** The switch takes the state asked for, logs who asked and why, and changes nothing else. */
  lemma SetStateLaw(limits: Limits, op: Operation, now: int, g: Gateway)
    requires op.SetState?
    ensures var verdict := Apply(limits, op, now, g);
      if op.enabled && g.activePrompts == [] then verdict == Refuse(InvalidState)
      else
        && verdict.Write?
        && verdict.body.enabled == op.enabled
        && verdict.body.stateEvents
             == Newest(g.stateEvents + [StateEvent(op.enabled, op.actorId, op.reason, now)], limits.maximumStateEvents)
        && verdict.body.(enabled := g.enabled, stateEvents := g.stateEvents) == g
  {
  }

  /** After an activation its prompt runs that version, and every other prompt the version it ran before. */
  lemma ActivateLaw(limits: Limits, op: Operation, now: int, g: Gateway)
    requires op.ActivatePrompt?
    ensures var verdict := Apply(limits, op, now, g);
      && (verdict.Write? <==>
            && Registered(g, op.promptId, op.version)
            && (Activated(g, op.promptId) || |g.activePrompts| < limits.maximumActivePrompts))
      && (!verdict.Write? ==>
            verdict == Refuse(if Registered(g, op.promptId, op.version) then PromptRegistryFull else PromptNotFound))
      && (verdict.Write? ==>
            && (forall a :: a in verdict.body.activePrompts <==>
                  if a.promptId == op.promptId then a.version == op.version else a in g.activePrompts)
            && verdict.body.(activePrompts := g.activePrompts) == g)
  {
    FindPromptExactly(g.promptVersions, op.promptId, op.version);
    FindActiveExactly(g.activePrompts, op.promptId);
    WithoutPromptKeeps(g.activePrompts, op.promptId);
  }

  /** A new prompt version is registered behind the others unless it is known, there is no room or it asks too much. */
  lemma CreateLaw(limits: Limits, op: Operation, now: int, g: Gateway)
    requires op.CreatePromptVersion? && Distinct(g)
    ensures var verdict := Apply(limits, op, now, g);
      var prompt := op.prompt;
      if Registered(g, prompt.promptId, prompt.version) then verdict == Refuse(PromptVersionExists)
      else if |g.promptVersions| >= limits.maximumPromptVersions then verdict == Refuse(PromptRegistryFull)
      else if forall ref :: ref in prompt.allowedModels ==>
        exists model :: model in g.models && model.ref == ref && prompt.maximumOutputTokens <= model.maximumOutputTokens
      then
        && verdict.Write? && verdict.body.promptVersions == g.promptVersions + [prompt]
        && verdict.body.(promptVersions := g.promptVersions) == g
      else verdict == Refuse(InvalidPrompt)
  {
    FindPromptExactly(g.promptVersions, op.prompt.promptId, op.prompt.version);
    forall ref | ref in op.prompt.allowedModels
      ensures var model := FindModel(g.models, ref);
        (model.Some? && op.prompt.maximumOutputTokens <= model.value.maximumOutputTokens) <==>
        exists model :: model in g.models && model.ref == ref && op.prompt.maximumOutputTokens <= model.maximumOutputTokens
    {
      FindModelExactly(g.models, ref);
    }
  }

  /** A policy replaces models and budgets together, unless it names a model twice. */
  lemma UpdateLaw(limits: Limits, op: Operation, now: int, g: Gateway)
    requires op.UpdatePolicy?
    ensures var verdict := Apply(limits, op, now, g);
      if DistinctModels(op.models) then
        && verdict.Write? && verdict.body.models == op.models && verdict.body.budgets == op.budgets
        && verdict.body.(models := g.models, budgets := g.budgets) == g
      else verdict == Refuse(InvalidPolicy)
  {
  }

  // Requests' changes

  ghost predicate Known(g: Gateway, requestId: string) {
    exists receipt :: receipt in g.receipts && receipt.requestId == requestId
  }

  lemma {:induction false} KnownExactly(g: Gateway, requestId: string)
    ensures FindReceipt(g.receipts, requestId).Some? <==> Known(g, requestId)
  {
  }

  /** A reservation is written exactly for an allowed, new request that fits what is left of the day's budgets. */
  lemma ReserveExactly(limits: Limits, op: Operation, now: int, g: Gateway)
    requires op.Reserve? && Distinct(g)
    ensures var verdict := Apply(limits, op, now, g);
      var total := UsageOn(g.dailyUsage, op.day).Plus(op.reservation);
      if !g.enabled then verdict == Refuse(GatewayDisabled)
      else if !Answers(g, op.request, Some(op.promptVersion)) then verdict == Refuse(PromptNotActive)
      else if !Allows(g, op.request, Some(op.promptVersion)) then verdict == Refuse(ModelNotAllowed)
      else if Known(g, op.request.requestId) then verdict == Refuse(RequestDuplicate)
      else if !total.Within(g.budgets) || !total.Within(Usage(MAX_SAFE, MAX_SAFE, MAX_SAFE, MAX_SAFE))
      then verdict == Refuse(BudgetExceeded)
      else verdict.Write?
  {
    AdmissionExactly(g, op.request, Some(op.promptVersion));
    KnownExactly(g, op.request.requestId);
    if Allows(g, op.request, Some(op.promptVersion)) { AllowedAnswers(g, op.request, Some(op.promptVersion)); }
  }

  lemma AllowedAnswers(g: Gateway, request: Request, expected: Option<nat>)
    requires Allows(g, request, expected)
    ensures Answers(g, request, expected)
  {
    var prompt, model :| RunsUnder(g, request, prompt, model) && (expected.Some? ==> prompt.version == expected.value);
    var active := ActivePrompt(request.promptId, prompt.version);
    assert active in g.activePrompts && Registered(g, active.promptId, active.version);
  }

  /** Records apart from one day's, and a new one of that day behind them, as far as there is room. */
  ghost predicate DayReplaced(days: seq<DailyUsage>, added: DailyUsage, next: seq<DailyUsage>, room: nat) {
    && next != [] && next[|next| - 1] == added && |next| <= room
    && (forall i :: 0 <= i < |next| - 1 ==> next[i] in days && next[i].day != added.day)
    && (|next| < room ==> forall record :: record in days && record.day != added.day ==> record in next)
  }

  lemma OthersInPlace(kept: seq<DailyUsage>, added: DailyUsage, next: seq<DailyUsage>, n: nat)
    requires n <= |kept| && next == (kept + [added])[n..]
    ensures next != [] && next[|next| - 1] == added
    ensures forall i :: 0 <= i < |next| - 1 ==> next[i] == kept[n + i]
    ensures n == 0 ==> next == kept + [added]
  {
  }

  lemma {:induction false} ReplacesDay(days: seq<DailyUsage>, added: DailyUsage, count: nat)
    requires count > 0
    ensures DayReplaced(days, added, Newest(WithoutDay(days, added.day) + [added], count), count)
  {
    var kept := WithoutDay(days, added.day);
    var next := Newest(kept + [added], count);
    OthersInPlace(kept, added, next, |kept| + 1 - |next|);
    KeptIsReplaced(days, kept, added, next, count);
  }

  lemma KeptIsReplaced(days: seq<DailyUsage>, kept: seq<DailyUsage>, added: DailyUsage, next: seq<DailyUsage>, count: nat)
    requires forall u :: u in kept <==> u in days && u.day != added.day
    requires next != [] && next[|next| - 1] == added && |next| <= count && |next| <= |kept| + 1
    requires forall i :: 0 <= i < |next| - 1 ==> next[i] == kept[|kept| + 1 - |next| + i]
    requires |next| < count ==> next == kept + [added]
    ensures DayReplaced(days, added, next, count)
  {
    forall i | 0 <= i < |next| - 1 ensures next[i] in days && next[i].day != added.day {
      assert next[i] in kept;
    }
  }

  /** The receipt of a reservation not yet settled or failed. */
  function Fresh(op: Operation): Receipt
    requires op.Reserve?
  {
    Receipt(op.request.requestId, op.request.promptId, op.promptVersion, op.request.ref,
            Reserved, op.day, op.reservation, op.createdAt, None)
  }

  /** What a reservation writes: one receipt behind the others and its usage on top of its day's, and nothing else. */
  lemma ReserveLaw(limits: Limits, op: Operation, now: int, g: Gateway, next: Gateway, total: Usage)
    requires Positive(limits) && op.Reserve? && Apply(limits, op, now, g) == Write(next)
    requires total == UsageOn(g.dailyUsage, op.day).Plus(op.reservation)
    ensures next.receipts == Newest(g.receipts + [Fresh(op)], limits.maximumRequestReceipts)
    ensures DayReplaced(g.dailyUsage, DailyUsage(op.day, total), next.dailyUsage, limits.maximumDailyUsageRecords)
    ensures next.(receipts := g.receipts, dailyUsage := g.dailyUsage) == g
  {
    var added := DailyUsage(op.day, total);
    ReplacesDay(g.dailyUsage, added, limits.maximumDailyUsageRecords);
    ReserveWrites(limits, op, g, next, added);
  }

  lemma ReserveWrites(limits: Limits, op: Operation, g: Gateway, next: Gateway, added: DailyUsage)
    requires op.Reserve? && ApplyReserve(limits, op, g) == Write(next)
    requires added.day == op.day && added.usage == UsageOn(g.dailyUsage, op.day).Plus(op.reservation)
    ensures next == g.(
      dailyUsage := Newest(WithoutDay(g.dailyUsage, op.day) + [added], limits.maximumDailyUsageRecords),
      receipts := Newest(g.receipts + [Fresh(op)], limits.maximumRequestReceipts))
  {
    var total := UsageOn(g.dailyUsage, op.day).Plus(op.reservation);
    assert added == DailyUsage(op.day, total);
  }

  /** A settlement is written exactly while the request is still allowed, reserved, recorded and not exceeded. */
  lemma SucceedExactly(limits: Limits, op: Operation, now: int, g: Gateway)
    requires op.Succeed? && Distinct(g)
    ensures var verdict := Apply(limits, op, now, g);
      var receipt := FindReceipt(g.receipts, op.request.requestId);
      if !g.enabled then verdict == Refuse(GatewayDisabled)
      else if !Answers(g, op.request, Some(op.promptVersion)) then verdict == Refuse(PromptNotActive)
      else if !Allows(g, op.request, Some(op.promptVersion)) then verdict == Refuse(ModelNotAllowed)
      else if receipt.None? || !receipt.value.status.Reserved? then verdict == Refuse(RequestInvalid)
      else if !op.actual.Within(receipt.value.reservedUsage) then verdict == Refuse(ProviderInvalid)
      else if forall record :: record in g.dailyUsage ==> record.day != receipt.value.usageDay
      then verdict == Refuse(RequestInvalid)
      else verdict.Write?
  {
    AdmissionExactly(g, op.request, Some(op.promptVersion));
    if Allows(g, op.request, Some(op.promptVersion)) { AllowedAnswers(g, op.request, Some(op.promptVersion)); }
    var receipt := FindReceipt(g.receipts, op.request.requestId);
    if receipt.Some? {
      var found := FindDay(g.dailyUsage, receipt.value.usageDay);
      if found.None? {
        forall record | record in g.dailyUsage ensures record.day != receipt.value.usageDay {
          var i :| 0 <= i < |g.dailyUsage| && g.dailyUsage[i] == record;
        }
      }
    }
  }

  /** What a settlement writes: the receipt succeeded at its actual usage, and the difference taken off its day. */
  lemma SucceedLaw(limits: Limits, op: Operation, now: int, g: Gateway, next: Gateway)
    requires op.Succeed? && Apply(limits, op, now, g) == Write(next)
    ensures FindReceipt(g.receipts, op.request.requestId).Some?
    ensures var receipt := FindReceipt(g.receipts, op.request.requestId).value;
      var given := receipt.reservedUsage.Minus(op.actual);
      && |next.receipts| == |g.receipts| && |next.dailyUsage| == |g.dailyUsage|
      && (forall i :: 0 <= i < |g.receipts| ==>
            next.receipts[i] == if g.receipts[i].requestId == op.request.requestId
                                then g.receipts[i].(status := Succeeded(op.actual), completedAt := Some(now))
                                else g.receipts[i])
      && (forall i :: 0 <= i < |g.dailyUsage| ==>
            next.dailyUsage[i] == if g.dailyUsage[i].day == receipt.usageDay
                                  then DailyUsage(receipt.usageDay, UsageOn(g.dailyUsage, receipt.usageDay).Minus(given))
                                  else g.dailyUsage[i])
      && next.(receipts := g.receipts, dailyUsage := g.dailyUsage) == g
  {
  }

  // Over the log

  lemma DistinctKept(limits: Limits, op: Operation, now: int, g: Gateway, next: Gateway)
    requires Distinct(g) && Apply(limits, op, now, g) == Write(next)
    ensures Distinct(next)
  {
    match op
    case UpdatePolicy(_, _) => UpdateLaw(limits, op, now, g);
    case CreatePromptVersion(prompt) =>
      CreateLaw(limits, op, now, g);
      forall i | 0 <= i < |g.promptVersions|
        ensures !(g.promptVersions[i].promptId == prompt.promptId && g.promptVersions[i].version == prompt.version)
      {
        assert g.promptVersions[i] in g.promptVersions;
      }
    case ActivatePrompt(promptId, version) => WithoutPromptKeeps(g.activePrompts, promptId);
    case SetState(_, _, _) => SetStateLaw(limits, op, now, g);
    case _ =>
  }

  lemma {:induction false} LogDistinct(limits: Limits, accepts: Document<Gateway> -> bool, log: Log)
    requires Linear(GatewayProtocol(limits, accepts), log)
    ensures Distinct(BodyOf(Latest(log), EMPTY))
  {
    if log != [] {
      var p := GatewayProtocol(limits, accepts);
      var n := |log| - 1;
      LinearPrefix(p, log, n);
      LogDistinct(limits, accepts, log[..n]);
      assert LinearAt(p, log, n);
      DistinctKept(limits, log[n].op, log[n].now, BodyOf(log[n].before, EMPTY), log[n].after.body);
    }
  }

  /** The state last asked for; off if none was. */
  ghost predicate SwitchedOn(log: Log) {
    exists i :: && 0 <= i < |log| && log[i].op.SetState? && log[i].op.enabled
                && forall j :: i < j < |log| ==> !log[j].op.SetState?
  }

  /** The version last activated for a prompt. */
  ghost predicate LastActivated(log: Log, promptId: string, version: nat) {
    exists i :: && 0 <= i < |log| && log[i].op == ActivatePrompt(promptId, version)
                && forall j :: i < j < |log| ==> !(log[j].op.ActivatePrompt? && log[j].op.promptId == promptId)
  }

  lemma {:induction false} SwitchIsLastState(limits: Limits, accepts: Document<Gateway> -> bool, log: Log)
    requires Linear(GatewayProtocol(limits, accepts), log)
    ensures BodyOf(Latest(log), EMPTY).enabled <==> SwitchedOn(log)
  {
    if log != [] {
      var p := GatewayProtocol(limits, accepts);
      var n := |log| - 1;
      LinearPrefix(p, log, n);
      SwitchIsLastState(limits, accepts, log[..n]);
      assert LinearAt(p, log, n);
      var g := BodyOf(log[n].before, EMPTY);
      if log[n].op.SetState? {
        SetStateLaw(limits, log[n].op, log[n].now, g);
      } else {
        assert log[n].after.body.enabled == g.enabled;
        SwitchStays(log);
      }
    }
  }

  lemma SwitchStays(log: Log)
    requires log != [] && !log[|log| - 1].op.SetState?
    ensures SwitchedOn(log) <==> SwitchedOn(log[..|log| - 1])
  {
    var earlier := log[..|log| - 1];
    if SwitchedOn(log) {
      var i :| && 0 <= i < |log| && log[i].op.SetState? && log[i].op.enabled
               && forall j :: i < j < |log| ==> !log[j].op.SetState?;
      assert earlier[i] == log[i];
    }
    if SwitchedOn(earlier) {
      var i :| && 0 <= i < |earlier| && earlier[i].op.SetState? && earlier[i].op.enabled
               && forall j :: i < j < |earlier| ==> !earlier[j].op.SetState?;
      forall j | i < j < |log| ensures !log[j].op.SetState? {
        if j < |earlier| { assert earlier[j] == log[j]; }
      }
      assert log[i] == earlier[i];
    }
  }

  lemma {:induction false} ActiveIsLastActivated(limits: Limits, accepts: Document<Gateway> -> bool, log: Log,
                                                 promptId: string, version: nat)
    requires Linear(GatewayProtocol(limits, accepts), log)
    ensures ActivePrompt(promptId, version) in BodyOf(Latest(log), EMPTY).activePrompts
       <==> LastActivated(log, promptId, version)
  {
    if log != [] {
      var p := GatewayProtocol(limits, accepts);
      var n := |log| - 1;
      LinearPrefix(p, log, n);
      ActiveIsLastActivated(limits, accepts, log[..n], promptId, version);
      assert LinearAt(p, log, n);
      var g := BodyOf(log[n].before, EMPTY);
      if log[n].op.ActivatePrompt? { ActivateLaw(limits, log[n].op, log[n].now, g); }
      if log[n].op.ActivatePrompt? && log[n].op.promptId == promptId {
        assert log[n].op == ActivatePrompt(promptId, log[n].op.version);
      } else {
        ActivationStays(log, promptId, version);
      }
    }
  }

  lemma ActivationStays(log: Log, promptId: string, version: nat)
    requires log != [] && !(log[|log| - 1].op.ActivatePrompt? && log[|log| - 1].op.promptId == promptId)
    ensures LastActivated(log, promptId, version) <==> LastActivated(log[..|log| - 1], promptId, version)
  {
    var earlier := log[..|log| - 1];
    if LastActivated(log, promptId, version) {
      var i :| && 0 <= i < |log| && log[i].op == ActivatePrompt(promptId, version)
               && forall j :: i < j < |log| ==> !(log[j].op.ActivatePrompt? && log[j].op.promptId == promptId);
      assert earlier[i] == log[i];
    }
    if LastActivated(earlier, promptId, version) {
      var i :| && 0 <= i < |earlier| && earlier[i].op == ActivatePrompt(promptId, version)
               && forall j :: i < j < |earlier| ==> !(earlier[j].op.ActivatePrompt? && earlier[j].op.promptId == promptId);
      forall j | i < j < |log| ensures !(log[j].op.ActivatePrompt? && log[j].op.promptId == promptId) {
        if j < |earlier| { assert earlier[j] == log[j]; }
      }
      assert log[i] == earlier[i];
    }
  }

  /**
   The kill switch, over every log: a reservation or settlement is committed only where the state
   last asked for was on and the version it runs under was the one last activated for its prompt.
   */
  lemma KillSwitchHolds(limits: Limits, accepts: Document<Gateway> -> bool, log: Log, i: nat)
    requires Linear(GatewayProtocol(limits, accepts), log) && i < |log|
    requires log[i].op.Reserve? || log[i].op.Succeed?
    ensures SwitchedOn(log[..i])
    ensures LastActivated(log[..i], log[i].op.request.promptId, log[i].op.promptVersion)
  {
    var p := GatewayProtocol(limits, accepts);
    LinearPrefix(p, log, i);
    assert LinearAt(p, log, i);
    AdmissionPermits(BodyOf(log[i].before, EMPTY), log[i].op.request, Some(log[i].op.promptVersion));
    SwitchIsLastState(limits, accepts, log[..i]);
    ActiveIsLastActivated(limits, accepts, log[..i], log[i].op.request.promptId, log[i].op.promptVersion);
  }
}
