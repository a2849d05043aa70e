/**
 AI authoring proposals: generated, evaluated and stored by one client, reviewed by another, over
 the shared versioned store, while policies and content change between any two steps.
 */
module AiAuthoring {
  import opened Wrappers
  import opened VersionedStore

  datatype Rule =
    | MinimumLength(id: string, fieldPath: string, minimum: nat)
    | MaximumLength(id: string, fieldPath: string, maximum: nat)
    | RequiredTerm(id: string, fieldPath: string, term: string)
    | ForbiddenTerm(id: string, fieldPath: string, term: string)

  datatype Action = Action(
    id: string, enabled: bool, promptId: string, contentType: string, targetFields: seq<string>,
    maximumChanges: nat, evaluationRules: seq<Rule>)

  datatype Change = Change(fieldPath: string, value: string)
  datatype Target = Target(entryId: string, contentType: string, revisionId: string)
  datatype Draft = Draft(target: Target, data: map<string, string>)

  datatype Status = EvaluationFailed | PendingReview | Approved | Rejected | Stale
  datatype Result = Result(ruleId: string, passed: bool)
  datatype Decision = Approve | Reject
  datatype Review = Review(decision: Decision, actorId: string, occurredAt: int)

  datatype Proposal = Proposal(
    id: string, status: Status, action: Action, documentVersion: nat, target: Target,
    changes: seq<Change>, passed: bool, results: seq<Result>, requestId: string, reviews: seq<Review>)

  datatype Authoring = Authoring(enabled: bool, actions: seq<Action>, proposals: seq<Proposal>)

  /** `normalize` stands for lower-casing and NFKC, which the rules apply to texts and terms alike. */
  datatype Settings = Settings(maximumProposals: nat, normalize: string -> string)

  datatype Error = Disabled | ActionChanged | Duplicate

  /** What a proposal was asked for. */
  datatype Input = Input(actionId: string, promptId: string, entryId: string, expectedRevisionId: string)

  /** What the clients write. `input`, `draft` and `seen` are what was asked and read on the way; they are not stored. */
  datatype Operation =
    | UpdatePolicy(enabled: bool, actions: seq<Action>)
    | Propose(proposal: Proposal, input: Input, draft: Draft)
    | MarkStale(proposalId: string, target: Target)
    | Decide(proposalId: string, decision: Decision, actorId: string, seen: Option<Target>)

  const EMPTY := Authoring(false, [], [])

  // Evaluation

  /** The suggestions applied in order to the draft's data; the last one for a field wins. */
  function Candidate(data: map<string, string>, changes: seq<Change>): map<string, string> {
    if changes == [] then data
    else
      var last := |changes| - 1;
      Candidate(data, changes[..last])[changes[last].fieldPath := changes[last].value]
  }

  predicate StandsAt(text: string, term: string, i: int) {
    0 <= i <= |text| - |term| && text[i..i + |term|] == term
  }

  predicate Contains(text: string, term: string) {
    exists i :: 0 <= i <= |text| && StandsAt(text, term, i)
  }

  predicate Holds(settings: Settings, rule: Rule, candidate: map<string, string>) {
    var value := if rule.fieldPath in candidate then candidate[rule.fieldPath] else "";
    match rule
    case MinimumLength(_, _, minimum) => |value| >= minimum
    case MaximumLength(_, _, maximum) => |value| <= maximum
    case RequiredTerm(_, _, term) => Contains(settings.normalize(value), settings.normalize(term))
    case ForbiddenTerm(_, _, term) => !Contains(settings.normalize(value), settings.normalize(term))
  }

  function RuleResults(settings: Settings, rules: seq<Rule>, candidate: map<string, string>): seq<Result> {
    seq(|rules|, i requires 0 <= i < |rules| => Result(rules[i].id, Holds(settings, rules[i], candidate)))
  }

  predicate AllPassed(results: seq<Result>) {
    forall i :: 0 <= i < |results| ==> results[i].passed
  }

  predicate InContract(action: Action, changes: seq<Change>) {
    |changes| <= action.maximumChanges && forall i :: 0 <= i < |changes| ==> changes[i].fieldPath in action.targetFields
  }

  function Evaluated(settings: Settings, id: string, action: Action, version: nat, draft: Draft,
                     suggestions: seq<Change>, schemaOk: bool, requestId: string): Proposal {
    var results := [Result("gridstory:content-schema", schemaOk)]
                   + RuleResults(settings, action.evaluationRules, Candidate(draft.data, suggestions));
    var passed := AllPassed(results);
    Proposal(id, if passed then PendingReview else EvaluationFailed, action, version, draft.target,
             if passed then suggestions else [], passed, results, requestId, [])
  }

  // The changes

  function FindAction(actions: seq<Action>, id: string): Option<Action> {
    if actions == [] then None
    else if actions[0].id == id then Some(actions[0])
    else FindAction(actions[1..], id)
  }

  function FindEnabled(actions: seq<Action>, id: string): (found: Option<Action>)
    ensures found.Some? ==> found.value in actions && found.value.id == id && found.value.enabled
  {
    if actions == [] then None
    else if actions[0].id == id && actions[0].enabled then Some(actions[0])
    else FindEnabled(actions[1..], id)
  }

  function FindProposal(proposals: seq<Proposal>, id: string): (found: Option<Proposal>)
    ensures found.Some? ==> found.value in proposals && found.value.id == id
    ensures found.None? ==> forall i :: 0 <= i < |proposals| ==> proposals[i].id != id
  {
    if proposals == [] then None
    else if proposals[0].id == id then Some(proposals[0])
    else FindProposal(proposals[1..], id)
  }

  function StatusOf(decision: Decision): Status {
    if decision == Approve then Status.Approved else Status.Rejected
  }

  /** What a review makes of one proposal. */
  function Reviewed(proposal: Proposal, op: Operation, now: int): Proposal
    requires op.MarkStale? || op.Decide?
  {
    if proposal.id != op.proposalId then proposal
    else if op.MarkStale? then proposal.(status := Stale)
    else proposal.(status := StatusOf(op.decision), reviews := [Review(op.decision, op.actorId, now)])
  }

  function AllReviewed(proposals: seq<Proposal>, op: Operation, now: int): (reviewed: seq<Proposal>)
    requires op.MarkStale? || op.Decide?
    ensures |reviewed| == |proposals|
    ensures forall i :: 0 <= i < |proposals| ==> reviewed[i] == Reviewed(proposals[i], op, now)
  {
    seq(|proposals|, i requires 0 <= i < |proposals| => Reviewed(proposals[i], op, now))
  }

  predicate HasRequest(proposals: seq<Proposal>, requestId: string) {
    exists i :: 0 <= i < |proposals| && proposals[i].requestId == requestId
  }

  function Apply(settings: Settings, op: Operation, now: int, document: Authoring): Verdict<Authoring, Error> {
    match op
    case UpdatePolicy(enabled, actions) => Write(document.(enabled := enabled, actions := actions))
    case Propose(proposal, _, _) =>
      if !document.enabled then Refuse(Disabled)
      else
        var current := FindAction(document.actions, proposal.action.id);
        if current.None? || !current.value.enabled || current.value != proposal.action then Refuse(ActionChanged)
        else if HasRequest(document.proposals, proposal.requestId) then Refuse(Duplicate)
        else Write(document.(proposals := Newest(document.proposals + [proposal], settings.maximumProposals)))
    case MarkStale(_, _) => Write(document.(proposals := AllReviewed(document.proposals, op, now)))
    case Decide(_, _, _, _) => Write(document.(proposals := AllReviewed(document.proposals, op, now)))
  }

  type Rules = Protocol<Operation, Authoring, Error>
  type Store = System<Operation, Authoring, Error>
  type Log = seq<Commit<Operation, Authoring>>

  function AuthoringProtocol(settings: Settings, accepts: Document<Authoring> -> bool): Rules {
    Protocol(EMPTY, (op, now, document) => Apply(settings, op, now, document), accepts)
  }

  // The programs of the clients

  datatype Task =
    | Targeting(input: Input, action: Action, version: nat)
    | Generating(input: Input, action: Action, version: nat, draft: Draft)
    | Validating(input: Input, action: Action, version: nat, draft: Draft, suggestions: seq<Change>, requestId: string)
    | Checking(proposal: Proposal, actorId: string, expected: nat)

  datatype World = World(store: Store, tasks: map<nat, Task>)

  datatype Happening =
    | ProposalAsked(client: nat, input: Input)
    | TargetRead(client: nat, draft: Draft)
    | Answered(client: nat, complete: bool, suggestions: Option<seq<Change>>, requestId: string)
    | Validated(client: nat, schemaOk: bool, id: string)
    | ReviewAsked(client: nat, human: bool, proposalId: string, actorId: string, expected: nat, decision: Decision)
    | PolicyAsked(client: nat, expected: nat, enabled: bool, actions: seq<Action>)
    | Abandoned(client: nat)                 // an awaited call failed
    | StoreStep(event: Event<Operation>)     // anyone's next repository call

  predicate Unoccupied(w: World, c: nat) {
    c !in w.tasks && Free(ClientOf(w.store, c))
  }

  function With(w: World, c: nat, task: Task): World {
    w.(tasks := w.tasks[c := task])
  }

  function Send(p: Rules, w: World, event: Event<Operation>): World {
    World(Next(p, w.store, event), w.tasks - {event.client})
  }

  function Dropped(w: World, c: nat): World {
    w.(tasks := w.tasks - {c})
  }

  function AskProposal(w: World, c: nat, input: Input): World {
    var document := BodyOf(w.store.stored, EMPTY);
    var action := FindEnabled(document.actions, input.actionId);
    if !document.enabled || action.None? || input.promptId != action.value.promptId then w
    else With(w, c, Targeting(input, action.value, VersionOf(w.store.stored)))
  }

  /** An approval's operation, from what was read of the entry it asked for by the proposal's id. */
  function AfterReading(proposal: Proposal, actorId: string, draft: Draft): Operation {
    var read := Target(proposal.target.entryId, draft.target.contentType, draft.target.revisionId);
    if draft.target.contentType != proposal.target.contentType || draft.target.revisionId != proposal.target.revisionId
    then MarkStale(proposal.id, read)
    else Decide(proposal.id, Approve, actorId, Some(read))
  }

  function ReadTarget(p: Rules, w: World, c: nat, draft: Draft): World
    requires c in w.tasks
  {
    match w.tasks[c]
    case Targeting(input, action, version) =>
      if draft.target.contentType != action.contentType || draft.target.revisionId != input.expectedRevisionId
      then Dropped(w, c)
      else With(w, c, Generating(input, action, version, draft.(target := draft.target.(entryId := input.entryId))))
    case Checking(proposal, actorId, expected) =>
      Send(p, w, BeginReplace(c, AfterReading(proposal, actorId, draft), expected))
    case _ => w
  }

  function AskReview(p: Rules, w: World, c: nat, proposalId: string, actorId: string, expected: nat,
                     decision: Decision): World {
    var found := FindProposal(BodyOf(w.store.stored, EMPTY).proposals, proposalId);
    if VersionOf(w.store.stored) != expected || found.None? then w
    else if found.value.status != PendingReview || !found.value.passed then w
    else if decision == Approve then With(w, c, Checking(found.value, actorId, expected))
    else Send(p, w, BeginReplace(c, Decide(proposalId, Reject, actorId, None), expected))
  }

  function Happen(settings: Settings, p: Rules, w: World, h: Happening): World {
    match h
    case ProposalAsked(c, input) => if Unoccupied(w, c) then AskProposal(w, c, input) else w
    case TargetRead(c, draft) => if c in w.tasks then ReadTarget(p, w, c, draft) else w
    case Answered(c, complete, suggestions, requestId) =>
      if c !in w.tasks || !w.tasks[c].Generating? then w
      else if !complete || suggestions.None? || !InContract(w.tasks[c].action, suggestions.value) then Dropped(w, c)
      else
        var task := w.tasks[c];
        With(w, c, Validating(task.input, task.action, task.version, task.draft, suggestions.value, requestId))
    case Validated(c, schemaOk, id) =>
      if c !in w.tasks || !w.tasks[c].Validating? then w
      else
        var task := w.tasks[c];
        var proposal := Evaluated(settings, id, task.action, task.version, task.draft, task.suggestions, schemaOk,
                                  task.requestId);
        Send(p, w, BeginMutate(c, Propose(proposal, task.input, task.draft)))
    case ReviewAsked(c, human, proposalId, actorId, expected, decision) =>
      if Unoccupied(w, c) && human then AskReview(p, w, c, proposalId, actorId, expected, decision) else w
    case PolicyAsked(c, expected, enabled, actions) =>
      if Unoccupied(w, c) then Send(p, w, BeginReplace(c, UpdatePolicy(enabled, actions), expected)) else w
    case Abandoned(c) => Dropped(w, c)
    case StoreStep(event) =>
      if event.BeginMutate? || event.BeginReplace? then w else w.(store := Next(p, w.store, event))
  }

  function Live(settings: Settings, p: Rules, w: World, history: seq<Happening>): World
    decreases |history|
  {
    if history == [] then w else Live(settings, p, Happen(settings, p, w, history[0]), history[1..])
  }

  // What every committed operation was

  /** The action asked for under its own prompt, and the entry asked for in the revision expected. */
  ghost predicate AskedFor(input: Input, action: Action, draft: Draft) {
    && action.id == input.actionId && action.promptId == input.promptId
    && draft.target == Target(input.entryId, action.contentType, input.expectedRevisionId)
  }

  /** A proposal as it may be stored first: evaluated on its draft, within its action's contract. */
  ghost predicate ProposedOk(settings: Settings, op: Operation)
    requires op.Propose?
  {
    var proposal := op.proposal;
    && proposal.target == op.draft.target && AskedFor(op.input, proposal.action, op.draft)
    && proposal.reviews == []
    && (proposal.status == PendingReview <==> proposal.passed)
    && (proposal.status == EvaluationFailed <==> !proposal.passed)
    && InContract(proposal.action, proposal.changes)
    && (if proposal.passed then
          var candidate := Candidate(op.draft.data, proposal.changes);
          forall i :: 0 <= i < |proposal.action.evaluationRules| ==>
            Holds(settings, proposal.action.evaluationRules[i], candidate)
        else proposal.changes == [])
  }

  /** A review of a proposal that is pending in the document it is applied to. */
  ghost predicate ReviewOk(document: Authoring, op: Operation)
    requires op.MarkStale? || op.Decide?
  {
    var found := FindProposal(document.proposals, op.proposalId);
    && found.Some? && found.value.status == PendingReview && found.value.passed
    && match op
       case MarkStale(_, target) =>
         target.entryId == found.value.target.entryId && target != found.value.target
       case Decide(_, decision, _, seen) =>
         decision == Approve ==> seen == Some(found.value.target)
       case _ => true
  }

  ghost predicate OperationOk(settings: Settings, document: Authoring, op: Operation) {
    match op
    case UpdatePolicy(_, _) => true
    case Propose(_, _, _) => ProposedOk(settings, op)
    case _ => ReviewOk(document, op)
  }

  ghost predicate LogOk(settings: Settings, log: Log) {
    forall i :: 0 <= i < |log| ==> OperationOk(settings, BodyOf(log[i].before, EMPTY), log[i].op)
  }

  ghost predicate IsReview(op: Operation) {
    op.MarkStale? || op.Decide?
  }

  /** A review is sent for one version and never retried, so what it read is what it will overwrite. */
  ghost predicate SenderOk(settings: Settings, log: Log, client: Client<Operation, Authoring, Error>) {
    && (client.Attempting? || client.Expecting? || client.Writing? ==>
          client.op.Propose? ==> ProposedOk(settings, client.op))
    && (client.Attempting? ==> !IsReview(client.op))
    && (client.Expecting? && IsReview(client.op) ==>
          && client.tries == ATTEMPTS - 1
          && client.expected <= |log| && ReviewOk(BodyOf(AtVersion(log, client.expected), EMPTY), client.op))
    && (client.Writing? && IsReview(client.op) ==>
          client.tries == ATTEMPTS - 1 && ReviewOk(BodyOf(client.seen, EMPTY), client.op))
  }

  ghost predicate TaskOk(log: Log, task: Task) {
    match task
    case Targeting(input, action, _) => action.id == input.actionId && action.promptId == input.promptId
    case Generating(input, action, _, draft) => AskedFor(input, action, draft)
    case Validating(input, action, _, draft, suggestions, _) =>
      AskedFor(input, action, draft) && InContract(action, suggestions)
    case Checking(proposal, _, expected) =>
      && expected <= |log|
      && FindProposal(BodyOf(AtVersion(log, expected), EMPTY).proposals, proposal.id) == Some(proposal)
      && proposal.status == PendingReview && proposal.passed
  }

  ghost predicate WorldOk(settings: Settings, p: Rules, w: World) {
    && Invariant(p, w.store)
    && LogOk(settings, w.store.log)
    && (forall c :: c in w.store.clients ==> SenderOk(settings, w.store.log, w.store.clients[c]))
    && (forall c :: c in w.tasks ==> TaskOk(w.store.log, w.tasks[c]))
  }

  lemma TaskStays(log: Log, longer: Log, task: Task)
    requires log <= longer && TaskOk(log, task)
    ensures TaskOk(longer, task)
  {
    if task.Checking? { assert longer[..task.expected] == log[..task.expected]; }
  }

  lemma SenderStays(settings: Settings, log: Log, longer: Log, client: Client<Operation, Authoring, Error>)
    requires log <= longer && SenderOk(settings, log, client)
    ensures SenderOk(settings, longer, client)
  {
    if client.Expecting? && IsReview(client.op) { assert longer[..client.expected] == log[..client.expected]; }
  }

  /** One store step of a client that may take it. */
  lemma StoreKeeps(settings: Settings, p: Rules, w: World, event: Event<Operation>)
    requires WorldOk(settings, p, w)
    requires p.empty == EMPTY
    requires event.BeginMutate? ==> !IsReview(event.op) && (event.op.Propose? ==> ProposedOk(settings, event.op))
    requires event.BeginReplace? ==>
      && !event.op.Propose?
      && (IsReview(event.op) ==>
            event.expected <= |w.store.log| && ReviewOk(BodyOf(AtVersion(w.store.log, event.expected), EMPTY), event.op))
    ensures WorldOk(settings, p, w.(store := Next(p, w.store, event)))
  {
    var after := Next(p, w.store, event);
    StepEffect(p, w.store, event);
    assert w.store.log <= after.log;
    SenderStep(settings, p, w.store, event);
    forall c | c in after.clients ensures SenderOk(settings, after.log, after.clients[c]) {
      if c != event.client { SenderStays(settings, w.store.log, after.log, w.store.clients[c]); }
    }
    forall c | c in w.tasks ensures TaskOk(after.log, w.tasks[c]) {
      TaskStays(w.store.log, after.log, w.tasks[c]);
    }
  }

  lemma SenderStep(settings: Settings, p: Rules, s: Store, event: Event<Operation>)
    requires Invariant(p, s) && LogOk(settings, s.log) && p.empty == EMPTY
    requires forall c :: c in s.clients ==> SenderOk(settings, s.log, s.clients[c])
    requires event.BeginMutate? ==> !IsReview(event.op) && (event.op.Propose? ==> ProposedOk(settings, event.op))
    requires event.BeginReplace? ==>
      && !event.op.Propose?
      && (IsReview(event.op) ==>
            event.expected <= |s.log| && ReviewOk(BodyOf(AtVersion(s.log, event.expected), EMPTY), event.op))
    ensures var after := Next(p, s, event);
      && LogOk(settings, after.log)
      && SenderOk(settings, after.log, ClientOf(after, event.client))
  {
    if event.Save? {
      SavedStep(settings, p, s, event);
    } else if event.Load? {
      LoadedStep(settings, p, s, event);
    } else {
      assert Next(p, s, event).log == s.log;
    }
  }

  lemma SavedStep(settings: Settings, p: Rules, s: Store, event: Event<Operation>)
    requires Invariant(p, s) && LogOk(settings, s.log) && p.empty == EMPTY && event.Save?
    requires event.client in s.clients ==> SenderOk(settings, s.log, s.clients[event.client])
    ensures var after := Next(p, s, event);
      LogOk(settings, after.log) && SenderOk(settings, after.log, ClientOf(after, event.client))
  {
    StepEffect(p, s, event);
    var after := Next(p, s, event);
    if after.log != s.log {
      var client := s.clients[event.client];
      LatestVersion(p, s.log);
      assert s.log[..|s.log|] == s.log;
      assert client.seen == s.stored;
      LogOkExtends(settings, s.log, after.log[|s.log|]);
    }
  }

  lemma LogOkExtends(settings: Settings, log: Log, commit: Commit<Operation, Authoring>)
    requires LogOk(settings, log) && OperationOk(settings, BodyOf(commit.before, EMPTY), commit.op)
    ensures LogOk(settings, log + [commit])
  {
  }

  lemma LoadedStep(settings: Settings, p: Rules, s: Store, event: Event<Operation>)
    requires Invariant(p, s) && LogOk(settings, s.log) && p.empty == EMPTY && event.Load?
    requires event.client in s.clients ==> SenderOk(settings, s.log, s.clients[event.client])
    ensures SenderOk(settings, s.log, ClientOf(Next(p, s, event), event.client)) && Next(p, s, event).log == s.log
  {
    LatestVersion(p, s.log);
    assert s.log[..|s.log|] == s.log;
  }

  lemma EvaluatedOk(settings: Settings, id: string, input: Input, action: Action, version: nat, draft: Draft,
                    suggestions: seq<Change>, schemaOk: bool, requestId: string)
    requires AskedFor(input, action, draft) && InContract(action, suggestions)
    ensures ProposedOk(settings, Propose(
      Evaluated(settings, id, action, version, draft, suggestions, schemaOk, requestId), input, draft))
  {
    var candidate, rules := Candidate(draft.data, suggestions), action.evaluationRules;
    var results := [Result("gridstory:content-schema", schemaOk)] + RuleResults(settings, rules, candidate);
    if AllPassed(results) {
      forall i | 0 <= i < |rules| ensures Holds(settings, rules[i], candidate) {
        assert results[i + 1] == Result(rules[i].id, Holds(settings, rules[i], candidate));
      }
    }
  }

  lemma FewerTasks(settings: Settings, p: Rules, w: World, c: nat)
    requires WorldOk(settings, p, w)
    ensures WorldOk(settings, p, Dropped(w, c))
  {
  }

  lemma SendKeeps(settings: Settings, p: Rules, w: World, event: Event<Operation>)
    requires WorldOk(settings, p, w) && p.empty == EMPTY
    requires event.BeginMutate? ==> !IsReview(event.op) && (event.op.Propose? ==> ProposedOk(settings, event.op))
    requires event.BeginReplace? ==>
      && !event.op.Propose?
      && (IsReview(event.op) ==>
            event.expected <= |w.store.log| && ReviewOk(BodyOf(AtVersion(w.store.log, event.expected), EMPTY), event.op))
    ensures WorldOk(settings, p, Send(p, w, event))
  {
    StoreKeeps(settings, p, w, event);
    FewerTasks(settings, p, w.(store := Next(p, w.store, event)), event.client);
  }

  lemma ReadKeeps(settings: Settings, p: Rules, w: World, c: nat, draft: Draft)
    requires WorldOk(settings, p, w) && p.empty == EMPTY && c in w.tasks
    ensures WorldOk(settings, p, ReadTarget(p, w, c, draft))
  {
    assert TaskOk(w.store.log, w.tasks[c]);
    match w.tasks[c]
    case Checking(proposal, actorId, expected) =>
      SendKeeps(settings, p, w, BeginReplace(c, AfterReading(proposal, actorId, draft), expected));
    case _ => FewerTasks(settings, p, w, c);
  }

  lemma ReviewKeeps(settings: Settings, p: Rules, w: World, h: Happening)
    requires WorldOk(settings, p, w) && p.empty == EMPTY && h.ReviewAsked?
    ensures WorldOk(settings, p, AskReview(p, w, h.client, h.proposalId, h.actorId, h.expected, h.decision))
  {
    LatestVersion(p, w.store.log);
    assert w.store.log[..|w.store.log|] == w.store.log;
    var found := FindProposal(BodyOf(w.store.stored, EMPTY).proposals, h.proposalId);
    if VersionOf(w.store.stored) == h.expected && found.Some? && found.value.status == PendingReview && found.value.passed
       && h.decision == Reject {
      SendKeeps(settings, p, w, BeginReplace(h.client, Decide(h.proposalId, Reject, h.actorId, None), h.expected));
    }
  }

  lemma HappenKeeps(settings: Settings, p: Rules, w: World, h: Happening)
    requires WorldOk(settings, p, w) && p.empty == EMPTY
    ensures WorldOk(settings, p, Happen(settings, p, w, h))
  {
    match h
    case ProposalAsked(c, input) =>
    case TargetRead(c, draft) => if c in w.tasks { ReadKeeps(settings, p, w, c, draft); }
    case Answered(c, complete, suggestions, requestId) => FewerTasks(settings, p, w, c);
    case Validated(c, schemaOk, id) =>
      if c in w.tasks && w.tasks[c].Validating? {
        var task := w.tasks[c];
        assert TaskOk(w.store.log, task);
        EvaluatedOk(settings, id, task.input, task.action, task.version, task.draft, task.suggestions, schemaOk,
                    task.requestId);
        var proposal := Evaluated(settings, id, task.action, task.version, task.draft, task.suggestions, schemaOk,
                                  task.requestId);
        SendKeeps(settings, p, w, BeginMutate(c, Propose(proposal, task.input, task.draft)));
      }
    case ReviewAsked(c, human, proposalId, actorId, expected, decision) => ReviewKeeps(settings, p, w, h);
    case PolicyAsked(c, expected, enabled, actions) =>
      SendKeeps(settings, p, w, BeginReplace(c, UpdatePolicy(enabled, actions), expected));
    case Abandoned(c) => FewerTasks(settings, p, w, c);
    case StoreStep(event) =>
      if !event.BeginMutate? && !event.BeginReplace? { StoreKeeps(settings, p, w, event); }
  }

  lemma {:induction false} LiveKeeps(settings: Settings, p: Rules, w: World, history: seq<Happening>)
    requires WorldOk(settings, p, w) && p.empty == EMPTY
    ensures WorldOk(settings, p, Live(settings, p, w, history))
    decreases |history|
  {
    if history != [] {
      HappenKeeps(settings, p, w, history[0]);
      LiveKeeps(settings, p, Happen(settings, p, w, history[0]), history[1..]);
    }
  }

  // The life of a proposal

  function DocumentAt(log: Log, version: nat): Authoring
    requires version <= |log|
  {
    BodyOf(AtVersion(log, version), EMPTY)
  }

  /** Ids are drawn fresh: no two committed proposals share one. */
  ghost predicate FreshIds(log: Log) {
    forall i, j :: 0 <= i < j < |log| && log[i].op.Propose? && log[j].op.Propose? ==>
      log[i].op.proposal.id != log[j].op.proposal.id
  }

  ghost predicate ProposedBy(log: Log, i: int, version: nat, id: string) {
    0 <= i < version <= |log| && log[i].op.Propose? && log[i].op.proposal.id == id
  }

  /** The document of a version is its predecessor's with one operation applied. */
  lemma VersionStep(settings: Settings, accepts: Document<Authoring> -> bool, log: Log, version: nat)
    requires Linear(AuthoringProtocol(settings, accepts), log) && version < |log|
    ensures BodyOf(log[version].before, EMPTY) == DocumentAt(log, version)
    ensures Apply(settings, log[version].op, log[version].now, DocumentAt(log, version))
      == Write(DocumentAt(log, version + 1))
  {
    assert LinearAt(AuthoringProtocol(settings, accepts), log, version);
    assert log[..version + 1][version] == log[version];
  }

  lemma NewestAt(all: seq<Proposal>, count: nat, k: nat) returns (m: nat)
    requires k < |Newest(all, count)|
    ensures m < |all| && Newest(all, count)[k] == all[m]
  {
    m := |all| - |Newest(all, count)| + k;
  }

  /** A proposal after one operation was there before, or is the one proposed. */
  lemma CameFrom(settings: Settings, before: Authoring, after: Authoring, op: Operation, now: int, k: nat)
    returns (m: Option<nat>)
    requires Apply(settings, op, now, before) == Write(after) && k < |after.proposals|
    ensures m.None? ==> op.Propose? && after.proposals[k] == op.proposal
    ensures m.Some? ==>
      && m.value < |before.proposals|
      && var a, b := before.proposals[m.value], after.proposals[k];
      b == a.(status := b.status, reviews := b.reviews)
  {
    if op.Propose? {
      m := NewestFrom(before.proposals, op.proposal, settings.maximumProposals, k);
    } else {
      m := Some(k);
    }
  }

  lemma NewestFrom(before: seq<Proposal>, added: Proposal, count: nat, k: nat) returns (m: Option<nat>)
    requires k < |Newest(before + [added], count)|
    ensures m.None? ==> Newest(before + [added], count)[k] == added
    ensures m.Some? ==> m.value < |before| && Newest(before + [added], count)[k] == before[m.value]
  {
    var at := NewestAt(before + [added], count, k);
    m := if at < |before| then Some(at) else None;
  }

  /** A retained proposal was proposed by an earlier commit, and keeps all but its status and reviews. */
  lemma {:induction false} Proposed(settings: Settings, accepts: Document<Authoring> -> bool, log: Log, version: nat, k: nat)
    returns (i: nat)
    requires Linear(AuthoringProtocol(settings, accepts), log) && version <= |log|
    requires k < |DocumentAt(log, version).proposals|
    ensures var proposal := DocumentAt(log, version).proposals[k];
      && ProposedBy(log, i, version, proposal.id)
      && proposal == log[i].op.proposal.(status := proposal.status, reviews := proposal.reviews)
    decreases version
  {
    var last := version - 1;
    VersionStep(settings, accepts, log, last);
    var m := CameFrom(settings, DocumentAt(log, last), DocumentAt(log, version), log[last].op, log[last].now, k);
    if m.Some? {
      i := Proposed(settings, accepts, log, last, m.value);
    } else {
      i := last;
    }
  }

  /** With fresh ids, a document holds an id at most once. */
  lemma IdsAreUnique(settings: Settings, accepts: Document<Authoring> -> bool, log: Log, version: nat)
    requires Linear(AuthoringProtocol(settings, accepts), log) && version <= |log| && FreshIds(log)
    ensures forall j, k :: 0 <= j < k < |DocumentAt(log, version).proposals| ==>
      DocumentAt(log, version).proposals[j].id != DocumentAt(log, version).proposals[k].id
    decreases version
  {
    if version > 0 {
      var last := version - 1;
      VersionStep(settings, accepts, log, last);
      IdsAreUnique(settings, accepts, log, last);
      var before, after, op := DocumentAt(log, last).proposals, DocumentAt(log, version).proposals, log[last].op;
      if op.Propose? {
        var all := before + [op.proposal];
        forall m | 0 <= m < |before| ensures before[m].id != op.proposal.id {
          var i := Proposed(settings, accepts, log, last, m);
        }
        NewestDistinct(all, settings.maximumProposals);
      }
    }
  }

  lemma NewestDistinct(all: seq<Proposal>, count: nat)
    requires forall j, k :: 0 <= j < k < |all| ==> all[j].id != all[k].id
    ensures var kept := Newest(all, count); forall j, k :: 0 <= j < k < |kept| ==> kept[j].id != kept[k].id
  {
    var kept := Newest(all, count);
    var shift := |all| - |kept|;
    assert forall j :: 0 <= j < |kept| ==> kept[j] == all[shift + j];
  }

  /** What one proposal may become: itself, or, from pending review, one settled form. */
  ghost predicate Becomes(a: Proposal, b: Proposal) {
    || b == a
    || (&& a.status == PendingReview && a.passed
        && b == a.(status := b.status, reviews := b.reviews)
        && b.status in {Status.Approved, Status.Rejected, Status.Stale})
  }

  /** An approval made between two forms of a proposal had read the proposal's target. */
  ghost predicate ApprovedOn(a: Proposal, b: Proposal, op: Operation) {
    b.status == Status.Approved && a.status != Status.Approved ==>
      op.Decide? && op.proposalId == b.id && op.decision == Approve && op.seen == Some(b.target)
  }

  /** A proposal of a version, unless just proposed, was in the version before, and became what it is. */
  lemma Earlier(settings: Settings, accepts: Document<Authoring> -> bool, log: Log, version: nat, k: nat) returns (m: nat)
    requires Linear(AuthoringProtocol(settings, accepts), log) && FreshIds(log) && LogOk(settings, log)
    requires version < |log| && k < |DocumentAt(log, version + 1).proposals|
    requires !(log[version].op.Propose? && log[version].op.proposal.id == DocumentAt(log, version + 1).proposals[k].id)
    ensures m < |DocumentAt(log, version).proposals|
    ensures DocumentAt(log, version).proposals[m].id == DocumentAt(log, version + 1).proposals[k].id
    ensures Becomes(DocumentAt(log, version).proposals[m], DocumentAt(log, version + 1).proposals[k])
    ensures ApprovedOn(DocumentAt(log, version).proposals[m], DocumentAt(log, version + 1).proposals[k], log[version].op)
  {
    VersionStep(settings, accepts, log, version);
    IdsAreUnique(settings, accepts, log, version);
    assert OperationOk(settings, DocumentAt(log, version), log[version].op);
    m := EarlierIn(settings, DocumentAt(log, version), DocumentAt(log, version + 1), log[version].op, log[version].now, k);
  }

  lemma EarlierIn(settings: Settings, before: Authoring, after: Authoring, op: Operation, now: int, k: nat) returns (m: nat)
    requires Apply(settings, op, now, before) == Write(after) && OperationOk(settings, before, op)
    requires forall i, j :: 0 <= i < j < |before.proposals| ==> before.proposals[i].id != before.proposals[j].id
    requires k < |after.proposals| && !(op.Propose? && op.proposal.id == after.proposals[k].id)
    ensures m < |before.proposals|
    ensures before.proposals[m].id == after.proposals[k].id
    ensures Becomes(before.proposals[m], after.proposals[k])
    ensures ApprovedOn(before.proposals[m], after.proposals[k], op)
  {
    match op
    case UpdatePolicy(_, _) => m := k;
    case Propose(proposal, _, _) =>
      var from := NewestFrom(before.proposals, proposal, settings.maximumProposals, k);
      m := from.value;
    case _ =>
      m := k;
      ReviewBecomes(before.proposals, op, now, k, before);
  }

  lemma ReviewBecomes(before: seq<Proposal>, op: Operation, now: int, k: nat, document: Authoring)
    requires document.proposals == before && k < |before| && IsReview(op) && ReviewOk(document, op)
    requires forall i, j :: 0 <= i < j < |before| ==> before[i].id != before[j].id
    ensures Becomes(before[k], Reviewed(before[k], op, now))
    ensures ApprovedOn(before[k], Reviewed(before[k], op, now), op)
  {
    if before[k].id == op.proposalId {
      var found := FindProposal(before, op.proposalId).value;
      var j :| 0 <= j < |before| && before[j] == found;
      assert j == k;
    }
  }

  /**
   At most once: between any two versions a proposal is unchanged, or went from pending review to
   one of approved, rejected and stale; once settled it stays as it is for as long as it is retained.
   */
  lemma {:induction false} LeavesReviewOnce(settings: Settings, accepts: Document<Authoring> -> bool, log: Log,
                                            v: nat, w: nat, j: nat, k: nat)
    requires Linear(AuthoringProtocol(settings, accepts), log) && FreshIds(log) && LogOk(settings, log)
    requires v <= w <= |log|
    requires j < |DocumentAt(log, v).proposals| && k < |DocumentAt(log, w).proposals|
    requires DocumentAt(log, v).proposals[j].id == DocumentAt(log, w).proposals[k].id
    ensures Becomes(DocumentAt(log, v).proposals[j], DocumentAt(log, w).proposals[k])
    decreases w
  {
    if v == w {
      IdsAreUnique(settings, accepts, log, v);
    } else {
      var i := Proposed(settings, accepts, log, v, j);
      var m := Earlier(settings, accepts, log, w - 1, k);
      LeavesReviewOnce(settings, accepts, log, v, w - 1, j, m);
    }
  }

  ghost predicate ApprovedBy(log: Log, i: int, version: nat, proposal: Proposal) {
    && 0 <= i < version <= |log|
    && log[i].op.Decide? && log[i].op.proposalId == proposal.id && log[i].op.decision == Approve
    && log[i].op.seen == Some(proposal.target)
  }

  /** An approved proposal was approved by a commit that had read the very entry and revision it targets. */
  lemma {:induction false} ApprovedReadItsTarget(settings: Settings, accepts: Document<Authoring> -> bool, log: Log,
                                                 version: nat, k: nat) returns (i: nat)
    requires Linear(AuthoringProtocol(settings, accepts), log) && FreshIds(log) && LogOk(settings, log)
    requires version <= |log| && k < |DocumentAt(log, version).proposals|
    requires DocumentAt(log, version).proposals[k].status == Status.Approved
    ensures ApprovedBy(log, i, version, DocumentAt(log, version).proposals[k])
    decreases version
  {
    var proposal, last := DocumentAt(log, version).proposals[k], version - 1;
    assert OperationOk(settings, BodyOf(log[last].before, EMPTY), log[last].op);
    if log[last].op.Propose? && log[last].op.proposal.id == proposal.id {
      JustProposed(settings, accepts, log, last, k);
    }
    var m := Earlier(settings, accepts, log, last, k);
    if DocumentAt(log, last).proposals[m].status == Status.Approved {
      i := ApprovedReadItsTarget(settings, accepts, log, last, m);
    } else {
      i := last;
    }
  }

  lemma JustProposed(settings: Settings, accepts: Document<Authoring> -> bool, log: Log, version: nat, k: nat)
    requires Linear(AuthoringProtocol(settings, accepts), log) && FreshIds(log)
    requires version < |log| && k < |DocumentAt(log, version + 1).proposals|
    requires log[version].op.Propose? && log[version].op.proposal.id == DocumentAt(log, version + 1).proposals[k].id
    ensures DocumentAt(log, version + 1).proposals[k] == log[version].op.proposal
  {
    VersionStep(settings, accepts, log, version);
    var m := CameFrom(settings, DocumentAt(log, version), DocumentAt(log, version + 1),
                      log[version].op, log[version].now, k);
    if m.Some? {
      var i := Proposed(settings, accepts, log, version, m.value);
    }
  }

  /** The policy in force enables this very action. */
  ghost predicate OwnAction(document: Authoring, action: Action) {
    document.enabled && action.enabled && FindAction(document.actions, action.id) == Some(action)
  }

  /** What stands behind an approved proposal. */
  ghost predicate Earned(settings: Settings, log: Log, version: nat, proposal: Proposal) {
    && proposal.passed
    && InContract(proposal.action, proposal.changes)
    && (exists i :: ApprovedBy(log, i, version, proposal))
    && exists i :: ProposedBy(log, i, version, proposal.id)
         && log[i].op.draft.target == proposal.target
         && AskedFor(log[i].op.input, proposal.action, log[i].op.draft)
         && OwnAction(BodyOf(log[i].before, EMPTY), proposal.action)
         && forall r :: 0 <= r < |proposal.action.evaluationRules| ==>
              Holds(settings, proposal.action.evaluationRules[r], Candidate(log[i].op.draft.data, proposal.changes))
  }

  ghost predicate AllEarned(settings: Settings, log: Log) {
    forall w, k :: 0 <= w <= |log| && 0 <= k < |DocumentAt(log, w).proposals| ==>
      (DocumentAt(log, w).proposals[k].status == Status.Approved ==>
        Earned(settings, log, w, DocumentAt(log, w).proposals[k]))
  }

  ghost predicate AllSettleOnce(log: Log) {
    forall v, w, j, k ::
      (0 <= v <= w <= |log|
       && 0 <= j < |DocumentAt(log, v).proposals| && 0 <= k < |DocumentAt(log, w).proposals|
       && DocumentAt(log, v).proposals[j].id == DocumentAt(log, w).proposals[k].id)
      ==> Becomes(DocumentAt(log, v).proposals[j], DocumentAt(log, w).proposals[k])
  }

  /**
   Under any interleaving of proposals, reviews and policy edits: every approved proposal, in every
   version, passed each rule of its action on the draft it was made for, changes only its action's
   fields, within the action's limit, and was approved by a commit that had read the target's
   revision unchanged; and no proposal leaves pending review twice.
   */
  lemma {:induction false} EveryApprovalIsEarned(settings: Settings, accepts: Document<Authoring> -> bool,
                                                 history: seq<Happening>)
    ensures var log := Live(settings, AuthoringProtocol(settings, accepts), World(Initial(), map[]), history).store.log;
      FreshIds(log) ==> AllEarned(settings, log) && AllSettleOnce(log)
  {
    var p := AuthoringProtocol(settings, accepts);
    LiveKeeps(settings, p, World(Initial(), map[]), history);
    var log := Live(settings, p, World(Initial(), map[]), history).store.log;
    if FreshIds(log) {
      forall w, k | 0 <= w <= |log| && 0 <= k < |DocumentAt(log, w).proposals|
                    && DocumentAt(log, w).proposals[k].status == Status.Approved
        ensures Earned(settings, log, w, DocumentAt(log, w).proposals[k])
      {
        ApprovedIsEarned(settings, accepts, log, w, k);
      }
      forall v, w, j, k | 0 <= v <= w <= |log|
                          && 0 <= j < |DocumentAt(log, v).proposals| && 0 <= k < |DocumentAt(log, w).proposals|
                          && DocumentAt(log, v).proposals[j].id == DocumentAt(log, w).proposals[k].id
        ensures Becomes(DocumentAt(log, v).proposals[j], DocumentAt(log, w).proposals[k])
      {
        LeavesReviewOnce(settings, accepts, log, v, w, j, k);
      }
    }
  }

  lemma ApprovedIsEarned(settings: Settings, accepts: Document<Authoring> -> bool, log: Log, version: nat, k: nat)
    requires Linear(AuthoringProtocol(settings, accepts), log) && FreshIds(log) && LogOk(settings, log)
    requires version <= |log| && k < |DocumentAt(log, version).proposals|
    requires DocumentAt(log, version).proposals[k].status == Status.Approved
    ensures Earned(settings, log, version, DocumentAt(log, version).proposals[k])
  {
    var proposal := DocumentAt(log, version).proposals[k];
    var approved := ApprovedReadItsTarget(settings, accepts, log, version, k);
    var i := Proposed(settings, accepts, log, version, k);
    assert OperationOk(settings, BodyOf(log[i].before, EMPTY), log[i].op);
    assert LinearAt(AuthoringProtocol(settings, accepts), log, i);
    assert OwnAction(BodyOf(log[i].before, EMPTY), proposal.action);
    PassedWhenReviewed(settings, accepts, log, version, k, i);
  }

  /** A proposal that is not evaluation-failed passed its evaluation when it was proposed. */
  lemma {:induction false} PassedWhenReviewed(settings: Settings, accepts: Document<Authoring> -> bool, log: Log,
                                              version: nat, k: nat, i: nat)
    requires Linear(AuthoringProtocol(settings, accepts), log) && FreshIds(log) && LogOk(settings, log)
    requires version <= |log| && k < |DocumentAt(log, version).proposals|
    requires ProposedBy(log, i, version, DocumentAt(log, version).proposals[k].id)
    ensures DocumentAt(log, version).proposals[k].status != EvaluationFailed ==> log[i].op.proposal.passed
    decreases version
  {
    var last := version - 1;
    assert OperationOk(settings, BodyOf(log[i].before, EMPTY), log[i].op);
    if i == last {
      JustProposed(settings, accepts, log, last, k);
    } else {
      var m := Earlier(settings, accepts, log, last, k);
      PassedWhenReviewed(settings, accepts, log, last, m, i);
    }
  }

  // The text a semantic index is given

  datatype Field = Field(path: string, value: string)

  function Characters(fields: seq<Field>): nat {
    if fields == [] then 0 else Characters(fields[..|fields| - 1]) + |fields[|fields| - 1].value|
  }

  function Cut(text: string, remaining: nat): (value: string)
    ensures |value| <= remaining && value <= text
    ensures |text| <= remaining ==> value == text
    ensures |text| > remaining ==> |value| == remaining
  {
    if |text| <= remaining then text else text[..remaining]
  }

  /** The fields of a rule, in its order, as far as the characters left allow; other values are passed over. */
  function SemanticFields(paths: seq<string>, data: map<string, string>, redact: string -> string,
                          remaining: nat): seq<Field> {
    if paths == [] then []
    else if paths[0] !in data then SemanticFields(paths[1..], data, redact, remaining)
    else if remaining == 0 then []
    else
      var text := redact(data[paths[0]]);
      var value := Cut(text, remaining);
      [Field(paths[0], value)] + SemanticFields(paths[1..], data, redact, remaining - |value|)
  }

  lemma {:induction false} CharactersConcat(a: seq<Field>, b: seq<Field>)
    ensures Characters(a + b) == Characters(a) + Characters(b)
    decreases |b|
  {
    if b == [] {
      assert a + b == a;
    } else {
      assert (a + b)[..|a + b| - 1] == a + b[..|b| - 1];
      CharactersConcat(a, b[..|b| - 1]);
    }
  }

  lemma {:induction false} NothingLeft(paths: seq<string>, data: map<string, string>, redact: string -> string)
    ensures SemanticFields(paths, data, redact, 0) == []
    decreases |paths|
  {
    if paths != [] && paths[0] !in data { NothingLeft(paths[1..], data, redact); }
  }

  /** A field of the rule with the start of its redacted text, or with all of it. */
  ghost predicate FromData(field: Field, paths: seq<string>, data: map<string, string>, redact: string -> string,
                           whole: bool) {
    && field.path in data && field.path in paths
    && field.value <= redact(data[field.path])
    && (whole ==> field.value == redact(data[field.path]))
  }

  /** The budget holds. */
  lemma {:induction false} SemanticBudget(paths: seq<string>, data: map<string, string>, redact: string -> string,
                                          remaining: nat)
    ensures Characters(SemanticFields(paths, data, redact, remaining)) <= remaining
    decreases |paths|
  {
    if paths != [] && paths[0] !in data {
      SemanticBudget(paths[1..], data, redact, remaining);
    } else if paths != [] && remaining > 0 {
      var first := Field(paths[0], Cut(redact(data[paths[0]]), remaining));
      SemanticBudget(paths[1..], data, redact, remaining - |first.value|);
      CharactersConcat([first], SemanticFields(paths[1..], data, redact, remaining - |first.value|));
      assert Characters([first]) == |first.value|;
    }
  }

  /** Every field is one of the rule's, with its redacted text, and only the last is ever cut. */
  lemma {:induction false} OnlyLastIsCut(paths: seq<string>, data: map<string, string>, redact: string -> string,
                                         remaining: nat, i: nat)
    requires i < |SemanticFields(paths, data, redact, remaining)|
    ensures var fields := SemanticFields(paths, data, redact, remaining);
      FromData(fields[i], paths, data, redact, i < |fields| - 1)
    decreases |paths|
  {
    if paths[0] !in data {
      OnlyLastIsCut(paths[1..], data, redact, remaining, i);
    } else {
      var text := redact(data[paths[0]]);
      var left := remaining - |Cut(text, remaining)|;
      if i > 0 {
        OnlyLastIsCut(paths[1..], data, redact, left, i - 1);
      } else if |text| > remaining {
        NothingLeft(paths[1..], data, redact);
      }
    }
  }

  method SemanticDocument(paths: seq<string>, data: map<string, string>, redact: string -> string, maximum: nat)
    returns (fields: seq<Field>)
    ensures fields == SemanticFields(paths, data, redact, maximum)
  {
    var characters := 0;
    fields := [];
    for i := 0 to |paths|
      invariant characters <= maximum
      invariant SemanticFields(paths, data, redact, maximum)
             == fields + SemanticFields(paths[i..], data, redact, maximum - characters)
    {
      var path := paths[i];
      assert paths[i..][1..] == paths[i + 1..];
      if path !in data { continue; }
      var redacted := redact(data[path]);
      var remaining := maximum - characters;
      if remaining <= 0 { break; }
      var value := if |redacted| <= remaining then redacted else redacted[..remaining];
      characters := characters + |value|;
      ghost var rest := SemanticFields(paths[i + 1..], data, redact, maximum - characters);
      assert fields + ([Field(path, value)] + rest) == (fields + [Field(path, value)]) + rest;
      fields := fields + [Field(path, value)];
    }
  }
}
