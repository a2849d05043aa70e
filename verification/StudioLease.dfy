/**
 The Studio authority lease, as values: what each stretch of code between two awaits makes of the
 session's refs, and what holds of every run of such stretches.
 */
module StudioLease {
  import opened Wrappers

  datatype Scope = Scope(
    organizationId: string, tenantId: string, workspaceId: string,
    siteId: string, environmentId: string, locale: string)
  datatype Selection = Selection(siteId: string, environmentId: string, locale: string)

  /** What a fingerprint spells out: the principal, the scope and the capabilities. */
  datatype Identity = Identity(principalId: string, scope: Scope, capabilities: seq<(string, bool)>)
  datatype Context = Context(identity: Identity, choices: seq<Scope>)
  datatype Authority = Authority(context: Context, generation: nat)

  datatype Status = Checking | Ready | FailedCheck | SignedOut | Forbidden
  datatype Answer = Verified(context: Context) | Failed(status: int)

  datatype Refresh = Refresh(client: nat, previous: Option<Authority>, denied: Option<Identity>)
  datatype Transition = Transition(
    client: nat, candidate: nat, lease: Authority, allowed: Scope, next: Option<Context>, aborted: bool)

  datatype Session = Session(
    activeClient: nat,
    verifiedClient: Option<nat>,
    prevalidatedClient: Option<nat>,
    authority: Option<Authority>,
    generation: nat,
    fingerprint: Option<Identity>,
    lifetime: nat,
    mounted: bool,
    status: Status,
    request: Option<nat>,
    aborted: set<nat>,
    refreshes: map<nat, Refresh>,
    transition: Option<Transition>)

  const FRESH := Session(0, None, None, None, 0, None, 0, false, Checking, None, {}, map[], None)

  // refresh

  function Aborted(s: Session): set<nat> {
    if s.request.Some? then s.aborted + {s.request.value} else s.aborted
  }

  /** Up to the request for a new context. */
  function RefreshStarted(s: Session, client: nat, denied: Option<Identity>, routineFocus: bool): Session {
    var current := s.generation + 1;
    var previous := if routineFocus && s.verifiedClient == Some(client) then s.authority else None;
    s.(aborted := Aborted(s), request := Some(current), generation := current,
       authority := previous,
       status := if previous.None? then Checking else s.status,
       refreshes := s.refreshes[current := Refresh(client, previous, denied)])
  }

  /** From the answer to the end. Refreshes are named by the generation they were given. */
  function RefreshAnswered(s: Session, id: nat, answer: Answer): Session {
    if id !in s.refreshes then s
    else
      var refresh := s.refreshes[id];
      var s := s.(refreshes := s.refreshes - {id});
      if !s.mounted || id in s.aborted || id != s.generation then s
      else
        match answer
        case Verified(next) =>
          if refresh.denied == Some(next.identity) then s.(status := Forbidden)
          else
            var recognised := s.fingerprint == Some(next.identity);
            var generation := if recognised && refresh.previous.Some? then refresh.previous.value.generation else id;
            s.(fingerprint := Some(next.identity),
               lifetime := if recognised then s.lifetime else s.lifetime + 1,
               verifiedClient := Some(refresh.client),
               authority := Some(Authority(next, generation)),
               status := Ready)
        case Failed(status) =>
          if status == 401 || status == 403
          then s.(authority := None, fingerprint := None,
                  status := if status == 401 then SignedOut else FailedCheck)
          else s.(authority := None, status := FailedCheck)
  }

  // guarded calls

  /** The lease a guarded client of this birth may use now. */
  function Lease(s: Session, client: nat, born: nat): Option<Authority> {
    if s.authority.Some? && born == s.lifetime && s.verifiedClient == Some(client) then s.authority else None
  }

  predicate Permits(capabilities: seq<(string, bool)>, operations: seq<string>) {
    forall operation :: operation in operations ==> (operation, true) in capabilities
  }

  function Denied(s: Session, client: nat, status: int): Session {
    var denied := s.fingerprint;
    var s := s.(authority := None, generation := s.generation + 1, aborted := Aborted(s),
                fingerprint := None, lifetime := s.lifetime + 1,
                status := if status == 401 then SignedOut else Checking);
    if status == 403 then RefreshStarted(s, client, denied, false) else s
  }

  // transitionScope

  predicate Chosen(scope: Scope, selection: Selection) {
    && scope.siteId == selection.siteId && scope.environmentId == selection.environmentId
    && scope.locale == selection.locale
  }

  function FindChoice(choices: seq<Scope>, selection: Selection): Option<Scope> {
    if choices == [] then None
    else if Chosen(choices[0], selection) then Some(choices[0])
    else FindChoice(choices[1..], selection)
  }

  function TransitionStarted(s: Session, client: nat, selection: Selection, candidate: nat): Session {
    if s.transition.Some? || s.authority.None? || s.verifiedClient != Some(client) then s
    else
      var lease := s.authority.value;
      var allowed := FindChoice(lease.context.choices, selection);
      if allowed.None? || Chosen(lease.context.identity.scope, selection) then s
      else s.(transition := Some(Transition(client, candidate, lease, allowed.value, None, false)))
  }

  predicate Superseded(s: Session, t: Transition) {
    || !s.mounted || t.aborted || s.activeClient != t.client
    || s.authority.None? || s.authority.value.generation != t.lease.generation
  }

  function TransitionAnswered(s: Session, answer: Answer): Session {
    if s.transition.None? || s.transition.value.next.Some? then s
    else
      var t := s.transition.value;
      if answer.Failed? || Superseded(s, t)
         || answer.context.identity.principalId != t.lease.context.identity.principalId
         || answer.context.identity.scope != t.allowed
      then s.(transition := None)
      else s.(transition := Some(t.(next := Some(answer.context))))
  }

  function CleanupFinished(s: Session, cleaned: bool): Session {
    if s.transition.None? || s.transition.value.next.None? then s
    else
      var t := s.transition.value;
      if !cleaned || Superseded(s, t) then s.(transition := None)
      else
        var current := s.generation + 1;
        s.(aborted := Aborted(s), generation := current, fingerprint := Some(t.next.value.identity),
           lifetime := s.lifetime + 1, authority := Some(Authority(t.next.value, current)),
           verifiedClient := Some(t.candidate), prevalidatedClient := Some(t.candidate),
           activeClient := t.candidate, status := Ready, transition := None)
  }

  // effects

  function Mounted(s: Session): Session { s.(mounted := true) }

  function Unmounted(s: Session): Session {
    s.(mounted := false, authority := None, generation := s.generation + 1, aborted := Aborted(s),
       transition := if s.transition.Some? then Some(s.transition.value.(aborted := true)) else None)
  }

  function ClientEffect(s: Session, client: nat): Session {
    if s.prevalidatedClient == Some(client) then s.(prevalidatedClient := None)
    else RefreshStarted(s.(fingerprint := None), client, None, false)
  }

  function Focused(s: Session, client: nat): Session {
    if s.transition.Some? then s else RefreshStarted(s, client, None, true)
  }

  // Runs

  datatype Reply = Result | Error(status: int)
  datatype Call = Call(client: nat, born: nat, operations: seq<string>, lease: Authority, since: nat)
  datatype Settlement = Deliver | DropStale | Raise
  datatype CallOutcome = Delivered(lease: Authority, operations: seq<string>, since: nat, until: nat) | Stale | Raised
  datatype Switch = Switch(lease: Authority, next: Context, since: nat, until: nat)

  /**
   A session with its timeline, the authority after every step so far, and the record of guarded
   calls and completed scope switches.
   */
  datatype World = World(
    session: Session, timeline: seq<Option<Authority>>, calls: map<nat, Call>,
    outcomes: map<nat, CallOutcome>, switchSince: nat, switches: seq<Switch>)

  const BEGINNING := World(FRESH, [None], map[], map[], 0, [])

  datatype Event =
    | Mount
    | Unmount
    | Effect(client: nat)
    | Render(client: nat)
    | Focus(client: nat)
    | RetryAccess(client: nat)
    | RefreshAnswer(id: nat, answer: Answer)
    | SwitchScope(client: nat, selection: Selection, candidate: nat)
    | SwitchAnswer(answer: Answer)
    | SwitchCleaned(cleaned: bool)
    | CallMade(call: nat, client: nat, born: nat, operations: Option<seq<string>>)
    | CallAnswered(call: nat, reply: Reply)

  predicate InForce(s: Session, call: Call) {
    var now := Lease(s, call.client, call.born);
    now.Some? && now.value.generation == call.lease.generation
  }

  /** What becomes of a guarded call when its answer arrives. */
  function Settle(s: Session, call: Call, reply: Reply): Settlement {
    if !InForce(s, call) then DropStale
    else if reply.Result? then Deliver
    else if reply.status == 401 || reply.status == 403 then DropStale
    else Raise
  }

  function AfterCall(s: Session, call: Call, reply: Reply): Session {
    if InForce(s, call) && reply.Error? && (reply.status == 401 || reply.status == 403)
    then Denied(s, call.client, reply.status) else s
  }

  function NextSession(w: World, event: Event): Session {
    var s := w.session;
    match event
    case Mount => Mounted(s)
    case Unmount => Unmounted(s)
    case Effect(client) => ClientEffect(s, client)
    case Render(client) => s.(activeClient := client)
    case Focus(client) => Focused(s, client)
    case RetryAccess(client) => RefreshStarted(s, client, None, false)
    case RefreshAnswer(id, answer) => RefreshAnswered(s, id, answer)
    case SwitchScope(client, selection, candidate) => TransitionStarted(s, client, selection, candidate)
    case SwitchAnswer(answer) => TransitionAnswered(s, answer)
    case SwitchCleaned(cleaned) => CleanupFinished(s, cleaned)
    case CallMade(_, _, _, _) => s
    case CallAnswered(id, reply) =>
      if id in w.calls then AfterCall(s, w.calls[id], reply) else s
  }

  function NextCalls(w: World, event: Event): map<nat, Call> {
    match event
    case CallMade(id, client, born, operations) =>
      var lease := Lease(w.session, client, born);
      if id in w.calls || id in w.outcomes || lease.None? || operations.None?
         || !Permits(lease.value.context.identity.capabilities, operations.value)
      then w.calls
      else w.calls[id := Call(client, born, operations.value, lease.value, |w.timeline|)]
    case CallAnswered(id, _) => w.calls - {id}
    case _ => w.calls
  }

  function NextOutcomes(w: World, event: Event): map<nat, CallOutcome>
    requires |w.timeline| > 0
  {
    if !event.CallAnswered? || event.call !in w.calls then w.outcomes
    else
      var call := w.calls[event.call];
      w.outcomes[event.call :=
        match Settle(w.session, call, event.reply)
        case Deliver => Delivered(call.lease, call.operations, call.since, |w.timeline| - 1)
        case DropStale => Stale
        case Raise => Raised]
  }

  predicate Commits(s: Session, event: Event) {
    && event.SwitchCleaned? && event.cleaned
    && s.transition.Some? && s.transition.value.next.Some? && !Superseded(s, s.transition.value)
  }

  function Step(w: World, event: Event): World
    requires |w.timeline| > 0
  {
    var session := NextSession(w, event);
    World(session, w.timeline + [session.authority], NextCalls(w, event), NextOutcomes(w, event),
          if event.SwitchScope? && session != w.session then |w.timeline| else w.switchSince,
          if Commits(w.session, event)
          then w.switches + [Switch(w.session.transition.value.lease, w.session.transition.value.next.value,
                                    w.switchSince, |w.timeline| - 1)]
          else w.switches)
  }

  function Run(w: World, events: seq<Event>): (v: World)
    requires |w.timeline| > 0
    ensures |v.timeline| >= |w.timeline|
    decreases |events|
  {
    if events == [] then w else Run(Step(w, events[0]), events[1..])
  }

  // The invariant

  /** One authority: the same generation and the same verified identity. */
  ghost predicate Same(a: Option<Authority>, b: Option<Authority>) {
    && a.Some? && b.Some?
    && a.value.generation == b.value.generation
    && a.value.context.identity == b.value.context.identity
  }

  /** Between two moments of one generation its identity was in force throughout. */
  ghost predicate Continuous(timeline: seq<Option<Authority>>) {
    forall a, k, b ::
      (&& 0 <= a <= k <= b < |timeline| && timeline[a].Some? && timeline[b].Some?
       && timeline[a].value.generation == timeline[b].value.generation)
      ==> Same(timeline[a], timeline[k])
  }

  ghost predicate Unused(timeline: seq<Option<Authority>>, generation: nat) {
    forall k :: 0 <= k < |timeline| && timeline[k].Some? ==> timeline[k].value.generation != generation
  }

  ghost predicate Issued(timeline: seq<Option<Authority>>, generation: nat) {
    forall k :: 0 <= k < |timeline| && timeline[k].Some? ==> timeline[k].value.generation <= generation
  }

  ghost predicate RefsOk(s: Session) {
    && (s.authority.Some? ==> s.fingerprint == Some(s.authority.value.context.identity))
    && (s.authority.Some? ==> s.authority.value.generation <= s.generation)
    && (forall id :: id in s.refreshes ==> id <= s.generation)
    && (s.generation in s.refreshes ==>
          var refresh := s.refreshes[s.generation];
          && refresh.previous == s.authority
          && (refresh.previous.Some? ==> s.verifiedClient == Some(refresh.client)))
  }

  ghost predicate SwitchOk(s: Session, timeline: seq<Option<Authority>>, since: nat) {
    s.transition.Some? ==>
      var t := s.transition.value;
      && since < |timeline| && timeline[since] == Some(t.lease)
      && t.allowed in t.lease.context.choices
      && (t.next.Some? ==>
           && t.next.value.identity.principalId == t.lease.context.identity.principalId
           && t.next.value.identity.scope == t.allowed)
  }

  ghost predicate Throughout(timeline: seq<Option<Authority>>, lease: Authority, since: nat, until: nat) {
    && since <= until < |timeline|
    && forall k :: since <= k <= until ==> Same(Some(lease), timeline[k])
  }

  /** Its identity was in force from the call to the delivery, and permitted the operations. */
  ghost predicate DeliveredInForce(timeline: seq<Option<Authority>>, outcome: CallOutcome) {
    outcome.Delivered? ==>
      && Throughout(timeline, outcome.lease, outcome.since, outcome.until)
      && Permits(outcome.lease.context.identity.capabilities, outcome.operations)
  }

  ghost predicate CallOk(timeline: seq<Option<Authority>>, call: Call) {
    && call.since < |timeline| && timeline[call.since] == Some(call.lease)
    && Permits(call.lease.context.identity.capabilities, call.operations)
  }

  /** Its lifetime may have passed, but while its generation is current its client is the verified one. */
  ghost predicate CallHeld(s: Session, call: Call) {
    && call.born <= s.lifetime
    && (s.authority.Some? && s.authority.value.generation == call.lease.generation ==>
          s.verifiedClient == Some(call.client))
  }

  ghost predicate Switched(timeline: seq<Option<Authority>>, switch: Switch) {
    && Throughout(timeline, switch.lease, switch.since, switch.until)
    && switch.next.identity.principalId == switch.lease.context.identity.principalId
    && switch.next.identity.scope in switch.lease.context.choices
  }

  ghost predicate WorldOk(w: World) {
    && RefsOk(w.session)
    && |w.timeline| > 0 && w.timeline[|w.timeline| - 1] == w.session.authority
    && Continuous(w.timeline)
    && Issued(w.timeline, w.session.generation)
    && (forall id :: id in w.session.refreshes ==> Unused(w.timeline, id))
    && SwitchOk(w.session, w.timeline, w.switchSince)
    && (forall id :: id in w.calls ==> CallOk(w.timeline, w.calls[id]) && CallHeld(w.session, w.calls[id]))
    && (forall id :: id in w.outcomes ==> DeliveredInForce(w.timeline, w.outcomes[id]))
    && (forall i :: 0 <= i < |w.switches| ==> Switched(w.timeline, w.switches[i]))
  }

  lemma ContinuousExtends(timeline: seq<Option<Authority>>, next: Option<Authority>)
    requires |timeline| > 0 && Continuous(timeline)
    requires next.Some? && !Same(timeline[|timeline| - 1], next) ==> Unused(timeline, next.value.generation)
    ensures Continuous(timeline + [next])
  {
    var longer := timeline + [next];
    var n := |timeline|;
    forall a, k, b | 0 <= a <= k <= b < n + 1 && longer[a].Some? && longer[b].Some?
      && longer[a].value.generation == longer[b].value.generation
      ensures Same(longer[a], longer[k])
    {
      if b == n && a < n {
        assert Same(timeline[n - 1], next);
        assert Same(timeline[a], timeline[n - 1]);
        if k < n { assert Same(timeline[a], timeline[k]); }
      } else if b < n {
        assert Same(timeline[a], timeline[k]);
      }
    }
  }

  /**
   How a stretch of code may change the refs: the authority is kept, dropped, or given a generation
   that a pending refresh was holding or that is new; pending refreshes hold other generations.
   */
  ghost predicate Advances(s: Session, t: Session) {
    && RefsOk(t)
    && s.generation <= t.generation && s.lifetime <= t.lifetime
    && (Same(s.authority, t.authority) ==> t.verifiedClient == s.verifiedClient)
    && (forall id :: id in t.refreshes ==> id in s.refreshes || id > s.generation)
    && (t.authority.Some? && !Same(s.authority, t.authority) ==>
         var generation := t.authority.value.generation;
         && (generation in s.refreshes || generation > s.generation)
         && generation !in t.refreshes)
  }

  lemma StartAdvances(s: Session, client: nat, denied: Option<Identity>, routineFocus: bool)
    requires RefsOk(s)
    ensures Advances(s, RefreshStarted(s, client, denied, routineFocus))
  {
  }

  lemma AnswerAdvances(s: Session, id: nat, answer: Answer)
    requires RefsOk(s)
    ensures Advances(s, RefreshAnswered(s, id, answer))
  {
  }

  lemma DenialAdvances(s: Session, client: nat, status: int)
    requires RefsOk(s)
    ensures Advances(s, Denied(s, client, status))
  {
  }

  lemma EffectAdvances(s: Session, client: nat)
    requires RefsOk(s)
    ensures Advances(s, ClientEffect(s, client))
    ensures Advances(s, Unmounted(s))
    ensures Advances(s, Focused(s, client))
  {
  }

  lemma SwitchAdvances(s: Session, event: Event)
    requires RefsOk(s)
    ensures event.SwitchScope? ==> Advances(s, TransitionStarted(s, event.client, event.selection, event.candidate))
    ensures event.SwitchAnswer? ==> Advances(s, TransitionAnswered(s, event.answer))
    ensures event.SwitchCleaned? ==> Advances(s, CleanupFinished(s, event.cleaned))
  {
  }

  lemma EventAdvances(w: World, event: Event)
    requires RefsOk(w.session)
    ensures Advances(w.session, NextSession(w, event))
  {
    var s := w.session;
    match event
    case RefreshAnswer(id, answer) => AnswerAdvances(s, id, answer);
    case RetryAccess(client) => StartAdvances(s, client, None, false);
    case CallAnswered(id, reply) =>
      if NextSession(w, event) != s { DenialAdvances(s, w.calls[id].client, reply.status); }
    case Effect(client) => EffectAdvances(s, client);
    case Focus(client) => EffectAdvances(s, client);
    case Unmount => EffectAdvances(s, 0);
    case _ => SwitchAdvances(s, event);
  }

  /** So a step keeps the timeline's laws: what it adds is the same authority or an unused one. */
  lemma SessionStep(w: World, event: Event)
    requires WorldOk(w)
    ensures var s := NextSession(w, event);
      && RefsOk(s)
      && Continuous(w.timeline + [s.authority])
      && Issued(w.timeline + [s.authority], s.generation)
      && (forall id :: id in s.refreshes ==> Unused(w.timeline + [s.authority], id))
  {
    EventAdvances(w, event);
    ContinuousExtends(w.timeline, NextSession(w, event).authority);
  }

  lemma SwitchStep(w: World, event: Event)
    requires WorldOk(w)
    ensures SwitchOk(Step(w, event).session, Step(w, event).timeline, Step(w, event).switchSince)
    ensures forall i :: 0 <= i < |Step(w, event).switches| ==>
      Switched(Step(w, event).timeline, Step(w, event).switches[i])
  {
    PendingSwitchStep(w, event);
    DoneSwitchesStep(w, event);
  }

  /** A pending switch goes on under its lease, to the scope it chose, or ends. */
  ghost predicate SwitchGoesOn(before: Option<Transition>, after: Option<Transition>) {
    after.Some? ==>
      && before.Some? && after.value.lease == before.value.lease && after.value.allowed == before.value.allowed
      && (after.value.next.Some? ==>
            || after.value.next == before.value.next
            || (&& after.value.next.value.identity.principalId == before.value.lease.context.identity.principalId
                && after.value.next.value.identity.scope == before.value.allowed))
  }

  lemma SwitchContinues(w: World, event: Event)
    requires !event.SwitchScope?
    ensures SwitchGoesOn(w.session.transition, NextSession(w, event).transition)
  {
  }

  lemma PendingSwitchStep(w: World, event: Event)
    requires WorldOk(w)
    ensures SwitchOk(Step(w, event).session, Step(w, event).timeline, Step(w, event).switchSince)
  {
    if event.SwitchScope? {
      StartedSwitch(w, event);
    } else {
      SwitchContinues(w, event);
      ContinuedSwitch(w.session, NextSession(w, event), w.timeline, w.switchSince);
    }
  }

  lemma ContinuedSwitch(s: Session, t: Session, timeline: seq<Option<Authority>>, since: nat)
    requires SwitchOk(s, timeline, since) && SwitchGoesOn(s.transition, t.transition)
    ensures SwitchOk(t, timeline + [t.authority], since)
  {
  }

  lemma StartedSwitch(w: World, event: Event)
    requires WorldOk(w) && event.SwitchScope?
    ensures SwitchOk(Step(w, event).session, Step(w, event).timeline, Step(w, event).switchSince)
  {
    if Step(w, event).session != w.session {
      FoundChoice(w.session.authority.value.context.choices, event.selection);
    }
  }

  lemma DoneSwitchesStep(w: World, event: Event)
    requires WorldOk(w)
    ensures forall i :: 0 <= i < |Step(w, event).switches| ==>
      Switched(Step(w, event).timeline, Step(w, event).switches[i])
  {
    var w' := Step(w, event);
    forall i | 0 <= i < |w'.switches| ensures Switched(w'.timeline, w'.switches[i]) {
      if i < |w.switches| {
        assert Switched(w.timeline, w.switches[i]);
      } else {
        assert Throughout(w.timeline, w.session.transition.value.lease, w.switchSince, |w.timeline| - 1);
      }
    }
  }

  lemma {:induction false} FoundChoice(choices: seq<Scope>, selection: Selection)
    ensures var found := FindChoice(choices, selection);
      found.Some? ==> found.value in choices && Chosen(found.value, selection)
  {
    if choices != [] { FoundChoice(choices[1..], selection); }
  }

  lemma CallsStep(w: World, event: Event)
    requires WorldOk(w)
    ensures var w' := Step(w, event); forall id :: id in w'.calls ==> CallOk(w'.timeline, w'.calls[id])
  {
    var w' := Step(w, event);
    forall id | id in w'.calls ensures CallOk(w'.timeline, w'.calls[id]) {
      if id in w.calls { assert CallOk(w.timeline, w.calls[id]); }
    }
  }

  lemma OutcomesStep(w: World, event: Event)
    requires WorldOk(w)
    ensures var w' := Step(w, event); forall id :: id in w'.outcomes ==> DeliveredInForce(w'.timeline, w'.outcomes[id])
  {
    var w' := Step(w, event);
    forall id | id in w'.outcomes ensures DeliveredInForce(w'.timeline, w'.outcomes[id]) {
      if event.CallAnswered? && event.call in w.calls && id == event.call {
        AnsweredInForce(w, id, event.reply);
      } else {
        assert DeliveredInForce(w.timeline, w.outcomes[id]);
      }
    }
  }

  lemma AnsweredInForce(w: World, id: nat, reply: Reply)
    requires WorldOk(w) && id in w.calls
    ensures DeliveredInForce(Step(w, CallAnswered(id, reply)).timeline, Step(w, CallAnswered(id, reply)).outcomes[id])
  {
    assert CallOk(w.timeline, w.calls[id]);
    if InForce(w.session, w.calls[id]) {
      assert Throughout(w.timeline, w.calls[id].lease, w.calls[id].since, |w.timeline| - 1);
    }
  }

  lemma HeldStep(w: World, event: Event)
    requires WorldOk(w)
    ensures var w' := Step(w, event);
      forall id :: id in w'.calls ==> CallHeld(w'.session, w'.calls[id])
  {
    EventAdvances(w, event);
    var w' := Step(w, event);
    forall id | id in w'.calls ensures CallHeld(w'.session, w'.calls[id]) {
      if id in w.calls {
        assert CallOk(w.timeline, w.calls[id]) && CallHeld(w.session, w.calls[id]);
        assert w.timeline[w.calls[id].since] == Some(w.calls[id].lease);
      }
    }
  }

  lemma StepKeeps(w: World, event: Event)
    requires WorldOk(w)
    ensures WorldOk(Step(w, event))
  {
    SessionStep(w, event);
    SwitchStep(w, event);
    CallsStep(w, event);
    OutcomesStep(w, event);
    HeldStep(w, event);
  }

  lemma {:induction false} RunKeeps(w: World, events: seq<Event>)
    requires WorldOk(w)
    ensures WorldOk(Run(w, events))
    decreases |events|
  {
    if events != [] {
      StepKeeps(w, events[0]);
      RunKeeps(Step(w, events[0]), events[1..]);
    }
  }

  /**
   No stale results. In every run of refreshes, focus rechecks, denials, scope switches, renders
   and guarded calls: generations are not reused, equal generations mean one identity held
   throughout; a delivered result means so between the call and its delivery, for an identity that
   permitted the operation; and a completed scope switch kept its principal, chose an offered
   scope and held its lease until the commit.
   */
  lemma {:induction false} NoStaleResult(events: seq<Event>)
    ensures var w := Run(BEGINNING, events);
      && Continuous(w.timeline)
      && (forall id :: id in w.outcomes ==> DeliveredInForce(w.timeline, w.outcomes[id]))
      && (forall i :: 0 <= i < |w.switches| ==> Switched(w.timeline, w.switches[i]))
  {
    RunKeeps(BEGINNING, events);
  }

  /** An authority that was left, even for one step, never returns under its generation. */
  lemma {:induction false} LeftAuthorityNeverReturns(events: seq<Event>, a: nat, k: nat, b: nat)
    requires var timeline := Run(BEGINNING, events).timeline;
      && a < k < b < |timeline| && timeline[a].Some? && !Same(timeline[a], timeline[k])
    ensures var timeline := Run(BEGINNING, events).timeline;
      timeline[b].Some? ==> timeline[b].value.generation != timeline[a].value.generation
  {
    RunKeeps(BEGINNING, events);
  }

  /** The lifetime of the call has passed, or some authority since was not its own. */
  ghost predicate Lost(w: World, call: Call) {
    || call.born < w.session.lifetime
    || exists k :: call.since <= k < |w.timeline| && !Same(Some(call.lease), w.timeline[k])
  }

  lemma LostExactly(w: World, id: nat)
    requires WorldOk(w) && id in w.calls
    ensures Lost(w, w.calls[id]) <==> !InForce(w.session, w.calls[id])
  {
    var call, last := w.calls[id], |w.timeline| - 1;
    assert CallOk(w.timeline, call) && CallHeld(w.session, call);
    if InForce(w.session, call) {
      forall k | call.since <= k < |w.timeline| ensures Same(Some(call.lease), w.timeline[k]) {
        assert Same(w.timeline[call.since], w.timeline[k]);
      }
    } else if call.born == w.session.lifetime {
      assert !Same(Some(call.lease), w.timeline[last]);
    }
  }

  /** Call ids are used once: a pending call stays as it is until it is answered. */
  ghost predicate StaysStale(w: World, id: nat, call: Call) {
    if id in w.calls then w.calls[id] == call && Lost(w, call)
    else id in w.outcomes && w.outcomes[id] == Stale
  }

  lemma LostStep(w: World, event: Event, call: Call)
    requires WorldOk(w) && Lost(w, call)
    ensures Lost(Step(w, event), call)
  {
    EventAdvances(w, event);
    if call.born >= w.session.lifetime {
      var k :| call.since <= k < |w.timeline| && !Same(Some(call.lease), w.timeline[k]);
      assert Step(w, event).timeline[k] == w.timeline[k];
    }
  }

  lemma StaleStep(w: World, event: Event, id: nat, call: Call)
    requires WorldOk(w) && StaysStale(w, id, call)
    ensures StaysStale(Step(w, event), id, call)
  {
    if id in w.calls {
      LostStep(w, event, call);
      LostExactly(w, id);
    }
  }

  lemma {:induction false} StaleRun(w: World, events: seq<Event>, id: nat, call: Call)
    requires WorldOk(w) && StaysStale(w, id, call)
    ensures WorldOk(Run(w, events)) && StaysStale(Run(w, events), id, call)
    decreases |events|
  {
    if events != [] {
      StepKeeps(w, events[0]);
      StaleStep(w, events[0], id, call);
      StaleRun(Step(w, events[0]), events[1..], id, call);
    }
  }

  /**
   A call whose lease is gone once is stale for good: whatever happens after, its answer, even a
   denial, changes nothing in the session, and it is never delivered.
   */
  lemma {:induction false} StaleAnswerIsHarmless(before: seq<Event>, after: seq<Event>, id: nat, reply: Reply)
    requires var w := Run(BEGINNING, before); id in w.calls && !InForce(w.session, w.calls[id])
    ensures var later := Run(Run(BEGINNING, before), after);
      if id in later.calls then
        var answered := Step(later, CallAnswered(id, reply));
        answered.session == later.session && answered.outcomes[id] == Stale
      else id in later.outcomes && later.outcomes[id] == Stale
  {
    RunKeeps(BEGINNING, before);
    var w := Run(BEGINNING, before);
    LostExactly(w, id);
    StaleRun(w, after, id, w.calls[id]);
    StaleNow(Run(w, after), id, w.calls[id], reply);
  }

  lemma StaleNow(w: World, id: nat, call: Call, reply: Reply)
    requires WorldOk(w) && StaysStale(w, id, call)
    ensures if id in w.calls then
        Step(w, CallAnswered(id, reply)).session == w.session && Step(w, CallAnswered(id, reply)).outcomes[id] == Stale
      else id in w.outcomes && w.outcomes[id] == Stale
  {
    if id in w.calls { LostExactly(w, id); }
  }
}
