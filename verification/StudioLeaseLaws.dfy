/**
 What each thing that happens to a session does, in terms of what can be seen of it afterwards: its
 lease, its status and the requests under way. `StudioLease` proves what no run can break; this is
 what every run has to bring about.
 */
module StudioLeaseLaws {
  import opened Wrappers
  import opened StudioLease

  // A denial that is taken

  /** The world after a guarded call in flight is denied. */
  function AfterDenial(w: World, id: nat, code: int): World
    requires |w.timeline| > 0
  {
    Step(w, CallAnswered(id, Error(code)))
  }

  lemma {:induction false} LifetimesGrow(w: World, events: seq<Event>)
    requires WorldOk(w)
    ensures Run(w, events).session.lifetime >= w.session.lifetime
    ensures Run(w, events).session.generation >= w.session.generation
    decreases |events|
  {
    if events != [] {
      EventAdvances(w, events[0]);
      StepKeeps(w, events[0]);
      LifetimesGrow(Step(w, events[0]), events[1..]);
    }
  }

  lemma DenialDrops(w: World, id: nat, code: int)
    requires WorldOk(w) && id in w.calls && InForce(w.session, w.calls[id]) && (code == 401 || code == 403)
    ensures var w' := AfterDenial(w, id, code);
      && w'.timeline == w.timeline + [None] && w'.session.authority.None?
      && w'.session.generation == w.session.generation + (if code == 401 then 1 else 2)
      && w'.session.lifetime == w.session.lifetime + 1
      && (w.session.request.Some? ==> w.session.request.value in w'.session.aborted)
      && w'.outcomes == w.outcomes[id := Stale] && w'.calls == w.calls - {id}
      && w'.session.status == (if code == 401 then SignedOut else Checking)
  {
  }

  /**
   A denial under the lease in force ends it for good: at once nobody has authority, every other call
   in flight is lost, and no client born up to then has a lease again, whatever happens later.
   */
  lemma {:induction false} DenialEndsTheLease(before: seq<Event>, id: nat, code: int, after: seq<Event>)
    requires var w := Run(BEGINNING, before); id in w.calls && InForce(w.session, w.calls[id])
    requires code == 401 || code == 403
    ensures var w := Run(BEGINNING, before);
      var w' := AfterDenial(w, id, code);
      && w'.timeline == w.timeline + [None]
      && w'.session.generation > w.session.generation && w'.session.lifetime > w.session.lifetime
      && w'.outcomes == w.outcomes[id := Stale] && w'.calls == w.calls - {id}
      && w'.session.status == (if code == 401 then SignedOut else Checking)
      && (forall other :: other in w'.calls ==> Lost(w', w'.calls[other]))
      && (forall client: nat, born: nat :: born <= w.session.lifetime ==> Lease(Run(w', after).session, client, born).None?)
  {
    RunKeeps(BEGINNING, before);
    var w := Run(BEGINNING, before);
    DenialDrops(w, id, code);
    var w' := AfterDenial(w, id, code);
    StepKeeps(w, CallAnswered(id, Error(code)));
    LifetimesGrow(w', after);
    forall other | other in w'.calls ensures Lost(w', w'.calls[other]) {
      assert CallHeld(w.session, w.calls[other]);
    }
  }

  /** Requests are named by generations that were given out. */
  ghost predicate RequestsOk(s: Session) {
    && (s.request.Some? ==> s.request.value <= s.generation)
    && forall id :: id in s.aborted ==> id <= s.generation
  }

  lemma RequestsStep(w: World, event: Event)
    requires RequestsOk(w.session)
    ensures RequestsOk(NextSession(w, event))
  {
  }

  lemma {:induction false} RequestsStayOk(w: World, events: seq<Event>)
    requires WorldOk(w) && RequestsOk(w.session)
    ensures WorldOk(Run(w, events)) && RequestsOk(Run(w, events).session)
    decreases |events|
  {
    if events != [] {
      StepKeeps(w, events[0]);
      RequestsStep(w, events[0]);
      RequestsStayOk(Step(w, events[0]), events[1..]);
    }
  }

  /** The check that a 403 starts. */
  lemma DenialChecksAgain(w: World, id: nat)
    requires |w.timeline| > 0 && RefsOk(w.session) && RequestsOk(w.session)
    requires id in w.calls && InForce(w.session, w.calls[id])
    ensures var t := AfterDenial(w, id, 403).session;
      && t.generation == w.session.generation + 2 && t.request == Some(t.generation)
      && t.generation in t.refreshes && t.generation !in t.aborted && t.mounted == w.session.mounted
      && t.refreshes[t.generation].denied == Some(w.session.authority.value.context.identity)
      && t.refreshes[t.generation].previous.None?
      && t.authority.None? && t.fingerprint.None?
  {
  }

  lemma RefusesDenied(w: World, next: Context)
    requires |w.timeline| > 0
    requires var s := w.session;
      && s.mounted && s.generation in s.refreshes && s.generation !in s.aborted && s.authority.None?
      && s.refreshes[s.generation].denied.Some? && s.refreshes[s.generation].previous.None?
    ensures var s := w.session;
      var checked := Step(w, RefreshAnswer(s.generation, Verified(next))).session;
      if s.refreshes[s.generation].denied == Some(next.identity)
      then checked.authority.None? && checked.status == Forbidden
      else checked.authority == Some(Authority(next, s.generation)) && checked.status == Ready
  {
  }

  /**
   After a 403 the session checks again at once: the identity that was denied is refused if it comes
   back, and any other is let in, under a generation of its own.
   */
  lemma {:induction false} DeniedIdentityIsRefused(before: seq<Event>, id: nat, next: Context)
    requires var w := Run(BEGINNING, before);
      w.session.mounted && id in w.calls && InForce(w.session, w.calls[id])
    ensures var w := Run(BEGINNING, before);
      var denied := AfterDenial(w, id, 403);
      && denied.session.request.Some?
      && var request := denied.session.request.value;
      var checked := Step(denied, RefreshAnswer(request, Verified(next))).session;
      && request > w.session.generation
      && (next.identity == w.session.authority.value.context.identity ==>
            checked.authority.None? && checked.status == Forbidden)
      && (next.identity != w.session.authority.value.context.identity ==>
            checked.authority == Some(Authority(next, request)) && checked.status == Ready)
  {
    RequestsStayOk(BEGINNING, before);
    var w := Run(BEGINNING, before);
    DenialChecksAgain(w, id);
    RefusesDenied(AfterDenial(w, id, 403), next);
  }

  // Guarded calls

  /** A fresh call goes out exactly when its client has a lease that permits each of its operations. */
  lemma CallGoesOut(w: World, id: nat, client: nat, born: nat, operations: seq<string>)
    requires WorldOk(w) && id !in w.calls && id !in w.outcomes
    ensures var s, w' := w.session, Step(w, CallMade(id, client, born, Some(operations)));
      && w'.session == s && w'.outcomes == w.outcomes && w'.calls - {id} == w.calls
      && (id in w'.calls <==>
            && s.authority.Some? && s.verifiedClient == Some(client) && born == s.lifetime
            && forall operation :: operation in operations ==>
                 (operation, true) in s.authority.value.context.identity.capabilities)
      && (id in w'.calls ==> InForce(s, w'.calls[id]) && w'.calls[id].operations == operations)
  {
  }

  /** Under the lease in force a result is delivered, and an error other than a denial is raised. */
  lemma AnswerInForce(w: World, id: nat, reply: Reply)
    requires WorldOk(w) && id in w.calls && InForce(w.session, w.calls[id])
    requires reply.Error? ==> reply.status != 401 && reply.status != 403
    ensures var call, w' := w.calls[id], Step(w, CallAnswered(id, reply));
      && w'.session == w.session && w'.calls == w.calls - {id}
      && w'.outcomes == w.outcomes[id :=
           if reply.Result? then Delivered(call.lease, call.operations, call.since, |w.timeline| - 1) else Raised]
  {
  }

  // Checks of the context

  /** Nothing that a client can see of the session has changed. */
  ghost predicate Untouched(s: Session, t: Session) {
    && t.authority == s.authority && t.generation == s.generation && t.fingerprint == s.fingerprint
    && t.lifetime == s.lifetime && t.verifiedClient == s.verifiedClient && t.status == s.status
  }

  /** A check of this client's context is under way, and it is the only one that counts. */
  ghost predicate CheckUnderWay(s: Session, t: Session, client: nat) {
    && t.generation == s.generation + 1 && t.request == Some(t.generation)
    && t.generation in t.refreshes && t.refreshes[t.generation].client == client
    && t.refreshes[t.generation].denied.None? && t.generation !in t.aborted
    && (s.request.Some? ==> s.request.value in t.aborted)
    && t.lifetime == s.lifetime && t.verifiedClient == s.verifiedClient && t.mounted == s.mounted
  }

  /** A check of a new client, or one asked for by hand, suspends the session until it is answered. */
  lemma CheckSuspends(w: World, client: nat)
    requires WorldOk(w) && RequestsOk(w.session)
    ensures var t := Step(w, RetryAccess(client)).session;
      && CheckUnderWay(w.session, t, client) && t.authority.None? && t.status == Checking
      && t.fingerprint == w.session.fingerprint
    ensures w.session.prevalidatedClient != Some(client) ==>
      var t := Step(w, Effect(client)).session;
      CheckUnderWay(w.session, t, client) && t.authority.None? && t.status == Checking && t.fingerprint.None?
    ensures w.session.prevalidatedClient == Some(client) ==>
      var t := Step(w, Effect(client)).session;
      Untouched(w.session, t) && t.request == w.session.request && t.prevalidatedClient.None?
  {
  }

  /** A focus recheck of the verified client leaves the session usable, and none is made during a switch. */
  lemma FocusKeeps(w: World, client: nat)
    requires WorldOk(w) && RequestsOk(w.session)
    ensures var s, t := w.session, Step(w, Focus(client)).session;
      if s.transition.Some? then t == s
      else
        && CheckUnderWay(s, t, client) && t.fingerprint == s.fingerprint
        && (if s.verifiedClient == Some(client) && s.authority.Some?
            then t.authority == s.authority && t.status == s.status
            else t.authority.None? && t.status == Checking)
  {
  }

  /** An answer that is not the newest check's, or comes to an unmounted session, changes nothing. */
  lemma SupersededCheckIsIgnored(w: World, id: nat, answer: Answer)
    requires WorldOk(w)
    requires !w.session.mounted || id in w.session.aborted || id != w.session.generation || id !in w.session.refreshes
    ensures Untouched(w.session, Step(w, RefreshAnswer(id, answer)).session)
  {
  }

  /** The newest check is pending in a mounted session. */
  ghost predicate Awaited(s: Session, client: nat) {
    && s.mounted && s.generation in s.refreshes && s.generation !in s.aborted
    && s.refreshes[s.generation].client == client && s.refreshes[s.generation].denied.None?
  }

  /**
   A verified answer makes its context the session's. An identity that was recognised keeps the
   lifetime, and with it every client born in it; and if the check had left the authority standing,
   calls in flight stay in force. Any other identity begins a lifetime, and its generation is new.
   */
  lemma VerifiedAnswer(w: World, client: nat, next: Context)
    requires WorldOk(w) && Awaited(w.session, client)
    ensures var s, t := w.session, Step(w, RefreshAnswer(w.session.generation, Verified(next))).session;
      var recognised := s.fingerprint == Some(next.identity);
      && t.authority.Some? && t.authority.value.context == next && t.fingerprint == Some(next.identity)
      && t.status == Ready && t.verifiedClient == Some(client)
      && t.lifetime == (if recognised then s.lifetime else s.lifetime + 1)
      && Lease(t, client, t.lifetime) == t.authority
      && (recognised && s.authority.Some? ==> t.authority.value.generation == s.authority.value.generation)
      && (!recognised || s.authority.None? ==> Unused(w.timeline, t.authority.value.generation))
  {
  }

  /** A failed check ends the authority; only a refusal of access forgets whose it was. */
  lemma FailedAnswer(w: World, client: nat, code: int)
    requires WorldOk(w) && Awaited(w.session, client)
    ensures var s, t := w.session, Step(w, RefreshAnswer(w.session.generation, Failed(code))).session;
      && t.authority.None? && t.lifetime == s.lifetime && t.generation == s.generation
      && t.status == (if code == 401 then SignedOut else FailedCheck)
      && t.fingerprint == (if code == 401 || code == 403 then None else s.fingerprint)
  {
  }

  /** A recheck on focus that finds the same identity keeps every call in flight in force. */
  lemma {:induction false} FocusRecheckKeepsCalls(before: seq<Event>, client: nat, next: Context)
    requires var s := Run(BEGINNING, before).session;
      && s.mounted && s.transition.None? && s.verifiedClient == Some(client)
      && s.authority.Some? && s.authority.value.context.identity == next.identity
    ensures var w := Run(BEGINNING, before);
      var focused := Step(w, Focus(client));
      var checked := Step(focused, RefreshAnswer(focused.session.generation, Verified(next)));
      && checked.calls == w.calls
      && forall id :: id in w.calls && InForce(w.session, w.calls[id]) ==> InForce(checked.session, w.calls[id])
  {
    RequestsStayOk(BEGINNING, before);
    var w := Run(BEGINNING, before);
    FocusKeeps(w, client);
    var focused := Step(w, Focus(client));
    StepKeeps(w, Focus(client));
    VerifiedAnswer(focused, client, next);
  }

  // Switching the scope

  /** The selection that names a scope. */
  function SelectionOf(scope: Scope): Selection {
    Selection(scope.siteId, scope.environmentId, scope.locale)
  }

  /** The offered scope of a selection: the first that it names. */
  ghost predicate Offers(choices: seq<Scope>, selection: Selection, k: nat) {
    && k < |choices| && SelectionOf(choices[k]) == selection
    && forall j :: 0 <= j < k ==> SelectionOf(choices[j]) != selection
  }

  lemma {:induction false} FirstChoice(choices: seq<Scope>, selection: Selection, k: nat)
    requires Offers(choices, selection, k)
    ensures FindChoice(choices, selection) == Some(choices[k])
    decreases |choices|
  {
    if k > 0 {
      assert SelectionOf(choices[0]) != selection;
      forall j | 0 <= j < k - 1 ensures SelectionOf(choices[1..][j]) != selection {
        assert choices[1..][j] == choices[j + 1];
      }
      FirstChoice(choices[1..], selection, k - 1);
    }
  }

  lemma {:induction false} ChoiceIsOffered(choices: seq<Scope>, selection: Selection) returns (k: nat)
    requires FindChoice(choices, selection).Some?
    ensures Offers(choices, selection, k)
    decreases |choices|
  {
    if Chosen(choices[0], selection) {
      k := 0;
    } else {
      k := ChoiceIsOffered(choices[1..], selection);
      k := k + 1;
      forall j | 0 <= j < k ensures SelectionOf(choices[j]) != selection {
        if j > 0 { assert choices[j] == choices[1..][j - 1]; }
      }
    }
  }

  /** A switch may begin: alone, under the client's lease, to an offered scope other than the current one. */
  ghost predicate MayBegin(s: Session, client: nat, selection: Selection, k: nat) {
    && s.transition.None? && s.authority.Some? && s.verifiedClient == Some(client)
    && Offers(s.authority.value.context.choices, selection, k)
    && SelectionOf(s.authority.value.context.identity.scope) != selection
  }

  /** No other switch begins. */
  lemma OtherwiseNone(w: World, client: nat, selection: Selection, candidate: nat)
    requires |w.timeline| > 0 && forall k: nat :: !MayBegin(w.session, client, selection, k)
    ensures Step(w, SwitchScope(client, selection, candidate)).session == w.session
  {
    var s := w.session;
    if s.authority.Some? && FindChoice(s.authority.value.context.choices, selection).Some? {
      var k := ChoiceIsOffered(s.authority.value.context.choices, selection);
      assert !MayBegin(s, client, selection, k);
    }
  }

  /** The session is still the one the switch began in: mounted, on the same client, under the same generation. */
  ghost predicate Undisturbed(s: Session, t: Transition) {
    && s.mounted && !t.aborted && s.activeClient == t.client
    && s.authority.Some? && s.authority.value.generation == t.lease.generation
  }

  /** A context that a switch under a lease may take over: the same principal, in the chosen scope. */
  ghost predicate Matches(next: Context, lease: Authority, scope: Scope) {
    next.identity.principalId == lease.context.identity.principalId && next.identity.scope == scope
  }

  lemma SwitchBegins(w: World, client: nat, selection: Selection, candidate: nat, k: nat)
    requires WorldOk(w) && MayBegin(w.session, client, selection, k)
    ensures var lease := w.session.authority.value;
      Step(w, SwitchScope(client, selection, candidate)).session == w.session.(transition := Some(
        Transition(client, candidate, lease, lease.context.choices[k], None, false)))
  {
    FirstChoice(w.session.authority.value.context.choices, selection, k);
  }

  /** A switch that is not superseded goes on exactly for a matching answer, and otherwise ends. */
  lemma SwitchVerifies(w: World, answer: Answer)
    requires WorldOk(w) && w.session.transition.Some? && w.session.transition.value.next.None?
    requires Undisturbed(w.session, w.session.transition.value)
    ensures var t := w.session.transition.value;
      Step(w, SwitchAnswer(answer)).session == w.session.(transition :=
        if answer.Verified? && Matches(answer.context, t.lease, t.allowed)
        then Some(t.(next := Some(answer.context))) else None)
  {
  }

  /** What a committed switch makes of the session. */
  function Committed(s: Session): Session
    requires s.transition.Some? && s.transition.value.next.Some?
  {
    var t, next := s.transition.value, s.generation + 1;
    s.(authority := Some(Authority(t.next.value, next)), generation := next, fingerprint := Some(t.next.value.identity),
       lifetime := s.lifetime + 1, verifiedClient := Some(t.candidate), prevalidatedClient := Some(t.candidate),
       activeClient := t.candidate, status := Ready, transition := None,
       aborted := if s.request.Some? then s.aborted + {s.request.value} else s.aborted)
  }

  lemma SwitchCleans(w: World, cleaned: bool)
    requires |w.timeline| > 0 && w.session.transition.Some? && w.session.transition.value.next.Some?
    requires Undisturbed(w.session, w.session.transition.value)
    ensures var w' := Step(w, SwitchCleaned(cleaned));
      && w'.calls == w.calls
      && w'.session == if cleaned then Committed(w.session) else w.session.(transition := None)
  {
  }

  /** A verified switch that was cleaned up after hands the session to the candidate, and ends every call. */
  lemma SwitchCommits(w: World, cleaned: bool)
    requires WorldOk(w) && w.session.transition.Some? && w.session.transition.value.next.Some?
    requires Undisturbed(w.session, w.session.transition.value)
    ensures var t, w' := w.session.transition.value, Step(w, SwitchCleaned(cleaned));
      if cleaned then
        && w'.session == Committed(w.session)
        && Unused(w.timeline, w'.session.generation)
        && Lease(w'.session, t.candidate, w'.session.lifetime) == w'.session.authority
        && w'.calls == w.calls && (forall id :: id in w.calls ==> !InForce(w'.session, w.calls[id]))
      else w'.session == w.session.(transition := None)
  {
    SwitchCleans(w, cleaned);
    if cleaned { NothingInForce(w, Committed(w.session)); }
  }

  lemma NothingInForce(w: World, later: Session)
    requires WorldOk(w) && later.lifetime > w.session.lifetime
    ensures Unused(w.timeline, w.session.generation + 1)
    ensures forall id :: id in w.calls ==> !InForce(later, w.calls[id])
  {
    forall id | id in w.calls ensures !InForce(later, w.calls[id]) {
      assert CallHeld(w.session, w.calls[id]);
    }
  }

  /** A switch up to the cleanup, with nothing in between. */
  lemma SwitchReachesCleanup(w: World, client: nat, selection: Selection, candidate: nat, k: nat, answer: Answer)
    requires WorldOk(w) && w.session.mounted && w.session.activeClient == client
    requires MayBegin(w.session, client, selection, k)
    ensures var lease := w.session.authority.value;
      var w2 := Step(Step(w, SwitchScope(client, selection, candidate)), SwitchAnswer(answer));
      && WorldOk(w2) && w2.calls == w.calls
      && w2.session == w.session.(transition :=
           if answer.Verified? && Matches(answer.context, lease, lease.context.choices[k])
           then Some(Transition(client, candidate, lease, lease.context.choices[k], Some(answer.context), false))
           else None)
  {
    var w1 := Step(w, SwitchScope(client, selection, candidate));
    SwitchBegins(w, client, selection, candidate, k);
    StepKeeps(w, SwitchScope(client, selection, candidate));
    SwitchVerifies(w1, answer);
    StepKeeps(w1, SwitchAnswer(answer));
  }

  /**
   A switch from beginning to end, with nothing in between: if the candidate's context has the same
   principal in the chosen scope and the cleanup succeeds, the candidate has the session under a new
   generation and no earlier call is in force; otherwise the session is as it was.
   */
  lemma {:induction false} SwitchHandsOver(before: seq<Event>, client: nat, selection: Selection, candidate: nat,
                                           k: nat, answer: Answer, cleaned: bool)
    requires var s := Run(BEGINNING, before).session;
      s.mounted && s.activeClient == client && MayBegin(s, client, selection, k)
    ensures var w := Run(BEGINNING, before);
      var lease := w.session.authority.value;
      var w2 := Step(Step(w, SwitchScope(client, selection, candidate)), SwitchAnswer(answer));
      var w3 := Step(w2, SwitchCleaned(cleaned));
      if answer.Verified? && Matches(answer.context, lease, lease.context.choices[k]) && cleaned then
        && w3.session.authority.Some? && w3.session.authority.value.context == answer.context
        && w3.session.activeClient == candidate
        && Lease(w3.session, candidate, w3.session.lifetime) == w3.session.authority
        && (forall id :: id in w.calls ==> !InForce(w3.session, w.calls[id]))
      else w3.session == w.session
  {
    RunKeeps(BEGINNING, before);
    var w := Run(BEGINNING, before);
    SwitchReachesCleanup(w, client, selection, candidate, k, answer);
    var w2 := Step(Step(w, SwitchScope(client, selection, candidate)), SwitchAnswer(answer));
    FromCleanup(w, w2, cleaned);
  }

  lemma FromCleanup(w: World, w2: World, cleaned: bool)
    requires WorldOk(w2) && w2.calls == w.calls && w.session.transition.None? && w.session.authority.Some?
    requires w2.session == w.session.(transition := w2.session.transition)
    requires w2.session.transition.Some? ==>
      w2.session.transition.value.next.Some? && Undisturbed(w2.session, w2.session.transition.value)
    ensures var w3 := Step(w2, SwitchCleaned(cleaned));
      if w2.session.transition.Some? && cleaned then
        var t := w2.session.transition.value;
        && w3.session.authority.Some? && w3.session.authority.value.context == t.next.value
        && w3.session.activeClient == t.candidate
        && Lease(w3.session, t.candidate, w3.session.lifetime) == w3.session.authority
        && (forall id :: id in w.calls ==> !InForce(w3.session, w.calls[id]))
      else w3.session == w.session
  {
    if w2.session.transition.Some? {
      SwitchCommits(w2, cleaned);
    } else {
      StraySwitchEvents(w2, Failed(0), cleaned);
    }
  }

  /** Exactly the switches that were committed are on record, each from where it began to where it ended. */
  lemma SwitchesRecorded(w: World, event: Event)
    requires |w.timeline| > 0
    ensures var s, w' := w.session, Step(w, event);
      if event == SwitchCleaned(true) && s.transition.Some? && s.transition.value.next.Some?
         && Undisturbed(s, s.transition.value)
      then w'.switches == w.switches + [Switch(s.transition.value.lease, s.transition.value.next.value,
                                               w.switchSince, |w.timeline| - 1)]
      else w'.switches == w.switches
    ensures Step(w, event).switchSince
         == if event.SwitchScope? && Step(w, event).session != w.session then |w.timeline| else w.switchSince
  {
  }

  /** A run takes its events one after the other. */
  lemma {:induction false} RunSteps(w: World, events: seq<Event>, event: Event)
    requires |w.timeline| > 0
    ensures Run(w, []) == w && Run(w, events + [event]) == Step(Run(w, events), event)
    decreases |events|
  {
    if events == [] {
      assert ([] + [event])[1..] == [] && (events + [event])[0] == event;
    } else {
      assert (events + [event])[1..] == events[1..] + [event];
      RunSteps(Step(w, events[0]), events[1..], event);
    }
  }

  /** A superseded switch ends without a trace, at either of its awaits. */
  lemma SupersededSwitchEnds(w: World, answer: Answer, cleaned: bool)
    requires WorldOk(w) && w.session.transition.Some? && !Undisturbed(w.session, w.session.transition.value)
    ensures w.session.transition.value.next.None? ==>
      Step(w, SwitchAnswer(answer)).session == w.session.(transition := None)
    ensures w.session.transition.value.next.Some? ==>
      Step(w, SwitchCleaned(cleaned)).session == w.session.(transition := None)
  {
  }

  /** Without a switch at that await, an answer or a cleanup is nobody's. */
  lemma StraySwitchEvents(w: World, answer: Answer, cleaned: bool)
    requires |w.timeline| > 0
    ensures w.session.transition.None? || w.session.transition.value.next.Some? ==>
      Step(w, SwitchAnswer(answer)).session == w.session
    ensures w.session.transition.None? || w.session.transition.value.next.None? ==>
      Step(w, SwitchCleaned(cleaned)).session == w.session
  {
  }

  /** Mounting and rendering with another client change just that. */
  lemma MountAndRender(w: World, client: nat)
    requires |w.timeline| > 0
    ensures Step(w, Mount).session == w.session.(mounted := true)
    ensures Step(w, Render(client)).session == w.session.(activeClient := client)
  {
  }

  /** What an unmounted session has left: no authority, no check that counts, and a switch that is aborted. */
  lemma UnmountEnds(w: World)
    requires WorldOk(w)
    ensures var w' := Step(w, Unmount);
      && w'.session.authority.None? && !w'.session.mounted && w'.session.generation == w.session.generation + 1
      && (w.session.request.Some? ==> w.session.request.value in w'.session.aborted)
      && (w'.session.transition.Some? ==> w'.session.transition.value.aborted)
      && (w.session.transition.Some? <==> w'.session.transition.Some?)
  {
  }
}
