/** The Studio session as it runs: refs assigned step by step between awaits. */
module StudioSession {
  import opened Wrappers
  import opened StudioLease

  class StudioSession {
    var activeClientRef: nat
    var verifiedClient: Option<nat>
    var prevalidatedClient: Option<nat>
    var authority: Option<Authority>
    var generation: nat
    var fingerprint: Option<Identity>
    var lifetimeRef: nat
    var mounted: bool
    var status: Status
    var request: Option<nat>
    var aborted: set<nat>
    var refreshes: map<nat, Refresh>
    var transition: Option<Transition>

    function State(): Session
      reads this
    {
      Session(activeClientRef, verifiedClient, prevalidatedClient, authority, generation, fingerprint,
              lifetimeRef, mounted, status, request, aborted, refreshes, transition)
    }

    constructor ()
      ensures State() == FRESH
    {
      activeClientRef, verifiedClient, prevalidatedClient := 0, None, None;
      authority, generation, fingerprint, lifetimeRef := None, 0, None, 0;
      mounted, status, request, aborted, refreshes, transition := false, Checking, None, {}, map[], None;
    }

    method AbortRequest()
      modifies this`aborted
      ensures aborted == Aborted(old(State()))
    {
      if request.Some? { aborted := aborted + {request.value}; }
    }

    method BeginRefresh(client: nat, denied: Option<Identity>, routineFocus: bool)
      modifies this
      ensures State() == RefreshStarted(old(State()), client, denied, routineFocus)
    {
      AbortRequest();
      generation := generation + 1;
      var current := generation;
      request := Some(current);
      var previous: Option<Authority> := None;
      if routineFocus && verifiedClient == Some(client) { previous := authority; }
      if previous.None? {
        authority := None;
        status := Checking;
      }
      refreshes := refreshes[current := Refresh(client, previous, denied)];
    }

    method FinishRefresh(id: nat, answer: Answer)
      modifies this
      ensures State() == RefreshAnswered(old(State()), id, answer)
    {
      if id !in refreshes { return; }
      var refresh := refreshes[id];
      refreshes := refreshes - {id};
      if !mounted || id in aborted || id != generation { return; }
      match answer {
        case Verified(next) =>
          var identity := next.identity;
          if refresh.denied == Some(identity) {
            status := Forbidden;
            return;
          }
          var recognised := fingerprint == Some(identity);
          if !recognised {
            fingerprint := Some(identity);
            lifetimeRef := lifetimeRef + 1;
          }
          verifiedClient := Some(refresh.client);
          if recognised && refresh.previous.Some? {
            authority := Some(Authority(next, refresh.previous.value.generation));
          } else {
            authority := Some(Authority(next, id));
          }
          status := Ready;
        case Failed(code) =>
          authority := None;
          status := FailedCheck;
          if code == 401 || code == 403 {
            fingerprint := None;
            if code == 401 { status := SignedOut; }
          }
      }
    }

    /** The guarded client's authority callback. */
    method CurrentLease(client: nat, born: nat) returns (lease: Option<Authority>)
      ensures lease == Lease(State(), client, born)
    {
      lease := None;
      if authority.Some? && born == lifetimeRef && verifiedClient == Some(client) { lease := authority; }
    }

    method OnDenied(client: nat, code: int)
      modifies this
      ensures State() == Denied(old(State()), client, code)
    {
      var deniedFingerprint := fingerprint;
      authority := None;
      generation := generation + 1;
      AbortRequest();
      fingerprint := None;
      lifetimeRef := lifetimeRef + 1;
      status := if code == 401 then SignedOut else Checking;
      if code == 403 { BeginRefresh(client, deniedFingerprint, false); }
    }

    /** A guarded call up to its await: the lease it holds until its answer, unless it is refused. */
    method BeginCall(client: nat, born: nat, operations: Option<seq<string>>) returns (held: Option<Authority>)
      ensures held == if operations.Some? && Lease(State(), client, born).Some?
                         && Permits(authority.value.context.identity.capabilities, operations.value)
                      then authority else None
    {
      held := CurrentLease(client, born);
      if operations.None? || (held.Some? && !Permits(held.value.context.identity.capabilities, operations.value)) {
        held := None;
      }
    }

    /** The part of a guarded call after its await. */
    method SettleCall(call: Call, reply: Reply) returns (settlement: Settlement)
      modifies this
      ensures settlement == Settle(old(State()), call, reply)
      ensures State() == AfterCall(old(State()), call, reply)
    {
      var now := CurrentLease(call.client, call.born);
      if now.None? || now.value.generation != call.lease.generation { return DropStale; }
      match reply {
        case Result => return Deliver;
        case Error(code) =>
          if code == 401 || code == 403 {
            OnDenied(call.client, code);
            return DropStale;
          }
          return Raise;
      }
    }

    method FindAllowed(choices: seq<Scope>, selection: Selection) returns (found: Option<Scope>)
      ensures found == FindChoice(choices, selection)
    {
      var i := 0;
      while i < |choices| && !Chosen(choices[i], selection)
        invariant i <= |choices|
        invariant FindChoice(choices, selection) == FindChoice(choices[i..], selection)
      {
        assert choices[i..][1..] == choices[i + 1..];
        i := i + 1;
      }
      if i < |choices| {
        assert choices[i..][0] == choices[i];
        found := Some(choices[i]);
      } else {
        found := None;
      }
    }

    method BeginTransition(client: nat, selection: Selection, candidate: nat)
      modifies this
      ensures State() == TransitionStarted(old(State()), client, selection, candidate)
    {
      if transition.Some? || authority.None? || verifiedClient != Some(client) { return; }
      var lease := authority.value;
      var allowed := FindAllowed(lease.context.choices, selection);
      if allowed.None? || Chosen(lease.context.identity.scope, selection) { return; }
      transition := Some(Transition(client, candidate, lease, allowed.value, None, false));
    }

    method CheckSuperseded(t: Transition) returns (superseded: bool)
      ensures superseded == Superseded(State(), t)
    {
      if !mounted || t.aborted || activeClientRef != t.client { return true; }
      return authority.None? || authority.value.generation != t.lease.generation;
    }

    method VerifyTransition(answer: Answer)
      modifies this
      ensures State() == TransitionAnswered(old(State()), answer)
    {
      if transition.None? || transition.value.next.Some? { return; }
      var t := transition.value;
      transition := None;
      var superseded := CheckSuperseded(t);
      if answer.Failed? || superseded { return; }
      var next := answer.context;
      if next.identity.principalId == t.lease.context.identity.principalId && next.identity.scope == t.allowed {
        transition := Some(t.(next := Some(next)));
      }
    }

    method CommitTransition(cleaned: bool)
      modifies this
      ensures State() == CleanupFinished(old(State()), cleaned)
    {
      if transition.None? || transition.value.next.None? { return; }
      var t := transition.value;
      transition := None;
      var superseded := CheckSuperseded(t);
      if !cleaned || superseded { return; }
      TakeOver(t.next.value, t.candidate);
    }

    /** The candidate client and its verified context become the session's. */
    method TakeOver(next: Context, candidate: nat)
      modifies this
      ensures State() == old(State()).(
        aborted := Aborted(old(State())), generation := old(generation) + 1, fingerprint := Some(next.identity),
        lifetime := old(lifetimeRef) + 1, authority := Some(Authority(next, old(generation) + 1)),
        verifiedClient := Some(candidate), prevalidatedClient := Some(candidate), activeClient := candidate, status := Ready)
    {
      AbortRequest();
      generation := generation + 1;
      fingerprint := Some(next.identity);
      lifetimeRef := lifetimeRef + 1;
      authority := Some(Authority(next, generation));
      verifiedClient := Some(candidate);
      prevalidatedClient := Some(candidate);
      activeClientRef := candidate;
      status := Ready;
    }

    method Mount()
      modifies this
      ensures State() == Mounted(old(State()))
    {
      mounted := true;
    }

    method Render(client: nat)
      modifies this
      ensures State() == old(State()).(activeClient := client)
    {
      activeClientRef := client;
    }

    method Unmount()
      modifies this
      ensures State() == Unmounted(old(State()))
    {
      mounted := false;
      authority := None;
      generation := generation + 1;
      AbortRequest();
      if transition.Some? { transition := Some(transition.value.(aborted := true)); }
    }

    method OnClientChange(client: nat)
      modifies this
      ensures State() == ClientEffect(old(State()), client)
    {
      if prevalidatedClient == Some(client) {
        prevalidatedClient := None;
      } else {
        fingerprint := None;
        BeginRefresh(client, None, false);
      }
    }

    method OnFocus(client: nat)
      modifies this
      ensures State() == Focused(old(State()), client)
    {
      if transition.None? { BeginRefresh(client, None, true); }
    }
  }

  /**
   The run of a session. Whatever happens to it is delivered here, one stretch of code between two
   awaits at a time, and each guarded call in flight holds the lease it began with; `world` is the
   run so far, and `Valid` holds the whole-run invariant.
   */
  class StudioRun {
    const session: StudioSession
    var steps: nat
    var inFlight: map<nat, Call>
    var answered: set<nat>
    ghost var world: World

    ghost predicate Valid()
      reads this, session
    {
      && WorldOk(world) && world.session == session.State()
      && steps == |world.timeline| && inFlight == world.calls && answered == world.outcomes.Keys
    }

    constructor ()
      ensures Valid() && fresh(session) && world == BEGINNING
    {
      session := new StudioSession();
      steps, inFlight, answered := 1, map[], {};
      world := BEGINNING;
    }

    /**
     Every event keeps the invariant, so every guarded result delivered in the run had one verified
     identity in force, permitting its operations, at each step from its call to its delivery.
     */
    method Happen(event: Event)
      requires Valid()
      modifies this, session
      ensures Valid() && world == Step(old(world), event)
      ensures forall id :: id in world.outcomes ==> DeliveredInForce(world.timeline, world.outcomes[id])
    {
      StepKeeps(world, event);
      if event.CallMade? {
        Begin(event.call, event.client, event.born, event.operations);
      } else if event.CallAnswered? {
        Finish(event.call, event.reply);
      } else {
        Deliver(event);
      }
      steps := steps + 1;
      world := Step(world, event);
    }

    method Begin(id: nat, client: nat, born: nat, operations: Option<seq<string>>)
      requires Valid()
      modifies this`inFlight
      ensures inFlight == NextCalls(world, CallMade(id, client, born, operations))
    {
      var held := session.BeginCall(client, born, operations);
      if held.Some? && id !in inFlight && id !in answered {
        inFlight := inFlight[id := Call(client, born, operations.value, held.value, steps)];
      }
    }

    method Finish(id: nat, reply: Reply)
      requires Valid()
      modifies this`inFlight, this`answered, session
      ensures session.State() == NextSession(world, CallAnswered(id, reply))
      ensures inFlight == NextCalls(world, CallAnswered(id, reply))
      ensures answered == NextOutcomes(world, CallAnswered(id, reply)).Keys
    {
      if id in inFlight {
        var _ := session.SettleCall(inFlight[id], reply);
        answered := answered + {id};
      }
      inFlight := inFlight - {id};
    }

    method Deliver(event: Event)
      requires world.session == session.State() && !event.CallMade? && !event.CallAnswered?
      modifies session
      ensures session.State() == NextSession(world, event)
    {
      match event {
        case Mount => session.Mount();
        case Unmount => session.Unmount();
        case Effect(client) => session.OnClientChange(client);
        case Render(client) => session.Render(client);
        case Focus(client) => session.OnFocus(client);
        case RetryAccess(client) => session.BeginRefresh(client, None, false);
        case RefreshAnswer(id, answer) => session.FinishRefresh(id, answer);
        case SwitchScope(client, selection, candidate) => session.BeginTransition(client, selection, candidate);
        case SwitchAnswer(answer) => session.VerifyTransition(answer);
        case SwitchCleaned(cleaned) => session.CommitTransition(cleaned);
      }
    }
  }
}
