/**
 What proposing and reviewing bring about: which evaluation a proposal is stored with, which decision a
 review records, and which fields a semantic index is given.
 */
module AiAuthoringLaws {
  import opened Wrappers
  import opened VersionedStore
  import opened AiAuthoring

  // Reviews

  /** One proposal after an operation on the proposals: the decision and its review, or a mark, or as it was. */
  ghost predicate Decides(op: Operation, now: int, a: Proposal, b: Proposal)
    requires IsReview(op)
  {
    if a.id != op.proposalId then b == a
    else
      match op
      case MarkStale(_, _) => b == a.(status := Stale)
      case Decide(_, decision, actorId, _) =>
        && b.reviews == [Review(decision, actorId, now)]
        && (decision == Approve ==> b == a.(status := Status.Approved, reviews := b.reviews))
        && (decision == Reject ==> b == a.(status := Status.Rejected, reviews := b.reviews))
      case _ => true
  }

  /** A review is never refused by its change, decides the proposal it names and touches nothing else. */
  lemma ReviewLaw(settings: Settings, op: Operation, now: int, before: Authoring)
    requires IsReview(op)
    ensures var verdict := Apply(settings, op, now, before);
      && verdict.Write? && |verdict.body.proposals| == |before.proposals|
      && (forall k :: 0 <= k < |before.proposals| ==> Decides(op, now, before.proposals[k], verdict.body.proposals[k]))
      && verdict.body.(proposals := before.proposals) == before
  {
  }

  /** Where a document holds a proposal. */
  ghost predicate HeldAt(document: Authoring, k: nat, id: string) {
    k < |document.proposals| && document.proposals[k].id == id
  }

  /**
   Over every log: a committed review finds the proposal it names, pending and passed, decides it as
   asked, and leaves every other proposal alone.
   */
  lemma DecisionIsRecorded(settings: Settings, accepts: Document<Authoring> -> bool, log: Log, i: nat) returns (k: nat)
    requires Linear(AuthoringProtocol(settings, accepts), log) && FreshIds(log) && LogOk(settings, log)
    requires i < |log| && IsReview(log[i].op)
    ensures HeldAt(DocumentAt(log, i), k, log[i].op.proposalId)
    ensures DocumentAt(log, i).proposals[k].status == PendingReview && DocumentAt(log, i).proposals[k].passed
    ensures |DocumentAt(log, i + 1).proposals| == |DocumentAt(log, i).proposals|
    ensures Decides(log[i].op, log[i].now, DocumentAt(log, i).proposals[k], DocumentAt(log, i + 1).proposals[k])
    ensures forall m :: 0 <= m < |DocumentAt(log, i).proposals| && m != k ==>
      DocumentAt(log, i + 1).proposals[m] == DocumentAt(log, i).proposals[m]
  {
    VersionStep(settings, accepts, log, i);
    IdsAreUnique(settings, accepts, log, i);
    var before, op := DocumentAt(log, i), log[i].op;
    assert OperationOk(settings, before, op);
    ReviewLaw(settings, op, log[i].now, before);
    var found := FindProposal(before.proposals, op.proposalId).value;
    k :| 0 <= k < |before.proposals| && before.proposals[k] == found;
    forall m | 0 <= m < |before.proposals| && m != k
      ensures DocumentAt(log, i + 1).proposals[m] == before.proposals[m]
    {
      assert before.proposals[m].id != op.proposalId;
      assert Decides(op, log[i].now, before.proposals[m], DocumentAt(log, i + 1).proposals[m]);
    }
  }

  /** The commit at `i` decided this proposal, which still says so. */
  ghost predicate DecidedAt(log: Log, i: int, version: nat, proposal: Proposal) {
    && 0 <= i < version <= |log| && IsReview(log[i].op) && log[i].op.proposalId == proposal.id
    && match log[i].op
       case MarkStale(_, _) => proposal.status == Stale
       case Decide(_, decision, actorId, _) =>
         && proposal.reviews == [Review(decision, actorId, log[i].now)]
         && (decision == Approve ==> proposal.status == Status.Approved)
         && (decision == Reject ==> proposal.status == Status.Rejected)
       case _ => false
  }

  ghost predicate IsSettled(status: Status) {
    status in {Status.Approved, Status.Rejected, Status.Stale}
  }

  /** A settled proposal was decided by an earlier commit. */
  lemma {:induction false} SettledWasDecided(settings: Settings, accepts: Document<Authoring> -> bool, log: Log,
                                             version: nat, k: nat) returns (i: nat)
    requires Linear(AuthoringProtocol(settings, accepts), log) && FreshIds(log) && LogOk(settings, log)
    requires version <= |log| && k < |DocumentAt(log, version).proposals|
    requires IsSettled(DocumentAt(log, version).proposals[k].status)
    ensures DecidedAt(log, i, version, DocumentAt(log, version).proposals[k])
    decreases version
  {
    var proposal, last := DocumentAt(log, version).proposals[k], version - 1;
    assert OperationOk(settings, BodyOf(log[last].before, EMPTY), log[last].op);
    if log[last].op.Propose? && log[last].op.proposal.id == proposal.id {
      JustProposed(settings, accepts, log, last, k);
    }
    var m := Earlier(settings, accepts, log, last, k);
    if IsSettled(DocumentAt(log, last).proposals[m].status) {
      i := SettledWasDecided(settings, accepts, log, last, m);
    } else {
      i := last;
      JustDecided(settings, accepts, log, last, k, m);
    }
  }

  lemma JustDecided(settings: Settings, accepts: Document<Authoring> -> bool, log: Log, version: nat, k: nat, m: nat)
    requires Linear(AuthoringProtocol(settings, accepts), log) && FreshIds(log) && LogOk(settings, log)
    requires version < |log| && k < |DocumentAt(log, version + 1).proposals| && m < |DocumentAt(log, version).proposals|
    requires DocumentAt(log, version).proposals[m].id == DocumentAt(log, version + 1).proposals[k].id
    requires !(log[version].op.Propose? && log[version].op.proposal.id == DocumentAt(log, version + 1).proposals[k].id)
    requires DocumentAt(log, version).proposals[m].status == PendingReview
    requires IsSettled(DocumentAt(log, version + 1).proposals[k].status)
    ensures DecidedAt(log, version, version + 1, DocumentAt(log, version + 1).proposals[k])
  {
    VersionStep(settings, accepts, log, version);
    IdsAreUnique(settings, accepts, log, version);
    var from := CameFrom(settings, DocumentAt(log, version), DocumentAt(log, version + 1), log[version].op,
                         log[version].now, k);
    assert from == Some(m);
    if IsReview(log[version].op) {
      ReviewLaw(settings, log[version].op, log[version].now, DocumentAt(log, version));
      assert Decides(log[version].op, log[version].now, DocumentAt(log, version).proposals[k],
                     DocumentAt(log, version + 1).proposals[k]);
    } else {
      UnreviewedStays(settings, DocumentAt(log, version), DocumentAt(log, version + 1), log[version].op,
                      log[version].now, k, m);
    }
  }

  lemma UnreviewedStays(settings: Settings, before: Authoring, after: Authoring, op: Operation, now: int, k: nat, m: nat)
    requires Apply(settings, op, now, before) == Write(after) && !IsReview(op)
    requires k < |after.proposals| && m < |before.proposals| && before.proposals[m].id == after.proposals[k].id
    requires forall i, j :: 0 <= i < j < |before.proposals| ==> before.proposals[i].id != before.proposals[j].id
    requires !(op.Propose? && op.proposal.id == after.proposals[k].id)
    ensures after.proposals[k] == before.proposals[m]
  {
    if op.Propose? {
      var from := NewestFrom(before.proposals, op.proposal, settings.maximumProposals, k);
    }
  }

  /** Once decided, a proposal shows that decision for as long as it is retained. */
  lemma DecisionStands(settings: Settings, accepts: Document<Authoring> -> bool, log: Log, i: nat, version: nat, k: nat)
    requires Linear(AuthoringProtocol(settings, accepts), log) && FreshIds(log) && LogOk(settings, log)
    requires i < version <= |log| && k < |DocumentAt(log, version).proposals|
    requires IsReview(log[i].op) && log[i].op.proposalId == DocumentAt(log, version).proposals[k].id
    ensures DecidedAt(log, i, version, DocumentAt(log, version).proposals[k])
  {
    var m := DecisionIsRecorded(settings, accepts, log, i);
    LeavesReviewOnce(settings, accepts, log, i + 1, version, m, k);
  }

  ghost predicate Asked(log: Log, version: nat, id: string, op: Operation -> bool)
    requires version <= |log|
  {
    exists i :: 0 <= i < version && IsReview(log[i].op) && log[i].op.proposalId == id && op(log[i].op)
  }

  predicate Approves(op: Operation) { op.Decide? && op.decision == Approve }
  predicate Rejects(op: Operation) { op.Decide? && op.decision == Reject }
  predicate Marks(op: Operation) { op.MarkStale? }

  /** A proposal's status is what was committed about it. */
  ghost predicate StatusTells(log: Log, version: nat, proposal: Proposal)
    requires version <= |log|
  {
    && (proposal.status == Status.Approved <==> Asked(log, version, proposal.id, Approves))
    && (proposal.status == Status.Rejected <==> Asked(log, version, proposal.id, Rejects))
    && (proposal.status == Status.Stale <==> Asked(log, version, proposal.id, Marks))
  }

  lemma DecidedExactly(settings: Settings, accepts: Document<Authoring> -> bool, log: Log, version: nat, k: nat)
    requires Linear(AuthoringProtocol(settings, accepts), log) && FreshIds(log) && LogOk(settings, log)
    requires version <= |log| && k < |DocumentAt(log, version).proposals|
    ensures StatusTells(log, version, DocumentAt(log, version).proposals[k])
  {
    var proposal := DocumentAt(log, version).proposals[k];
    forall i | 0 <= i < version && IsReview(log[i].op) && log[i].op.proposalId == proposal.id
      ensures DecidedAt(log, i, version, proposal)
    {
      DecisionStands(settings, accepts, log, i, version, k);
    }
    if IsSettled(proposal.status) {
      var i := SettledWasDecided(settings, accepts, log, version, k);
    }
  }

  /**
   Under any interleaving, in every version: a retained proposal is approved, rejected or stale if and
   only if a commit before approved it, rejected it or marked it.
   */
  lemma {:induction false} StatusIsDecision(settings: Settings, accepts: Document<Authoring> -> bool,
                                            history: seq<Happening>, version: nat, k: nat)
    ensures var log := Live(settings, AuthoringProtocol(settings, accepts), World(Initial(), map[]), history).store.log;
      FreshIds(log) && version <= |log| && k < |DocumentAt(log, version).proposals| ==>
        StatusTells(log, version, DocumentAt(log, version).proposals[k])
  {
    var p := AuthoringProtocol(settings, accepts);
    LiveKeeps(settings, p, World(Initial(), map[]), history);
    var log := Live(settings, p, World(Initial(), map[]), history).store.log;
    if FreshIds(log) && version <= |log| && k < |DocumentAt(log, version).proposals| {
      DecidedExactly(settings, accepts, log, version, k);
    }
  }

  // Undisturbed reviews

  lemma {:induction false} LiveOne(settings: Settings, p: Rules, w: World, h: Happening, more: seq<Happening>)
    ensures Live(settings, p, w, [h] + more) == Live(settings, p, Happen(settings, p, w, h), more)
  {
    assert ([h] + more)[1..] == more;
  }

  /** The rest of a replacement that nobody interrupts. */
  function Written(c: nat, now: int): seq<Happening> {
    [StoreStep(Load(c, now)), StoreStep(Save(c))]
  }

  lemma {:induction false} SentIsWritten(settings: Settings, p: Rules, w: World, c: nat, op: Operation, expected: nat,
                                         now: int)
    ensures Live(settings, p, Send(p, w, BeginReplace(c, op, expected)), Written(c, now))
         == World(Run(p, w.store, Alone(c, op, Some(expected), now)), w.tasks - {c})
  {
    var sent := Send(p, w, BeginReplace(c, op, expected));
    var loaded := sent.(store := Next(p, sent.store, Load(c, now)));
    var saved := loaded.(store := Next(p, loaded.store, Save(c)));
    assert Written(c, now) == [StoreStep(Load(c, now))] + ([StoreStep(Save(c))] + []);
    LiveOne(settings, p, sent, StoreStep(Load(c, now)), [StoreStep(Save(c))] + []);
    LiveOne(settings, p, loaded, StoreStep(Save(c)), []);
    assert Live(settings, p, saved, []) == saved;
    var events := Alone(c, op, Some(expected), now);
    assert events[1..] == [Load(c, now), Save(c)] && events[1..][1..] == [Save(c)] && events[1..][1..][1..] == [];
    var begun := Next(p, w.store, BeginReplace(c, op, expected));
    assert Run(p, w.store, events) == Run(p, begun, events[1..]);
    assert Run(p, begun, events[1..]) == Run(p, loaded.store, events[1..][1..]);
    assert Run(p, loaded.store, events[1..][1..]) == Run(p, saved.store, events[1..][1..][1..]);
  }

  /** A human asks for a review of what was read last, and an approval reads the entry. */
  function Asking(c: nat, proposalId: string, actorId: string, expected: nat, decision: Decision,
                  draft: Draft): seq<Happening> {
    [ReviewAsked(c, true, proposalId, actorId, expected, decision)]
    + if decision == Approve then [TargetRead(c, draft)] else []
  }

  /** The entry is still of the type and in the revision the proposal was made for. */
  predicate Unchanged(proposal: Proposal, draft: Draft) {
    draft.target.contentType == proposal.target.contentType && draft.target.revisionId == proposal.target.revisionId
  }

  /** The proposal as an undisturbed review leaves it. */
  ghost predicate AfterReview(decision: Decision, actorId: string, now: int, draft: Draft, a: Proposal, b: Proposal) {
    if decision == Reject then b == a.(status := Status.Rejected, reviews := [Review(Reject, actorId, now)])
    else if Unchanged(a, draft) then b == a.(status := Status.Approved, reviews := [Review(Approve, actorId, now)])
    else b == a.(status := Stale)
  }

  ghost predicate DistinctIds(document: Authoring) {
    forall i, j :: 0 <= i < j < |document.proposals| ==> document.proposals[i].id != document.proposals[j].id
  }

  lemma ReviewSends(settings: Settings, p: Rules, w: World, c: nat, k: nat, proposalId: string, actorId: string,
                    decision: Decision, draft: Draft) returns (op: Operation)
    requires Unoccupied(w, c)
    requires HeldAt(BodyOf(w.store.stored, EMPTY), k, proposalId)
    requires DistinctIds(BodyOf(w.store.stored, EMPTY))
    requires BodyOf(w.store.stored, EMPTY).proposals[k].status == PendingReview
    requires BodyOf(w.store.stored, EMPTY).proposals[k].passed
    ensures IsReview(op) && op.proposalId == proposalId
    ensures forall now, b: Proposal :: Decides(op, now, BodyOf(w.store.stored, EMPTY).proposals[k], b) ==>
      AfterReview(decision, actorId, now, draft, BodyOf(w.store.stored, EMPTY).proposals[k], b)
    ensures var expected := VersionOf(w.store.stored);
      var sent := Live(settings, p, w, Asking(c, proposalId, actorId, expected, decision, draft));
      sent.store == Next(p, w.store, BeginReplace(c, op, expected)) && sent.tasks == w.tasks
  {
    var document, expected := BodyOf(w.store.stored, EMPTY), VersionOf(w.store.stored);
    var proposal := document.proposals[k];
    assert FindProposal(document.proposals, proposalId) == Some(proposal);
    var asked := ReviewAsked(c, true, proposalId, actorId, expected, decision);
    if decision == Approve {
      op := if Unchanged(proposal, draft)
            then Decide(proposalId, Approve, actorId, Some(proposal.target))
            else MarkStale(proposalId, Target(proposal.target.entryId, draft.target.contentType, draft.target.revisionId));
      LiveOne(settings, p, w, asked, [TargetRead(c, draft)] + []);
      var checking := w.(tasks := w.tasks[c := Checking(proposal, actorId, expected)]);
      assert Happen(settings, p, w, asked) == checking;
      LiveOne(settings, p, checking, TargetRead(c, draft), []);
      assert [asked] + [TargetRead(c, draft)] == [asked] + ([TargetRead(c, draft)] + []);
      assert checking.tasks - {c} == w.tasks;
    } else {
      op := Decide(proposalId, Reject, actorId, None);
      LiveOne(settings, p, w, asked, []);
      assert w.tasks - {c} == w.tasks;
    }
  }

  lemma {:induction false} LiveConcat(settings: Settings, p: Rules, w: World, first: seq<Happening>, second: seq<Happening>)
    ensures Live(settings, p, w, first + second) == Live(settings, p, Live(settings, p, w, first), second)
    decreases |first|
  {
    if first == [] {
      assert first + second == second;
    } else {
      assert (first + second)[1..] == first[1..] + second;
      LiveConcat(settings, p, Happen(settings, p, w, first[0]), first[1..], second);
    }
  }

  /**
   After every history, the review of a pending proposal of the current document by a human whom nobody
   interrupts: the document saved next holds that proposal rejected, approved, or stale where the entry
   has changed, with the review that was made, and everything else as it was.
   */
  lemma ReviewTakesEffect(settings: Settings, accepts: Document<Authoring> -> bool, history: seq<Happening>, c: nat,
                          k: nat, proposalId: string, actorId: string, decision: Decision, draft: Draft, now: int)
    returns (next: Authoring)
    requires var w := Live(settings, AuthoringProtocol(settings, accepts), World(Initial(), map[]), history);
      && FreshIds(w.store.log) && Unoccupied(w, c)
      && HeldAt(BodyOf(w.store.stored, EMPTY), k, proposalId)
      && BodyOf(w.store.stored, EMPTY).proposals[k].status == PendingReview
      && BodyOf(w.store.stored, EMPTY).proposals[k].passed
    ensures var p := AuthoringProtocol(settings, accepts);
      var w := Live(settings, p, World(Initial(), map[]), history);
      var before, version := BodyOf(w.store.stored, EMPTY), VersionOf(w.store.stored);
      var w' := Live(settings, p, w, Asking(c, proposalId, actorId, version, decision, draft) + Written(c, now));
      && w'.tasks == w.tasks
      && next.(proposals := before.proposals) == before && |next.proposals| == |before.proposals|
      && AfterReview(decision, actorId, now, draft, before.proposals[k], next.proposals[k])
      && (forall m :: 0 <= m < |before.proposals| && m != k ==> next.proposals[m] == before.proposals[m])
      && w'.store.stored
           == if accepts(Document(version + 1, now, next)) then Some(Document(version + 1, now, next)) else w.store.stored
  {
    var p := AuthoringProtocol(settings, accepts);
    var w := Live(settings, p, World(Initial(), map[]), history);
    LiveKeeps(settings, p, World(Initial(), map[]), history);
    assert w.store.log[..|w.store.log|] == w.store.log;
    assert DocumentAt(w.store.log, |w.store.log|) == BodyOf(w.store.stored, EMPTY);
    IdsAreUnique(settings, accepts, w.store.log, |w.store.log|);
    var op;
    op, next := ReviewSaves(settings, accepts, w, c, k, proposalId, actorId, decision, draft, now);
    ReviewOutcome(settings, op, now, BodyOf(w.store.stored, EMPTY), k, next);
  }

  lemma ReviewOutcome(settings: Settings, op: Operation, now: int, before: Authoring, k: nat, next: Authoring)
    requires IsReview(op) && Apply(settings, op, now, before) == Write(next)
    requires DistinctIds(before) && HeldAt(before, k, op.proposalId)
    ensures next.(proposals := before.proposals) == before && |next.proposals| == |before.proposals|
    ensures Decides(op, now, before.proposals[k], next.proposals[k])
    ensures forall m :: 0 <= m < |before.proposals| && m != k ==> next.proposals[m] == before.proposals[m]
  {
    ReviewLaw(settings, op, now, before);
    forall m | 0 <= m < |before.proposals| && m != k ensures next.proposals[m] == before.proposals[m] {
      assert before.proposals[m].id != op.proposalId;
      assert Decides(op, now, before.proposals[m], next.proposals[m]);
    }
  }

  lemma ReviewSaves(settings: Settings, accepts: Document<Authoring> -> bool, w: World, c: nat, k: nat,
                    proposalId: string, actorId: string, decision: Decision, draft: Draft, now: int)
    returns (op: Operation, next: Authoring)
    requires Unoccupied(w, c) && DistinctIds(BodyOf(w.store.stored, EMPTY))
    requires HeldAt(BodyOf(w.store.stored, EMPTY), k, proposalId)
    requires BodyOf(w.store.stored, EMPTY).proposals[k].status == PendingReview
    requires BodyOf(w.store.stored, EMPTY).proposals[k].passed
    ensures IsReview(op) && op.proposalId == proposalId
    ensures Apply(settings, op, now, BodyOf(w.store.stored, EMPTY)) == Write(next)
    ensures forall b: Proposal :: Decides(op, now, BodyOf(w.store.stored, EMPTY).proposals[k], b) ==>
      AfterReview(decision, actorId, now, draft, BodyOf(w.store.stored, EMPTY).proposals[k], b)
    ensures var version := VersionOf(w.store.stored);
      var w' := Live(settings, AuthoringProtocol(settings, accepts), w,
                     Asking(c, proposalId, actorId, version, decision, draft) + Written(c, now));
      var document := Document(version + 1, now, next);
      w'.tasks == w.tasks && w'.store.stored == if accepts(document) then Some(document) else w.store.stored
  {
    var version := VersionOf(w.store.stored);
    op := ReviewSends(settings, AuthoringProtocol(settings, accepts), w, c, k, proposalId, actorId, decision, draft);
    ReviewLaw(settings, op, now, BodyOf(w.store.stored, EMPTY));
    next := Apply(settings, op, now, BodyOf(w.store.stored, EMPTY)).body;
    SentCommits(settings, accepts, w, c, op, version, now, next,
                Asking(c, proposalId, actorId, version, decision, draft));
  }

  lemma {:induction false} AloneStores(settings: Settings, accepts: Document<Authoring> -> bool, s: Store, c: nat,
                                       op: Operation, now: int, next: Authoring)
    requires Free(ClientOf(s, c)) && Apply(settings, op, now, BodyOf(s.stored, EMPTY)) == Write(next)
    ensures var document := Document(VersionOf(s.stored) + 1, now, next);
      Run(AuthoringProtocol(settings, accepts), s, Alone(c, op, Some(VersionOf(s.stored)), now)).stored
        == if accepts(document) then Some(document) else s.stored
  {
    AloneCommits(AuthoringProtocol(settings, accepts), s, c, op, Some(VersionOf(s.stored)), now, next);
  }

  lemma {:induction false} SentCommits(settings: Settings, accepts: Document<Authoring> -> bool, w: World, c: nat,
                                       op: Operation, version: nat, now: int, next: Authoring, steps: seq<Happening>)
    requires Unoccupied(w, c) && version == VersionOf(w.store.stored)
    requires Apply(settings, op, now, BodyOf(w.store.stored, EMPTY)) == Write(next)
    requires var p := AuthoringProtocol(settings, accepts);
      Live(settings, p, w, steps) == World(Next(p, w.store, BeginReplace(c, op, version)), w.tasks)
    ensures var w' := Live(settings, AuthoringProtocol(settings, accepts), w, steps + Written(c, now));
      var document := Document(version + 1, now, next);
      w'.tasks == w.tasks && w'.store.stored == if accepts(document) then Some(document) else w.store.stored
  {
    var p := AuthoringProtocol(settings, accepts);
    assert w.tasks - {c} == w.tasks;
    LiveConcat(settings, p, w, steps, Written(c, now));
    SentIsWritten(settings, p, w, c, op, version, now);
    AloneStores(settings, accepts, w.store, c, op, now, next);
  }

  /** A client that reads, generates or waits for the store. */
  ghost predicate Occupied(w: World, c: nat) {
    c in w.tasks || !(ClientOf(w.store, c).Idle? || ClientOf(w.store, c).Finished?)
  }

  /** An occupied client asks for nothing else: not for a proposal, nor a review, nor a policy. */
  lemma OneAtATime(settings: Settings, p: Rules, w: World, h: Happening)
    requires h.ProposalAsked? || h.ReviewAsked? || h.PolicyAsked?
    requires Occupied(w, h.client)
    ensures Happen(settings, p, w, h) == w
  {
  }

  /**
   A review asked for by anyone but a human, of another version than the current one, or of a proposal
   that is missing, not pending or not passed, does nothing at all.
   */
  lemma ReviewRefused(settings: Settings, p: Rules, w: World, h: Happening)
    requires h.ReviewAsked?
    requires var document := BodyOf(w.store.stored, EMPTY);
      || !h.human || h.expected != VersionOf(w.store.stored)
      || forall k: nat :: HeldAt(document, k, h.proposalId) ==>
           document.proposals[k].status != PendingReview || !document.proposals[k].passed
    ensures Happen(settings, p, w, h) == w
  {
    var document := BodyOf(w.store.stored, EMPTY);
    var found := FindProposal(document.proposals, h.proposalId);
    if found.Some? {
      var k :| 0 <= k < |document.proposals| && document.proposals[k] == found.value;
      assert HeldAt(document, k, h.proposalId);
    }
  }

  /** A policy that is asked for is sent, as a replacement of the version it names. */
  lemma PolicyIsSent(settings: Settings, p: Rules, w: World, h: Happening)
    requires h.PolicyAsked? && !Occupied(w, h.client)
    ensures Happen(settings, p, w, h)
         == w.(store := Next(p, w.store, BeginReplace(h.client, UpdatePolicy(h.enabled, h.actions), h.expected)))
  {
    assert w.tasks - {h.client} == w.tasks;
  }

  // Evaluation

  /** The last of the suggestions for a field. */
  ghost predicate IsLast(changes: seq<Change>, path: string, i: int) {
    && 0 <= i < |changes| && changes[i].fieldPath == path
    && forall j :: i < j < |changes| ==> changes[j].fieldPath != path
  }

  ghost predicate Suggested(changes: seq<Change>, path: string) {
    exists i :: 0 <= i < |changes| && changes[i].fieldPath == path
  }

  lemma SuggestedSplits(changes: seq<Change>, path: string)
    requires changes != []
    ensures var n := |changes| - 1;
      Suggested(changes, path) <==> changes[n].fieldPath == path || Suggested(changes[..n], path)
  {
    var n := |changes| - 1;
    if Suggested(changes, path) {
      var i :| 0 <= i < |changes| && changes[i].fieldPath == path;
      assert i < n ==> changes[..n][i] == changes[i];
    }
    if Suggested(changes[..n], path) {
      var i :| 0 <= i < n && changes[..n][i].fieldPath == path;
      assert changes[i].fieldPath == path;
    }
  }

  /** A field of the candidate has the value suggested for it last, or else the draft's. */
  lemma {:induction false} CandidateLaw(data: map<string, string>, changes: seq<Change>, path: string)
    ensures var candidate := Candidate(data, changes);
      && (path in candidate <==> path in data || Suggested(changes, path))
      && (forall i :: IsLast(changes, path, i) ==> path in candidate && candidate[path] == changes[i].value)
      && (path in data && !Suggested(changes, path) ==> path in candidate && candidate[path] == data[path])
    decreases |changes|
  {
    if changes != [] {
      var n := |changes| - 1;
      var earlier := changes[..n];
      CandidateLaw(data, earlier, path);
      SuggestedSplits(changes, path);
      forall i | IsLast(changes, path, i)
        ensures path in Candidate(data, changes) && Candidate(data, changes)[path] == changes[i].value
      {
        if i < n {
          assert changes[n].fieldPath != path;
          assert IsLast(earlier, path, i);
        }
      }
    }
  }

  lemma ContainsExactly(text: string, term: string)
    ensures Contains(text, term) <==> exists a: string, b: string :: text == a + term + b
  {
    if Contains(text, term) {
      var i :| 0 <= i <= |text| && StandsAt(text, term, i);
      assert text == text[..i] + term + text[i + |term|..];
    }
    if exists a: string, b: string :: text == a + term + b {
      var a: string, b: string :| text == a + term + b;
      assert text[|a|..|a| + |term|] == term;
      assert StandsAt(text, term, |a|);
    }
  }

  /** What each rule asks of its field, where an absent one counts as empty. */
  ghost predicate Meets(settings: Settings, rule: Rule, value: string) {
    match rule
    case MinimumLength(_, _, minimum) => minimum <= |value|
    case MaximumLength(_, _, maximum) => |value| <= maximum
    case RequiredTerm(_, _, term) =>
      exists a: string, b: string :: settings.normalize(value) == a + settings.normalize(term) + b
    case ForbiddenTerm(_, _, term) =>
      forall a: string, b: string :: settings.normalize(value) != a + settings.normalize(term) + b
  }

  lemma HoldsExactly(settings: Settings, rule: Rule, candidate: map<string, string>)
    ensures Holds(settings, rule, candidate)
       <==> Meets(settings, rule, if rule.fieldPath in candidate then candidate[rule.fieldPath] else "")
  {
    var value := if rule.fieldPath in candidate then candidate[rule.fieldPath] else "";
    if rule.RequiredTerm? || rule.ForbiddenTerm? {
      ContainsExactly(settings.normalize(value), settings.normalize(rule.term));
    }
  }

  /**
   A proposal awaits review exactly when the candidate passed the content schema and every rule of its
   action, and then carries all the suggestions; otherwise none, and it can never be reviewed. Each
   check's outcome is on record, in the action's order.
   */
  lemma {:induction false} EvaluatedExactly(settings: Settings, id: string, action: Action, version: nat, draft: Draft,
                                            suggestions: seq<Change>, schemaOk: bool, requestId: string)
    ensures var proposal := Evaluated(settings, id, action, version, draft, suggestions, schemaOk, requestId);
      var candidate, rules := Candidate(draft.data, suggestions), action.evaluationRules;
      var sound := schemaOk && forall r :: 0 <= r < |rules| ==> Holds(settings, rules[r], candidate);
      && proposal.id == id && proposal.action == action && proposal.documentVersion == version
      && proposal.target == draft.target && proposal.requestId == requestId && proposal.reviews == []
      && proposal.passed == sound
      && proposal.status == (if sound then PendingReview else EvaluationFailed)
      && proposal.changes == (if sound then suggestions else [])
      && |proposal.results| == |rules| + 1
      && proposal.results[0] == Result("gridstory:content-schema", schemaOk)
      && forall r :: 0 <= r < |rules| ==>
           proposal.results[r + 1] == Result(rules[r].id, Holds(settings, rules[r], candidate))
  {
    var candidate, rules := Candidate(draft.data, suggestions), action.evaluationRules;
    var results := [Result("gridstory:content-schema", schemaOk)] + RuleResults(settings, rules, candidate);
    assert forall r :: 0 <= r < |rules| ==> results[r + 1] == Result(rules[r].id, Holds(settings, rules[r], candidate));
    assert AllPassed(results) ==> results[0].passed;
  }

  // Proposing

  /** The first of the actions with an id, and with the switch on if that is asked for. */
  ghost predicate IsFirst(actions: seq<Action>, id: string, on: bool, i: int) {
    && 0 <= i < |actions| && actions[i].id == id && (on ==> actions[i].enabled)
    && forall j :: 0 <= j < i ==> actions[j].id != id || (on && !actions[j].enabled)
  }

  lemma {:induction false} FindActionFirst(actions: seq<Action>, id: string)
    ensures FindAction(actions, id).None? <==> forall i :: 0 <= i < |actions| ==> actions[i].id != id
    ensures forall i :: IsFirst(actions, id, false, i) ==> FindAction(actions, id) == Some(actions[i])
    decreases |actions|
  {
    if actions != [] {
      FindActionFirst(actions[1..], id);
      forall i | IsFirst(actions, id, false, i) ensures FindAction(actions, id) == Some(actions[i]) {
        if i > 0 { assert IsFirst(actions[1..], id, false, i - 1); }
      }
      assert forall i :: 0 <= i < |actions| ==> actions[i] == actions[0] || actions[i] in actions[1..];
    }
  }

  lemma {:induction false} FindEnabledFirst(actions: seq<Action>, id: string)
    ensures FindEnabled(actions, id).None? <==>
      forall i :: 0 <= i < |actions| ==> actions[i].id != id || !actions[i].enabled
    ensures forall i :: IsFirst(actions, id, true, i) ==> FindEnabled(actions, id) == Some(actions[i])
    decreases |actions|
  {
    if actions != [] {
      FindEnabledFirst(actions[1..], id);
      forall i | IsFirst(actions, id, true, i) ensures FindEnabled(actions, id) == Some(actions[i]) {
        if i > 0 { assert IsFirst(actions[1..], id, true, i - 1); }
      }
      assert forall i :: 0 <= i < |actions| ==> actions[i] == actions[0] || actions[i] in actions[1..];
    }
  }

  /**
   A proposal is stored, behind the others as far as there is room, exactly while authoring is on, its
   action is the very one in force and enabled, and no retained proposal came from its request.
   */
  lemma ProposeExactly(settings: Settings, op: Operation, now: int, document: Authoring, i: int)
    requires op.Propose? && IsFirst(document.actions, op.proposal.action.id, false, i)
    ensures var verdict := Apply(settings, op, now, document);
      if !document.enabled then verdict == Refuse(Disabled)
      else if document.actions[i] != op.proposal.action || !op.proposal.action.enabled then verdict == Refuse(ActionChanged)
      else if exists m :: 0 <= m < |document.proposals| && document.proposals[m].requestId == op.proposal.requestId
      then verdict == Refuse(Duplicate)
      else
        && verdict.Write? && verdict.body.(proposals := document.proposals) == document
        && verdict.body.proposals == Newest(document.proposals + [op.proposal], settings.maximumProposals)
  {
    FindActionFirst(document.actions, op.proposal.action.id);
  }

  /** Where the action is gone, the proposal is refused. */
  lemma ProposeGone(settings: Settings, op: Operation, now: int, document: Authoring)
    requires op.Propose? && forall i :: 0 <= i < |document.actions| ==> document.actions[i].id != op.proposal.action.id
    ensures Apply(settings, op, now, document) == Refuse(if document.enabled then ActionChanged else Disabled)
  {
    FindActionFirst(document.actions, op.proposal.action.id);
  }

  /** A new policy is in force at once and leaves the proposals alone. */
  lemma PolicyLaw(settings: Settings, op: Operation, now: int, document: Authoring)
    requires op.UpdatePolicy?
    ensures var verdict := Apply(settings, op, now, document);
      verdict.Write? && verdict.body.enabled == op.enabled && verdict.body.actions == op.actions
      && verdict.body.proposals == document.proposals
  {
  }

  // One client's way to a proposal

  ghost predicate MayAsk(document: Authoring, input: Input, i: int) {
    && document.enabled && IsFirst(document.actions, input.actionId, true, i)
    && document.actions[i].promptId == input.promptId
  }

  /** Asking goes on exactly with the first enabled action of that id, where its prompt is the one asked for. */
  lemma AskedExactly(settings: Settings, p: Rules, w: World, c: nat, input: Input)
    requires Unoccupied(w, c)
    ensures var document, w' := BodyOf(w.store.stored, EMPTY), Happen(settings, p, w, ProposalAsked(c, input));
      && (forall i :: MayAsk(document, input, i) ==>
              w' == w.(tasks := w.tasks[c := Targeting(input, document.actions[i], VersionOf(w.store.stored))]))
      && (w' != w ==> exists i :: MayAsk(document, input, i))
  {
    var document := BodyOf(w.store.stored, EMPTY);
    FindEnabledFirst(document.actions, input.actionId);
    if exists i :: 0 <= i < |document.actions| && document.actions[i].id == input.actionId && document.actions[i].enabled {
      var i := FirstOf(document.actions, input.actionId);
    }
  }

  lemma {:induction false} FirstOf(actions: seq<Action>, id: string) returns (i: nat)
    requires exists i :: 0 <= i < |actions| && actions[i].id == id && actions[i].enabled
    ensures IsFirst(actions, id, true, i)
    decreases |actions|
  {
    if actions[0].id == id && actions[0].enabled {
      i := 0;
    } else {
      var k :| 0 <= k < |actions| && actions[k].id == id && actions[k].enabled;
      assert actions[1..][k - 1] == actions[k];
      i := FirstOf(actions[1..], id);
      i := i + 1;
    }
  }

  /** What one client does from reading its entry to sending its proposal. */
  function Way(c: nat, draft: Draft, suggestions: seq<Change>, requestId: string, schemaOk: bool, id: string)
    : seq<Happening>
  {
    [TargetRead(c, draft), Answered(c, true, Some(suggestions), requestId), Validated(c, schemaOk, id)]
  }

  /**
   The whole way, in any world: an entry of the action's type in the revision expected, answered
   completely within the action's contract, is evaluated and its proposal sent to the store.
   */
  lemma {:induction false} WayIsGone(settings: Settings, p: Rules, w: World, c: nat, input: Input, action: Action,
                                     version: nat, draft: Draft, suggestions: seq<Change>, requestId: string,
                                     schemaOk: bool, id: string)
    requires c in w.tasks && w.tasks[c] == Targeting(input, action, version)
    requires draft.target == Target(input.entryId, action.contentType, input.expectedRevisionId)
    requires |suggestions| <= action.maximumChanges
    requires forall i :: 0 <= i < |suggestions| ==> suggestions[i].fieldPath in action.targetFields
    ensures var proposal := Evaluated(settings, id, action, version, draft, suggestions, schemaOk, requestId);
      Live(settings, p, w, Way(c, draft, suggestions, requestId, schemaOk, id))
        == World(Next(p, w.store, BeginMutate(c, Propose(proposal, input, draft))), w.tasks - {c})
  {
    var read, validated := TargetRead(c, draft), Validated(c, schemaOk, id);
    var answered := Answered(c, true, Some(suggestions), requestId);
    var one := w.(tasks := w.tasks[c := Generating(input, action, version, draft)]);
    var two := one.(tasks := one.tasks[c := Validating(input, action, version, draft, suggestions, requestId)]);
    assert Way(c, draft, suggestions, requestId, schemaOk, id) == [read] + ([answered] + ([validated] + []));
    LiveOne(settings, p, w, read, [answered] + ([validated] + []));
    LiveOne(settings, p, one, answered, [validated] + []);
    LiveOne(settings, p, two, validated, []);
    assert two.tasks - {c} == w.tasks - {c};
  }

  /** Anything else ends the attempt without a proposal: a changed entry, an incomplete answer, one beyond the contract. */
  lemma WayIsLeft(settings: Settings, p: Rules, w: World, c: nat, h: Happening)
    requires c in w.tasks
    requires match h
      case TargetRead(d, draft) =>
        && d == c && w.tasks[c].Targeting?
        && (draft.target.contentType != w.tasks[c].action.contentType
            || draft.target.revisionId != w.tasks[c].input.expectedRevisionId)
      case Answered(d, complete, suggestions, _) =>
        && d == c && w.tasks[c].Generating?
        && (!complete || suggestions.None? || |suggestions.value| > w.tasks[c].action.maximumChanges
            || exists i :: 0 <= i < |suggestions.value|
                 && suggestions.value[i].fieldPath !in w.tasks[c].action.targetFields)
      case Abandoned(d) => d == c
      case _ => false
    ensures Happen(settings, p, w, h) == w.(tasks := w.tasks - {c})
  {
  }

  // The text a semantic index is given

  /** The paths of a rule under which there is text, in the rule's order. */
  function Present(paths: seq<string>, data: map<string, string>): seq<string> {
    if paths == [] then []
    else if paths[0] in data then [paths[0]] + Present(paths[1..], data)
    else Present(paths[1..], data)
  }

  ghost predicate InOrder(fields: seq<Field>, present: seq<string>) {
    |fields| <= |present| && forall i :: 0 <= i < |fields| ==> fields[i].path == present[i]
  }

  lemma {:induction false} FirstInOrder(first: Field, fields: seq<Field>, present: seq<string>)
    requires InOrder(fields, present)
    ensures InOrder([first] + fields, [first.path] + present)
    ensures Characters([first] + fields) == |first.value| + Characters(fields)
  {
    CharactersConcat([first], fields);
    assert Characters([first]) == |first.value|;
  }

  /** Every path with text is indexed, in order, until the characters are used up. */
  lemma {:induction false} IndexedInOrder(paths: seq<string>, data: map<string, string>, redact: string -> string,
                                          remaining: nat)
    ensures var fields, present := SemanticFields(paths, data, redact, remaining), Present(paths, data);
      InOrder(fields, present) && (|fields| < |present| ==> Characters(fields) == remaining)
    decreases |paths|
  {
    if paths != [] {
      if paths[0] !in data {
        IndexedInOrder(paths[1..], data, redact, remaining);
      } else if remaining > 0 {
        var first := Field(paths[0], Cut(redact(data[paths[0]]), remaining));
        IndexedInOrder(paths[1..], data, redact, remaining - |first.value|);
        FirstInOrder(first, SemanticFields(paths[1..], data, redact, remaining - |first.value|), Present(paths[1..], data));
      }
    }
  }
}
