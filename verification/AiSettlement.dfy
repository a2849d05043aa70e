/**
 When the schema check on save lets a settlement through: the exact condition for one document, for
 the store after any run, and for the execution that waits for it.
 */
module AiSettlement {
  import opened Wrappers
  import opened VersionedStore
  import opened AiGateway
  import opened AiLedger
  import opened AiExecution

  /** The check of counters that a stored document has to pass. */
  predicate Countable(g: Gateway) {
    forall record :: record in g.dailyUsage ==> NOTHING.Within(record.usage)
  }

  /** A schema check that refuses a gateway document for nothing but its counters. */
  ghost predicate ChecksCounters(accepts: Document<Gateway> -> bool) {
    forall document: Document<Gateway> :: accepts(document) <==> Countable(document.body)
  }

  /** What a settlement gives back is no more than its day has on record. */
  ghost predicate Covers(g: Gateway, op: Operation)
    requires op.Succeed?
  {
    var receipt := FindReceipt(g.receipts, op.request.requestId);
    receipt.Some? &&
      receipt.value.reservedUsage.Minus(op.actual).Within(UsageOn(g.dailyUsage, receipt.value.usageDay))
  }

  /** A settlement keeps every counter from falling below zero exactly when its day covers it. */
  lemma SettlementCountableExactly(limits: Limits, g: Gateway, op: Operation, now: int, next: Gateway)
    requires Countable(g) && op.Succeed? && Apply(limits, op, now, g) == Write(next)
    ensures Countable(next) <==> Covers(g, op)
  {
    var receipt := FindReceipt(g.receipts, op.request.requestId).value;
    var day := receipt.usageDay;
    var current := FindDay(g.dailyUsage, day).value;
    var settled := DailyUsage(day, current.usage.Minus(receipt.reservedUsage.Minus(op.actual)));
    SettledRecords(g.dailyUsage, current, settled);
    assert next.dailyUsage == ReplaceDay(g.dailyUsage, settled);
    assert NOTHING.Within(settled.usage) <==> receipt.reservedUsage.Minus(op.actual).Within(current.usage);
  }

  lemma SettledRecords(days: seq<DailyUsage>, current: DailyUsage, settled: DailyUsage)
    requires current in days && current.day == settled.day
    ensures settled in ReplaceDay(days, settled)
    ensures forall record :: record in ReplaceDay(days, settled) ==> record == settled || record in days
  {
    var next := ReplaceDay(days, settled);
    var i :| 0 <= i < |days| && days[i] == current;
    assert next[i] == settled;
    forall record | record in next ensures record == settled || record in days {
      var j :| 0 <= j < |next| && next[j] == record;
    }
  }

  /** Settling a reservation of a day that was never started afresh takes no counter below zero. */
  lemma {:induction false} SettlementStaysCountable(limits: Limits, accepts: Document<Gateway> -> bool, log: Log,
                                                    op: Operation, now: int, next: Gateway)
    requires Positive(limits) && Linear(GatewayProtocol(limits, accepts), log)
    requires var g := BodyOf(Latest(log), EMPTY);
      && Countable(g) && op.Succeed? && Apply(limits, op, now, g) == Write(next)
      && FindReceipt(g.receipts, op.request.requestId).value.usageDay !in Recreated(log)
    ensures Countable(next)
  {
    var g := BodyOf(Latest(log), EMPTY);
    LogSound(limits, accepts, log);
    StepSound(limits, op, now, g, next, Ledger(log), Recreated(log));
    forall record | record in next.dailyUsage ensures NOTHING.Within(record.usage) {
      var i :| 0 <= i < |next.dailyUsage| && next.dailyUsage[i] == record;
      TotalNonNegative(Record(Ledger(log), op), record.day);
      assert g.dailyUsage[i] in g.dailyUsage;
    }
  }

  lemma StoredIsCountable(limits: Limits, accepts: Document<Gateway> -> bool, s: Store)
    requires ChecksCounters(accepts) && Invariant(GatewayProtocol(limits, accepts), s)
    ensures Countable(BodyOf(s.stored, EMPTY))
  {
    if s.log != [] { assert LinearAt(GatewayProtocol(limits, accepts), s.log, |s.log| - 1); }
  }

  /** An undisturbed settlement from any reachable store. */
  lemma {:induction false} RefusedExactly(limits: Limits, accepts: Document<Gateway> -> bool, s: Store, c: nat,
                                          op: Operation, now: int, next: Gateway)
    requires Positive(limits) && ChecksCounters(accepts) && op.Succeed?
    requires Invariant(GatewayProtocol(limits, accepts), s) && Free(ClientOf(s, c))
    requires Apply(limits, op, now, BodyOf(s.stored, EMPTY)) == Write(next)
    ensures var g := BodyOf(s.stored, EMPTY);
      var later := Run(GatewayProtocol(limits, accepts), s, Alone(c, op, None, now));
      && ClientOf(later, c) == Finished(op, if Covers(g, op) then Committed(|s.log|) else Rejected)
      && BodyOf(later.stored, EMPTY) == (if Covers(g, op) then next else g)
      && (!Covers(g, op) ==> FindReceipt(g.receipts, op.request.requestId).value.usageDay in Recreated(s.log))
  {
    var g := BodyOf(s.stored, EMPTY);
    StoredIsCountable(limits, accepts, s);
    SettlementCountableExactly(limits, g, op, now, next);
    AloneCommits(GatewayProtocol(limits, accepts), s, c, op, None, now, next);
    assert accepts(Document(VersionOf(s.stored) + 1, now, next)) <==> Countable(next);
    if !Covers(g, op) && FindReceipt(g.receipts, op.request.requestId).value.usageDay !in Recreated(s.log) {
      SettlementStaysCountable(limits, accepts, s.log, op, now, next);
    }
  }

  /**
   After every run, a settlement that its change function lets through and nobody interrupts is
   refused by the check of counters if and only if its day does not cover it; this can only be a day
   that was started afresh.
   */
  lemma {:induction false} SettlementRefusedExactly(limits: Limits, accepts: Document<Gateway> -> bool,
                                                    events: seq<Event<Operation>>, c: nat, op: Operation, now: int,
                                                    next: Gateway)
    requires Positive(limits) && ChecksCounters(accepts) && op.Succeed?
    requires var s := Run(GatewayProtocol(limits, accepts), Initial(), events);
      Free(ClientOf(s, c)) && Apply(limits, op, now, BodyOf(s.stored, EMPTY)) == Write(next)
    ensures var p := GatewayProtocol(limits, accepts);
      var s := Run(p, Initial(), events);
      var g, later := BodyOf(s.stored, EMPTY), Run(p, s, Alone(c, op, None, now));
      && ClientOf(later, c) == Finished(op, if Covers(g, op) then Committed(|s.log|) else Rejected)
      && BodyOf(later.stored, EMPTY) == (if Covers(g, op) then next else g)
      && (!Covers(g, op) ==> FindReceipt(g.receipts, op.request.requestId).value.usageDay in Recreated(s.log))
  {
    var p := GatewayProtocol(limits, accepts);
    RunsLinearize(p, Initial(), events);
    RefusedExactly(limits, accepts, Run(p, Initial(), events), c, op, now, next);
  }

  // What becomes of the execution

  type Gate = Protocol<Operation, Gateway, Error>

  /** The store calls of one mutation that nobody interrupts, and the execution going on after them. */
  function Undisturbed(c: nat, now: int): seq<Happening> {
    [StoreStep(Snapshot(c)), StoreStep(Load(c, now)), StoreStep(Save(c)), Continued(c)]
  }

  lemma {:induction false} LiveOne(p: Gate, w: World, h: Happening, more: seq<Happening>)
    ensures Live(p, w, [h] + more) == Live(p, Happen(p, w, h), more)
  {
    assert ([h] + more)[1..] == more;
  }

  lemma {:induction false} UndisturbedStore(p: Gate, w: World, c: nat, now: int)
    ensures var s := Next(p, Next(p, Next(p, w.store, Snapshot(c)), Load(c, now)), Save(c));
      Live(p, w, Undisturbed(c, now)) == Happen(p, w.(store := s), Continued(c))
  {
    var one := w.(store := Next(p, w.store, Snapshot(c)));
    var two := one.(store := Next(p, one.store, Load(c, now)));
    var three := two.(store := Next(p, two.store, Save(c)));
    assert Undisturbed(c, now)
        == [StoreStep(Snapshot(c))] + ([StoreStep(Load(c, now))] + ([StoreStep(Save(c))] + ([Continued(c)] + [])));
    LiveOne(p, w, StoreStep(Snapshot(c)), [StoreStep(Load(c, now))] + ([StoreStep(Save(c))] + ([Continued(c)] + [])));
    LiveOne(p, one, StoreStep(Load(c, now)), [StoreStep(Save(c))] + ([Continued(c)] + []));
    LiveOne(p, two, StoreStep(Save(c)), [Continued(c)] + []);
    LiveOne(p, three, Continued(c), []);
  }

  lemma {:induction false} AloneUnrolled(p: Gate, s: Store, c: nat, op: Operation, now: int)
    ensures Run(p, s, Alone(c, op, None, now))
         == Next(p, Next(p, Next(p, Next(p, s, BeginMutate(c, op)), Snapshot(c)), Load(c, now)), Save(c))
  {
    var begun := Next(p, s, BeginMutate(c, op));
    var read := Next(p, begun, Snapshot(c));
    var sent := Next(p, read, Load(c, now));
    RunFirst(p, s, BeginMutate(c, op), [Snapshot(c), Load(c, now), Save(c)]);
    RunFirst(p, begun, Snapshot(c), [Load(c, now), Save(c)]);
    RunFirst(p, read, Load(c, now), [Save(c)]);
    RunFirst(p, sent, Save(c), []);
    var last: seq<Event<Operation>> := [Save(c)];
    var rest: seq<Event<Operation>> := [Load(c, now)] + last;
    var tail: seq<Event<Operation>> := [Snapshot(c)] + rest;
    assert last == last + [] && rest == [Load(c, now), Save(c)] && tail == [Snapshot(c), Load(c, now), Save(c)];
    assert Alone(c, op, None, now) == [BeginMutate(c, op)] + tail;
  }

  lemma {:induction false} RunFirst(p: Gate, s: Store, event: Event<Operation>, more: seq<Event<Operation>>)
    ensures Run(p, s, [event] + more) == Run(p, Next(p, s, event), more)
  {
    assert ([event] + more)[1..] == more;
  }

  /** A store operation begun and left undisturbed runs like `Alone`, and then the execution goes on. */
  lemma {:induction false} BegunAlone(p: Gate, w: World, c: nat, e: Execution, op: Operation, now: int)
    ensures Live(p, Begin(p, w, c, e, op), Undisturbed(c, now))
         == Happen(p, World(Run(p, w.store, Alone(c, op, None, now)), w.executions[c := e]), Continued(c))
  {
    AloneUnrolled(p, w.store, c, op, now);
    UndisturbedStore(p, Begin(p, w, c, e, op), c, now);
  }

  ghost predicate Ends(w: World, c: nat, e: Execution, g: Gateway) {
    c in w.executions && w.executions[c] == e && BodyOf(w.store.stored, EMPTY) == g
  }

  lemma ContinueSettled(p: Gate, w: World, c: nat, at: nat)
    requires c in w.executions && w.executions[c].Settling?
    requires ClientOf(w.store, c).Finished? && ClientOf(w.store, c).outcome == Committed(at)
    ensures var e := w.executions[c];
      Ends(Happen(p, w, Continued(c)), c, Returned(e.plan, e.reservation, e.reservedAt, e.actual, at),
           BodyOf(w.store.stored, EMPTY))
  {
  }

  lemma ContinueRefused(p: Gate, w: World, c: nat)
    requires c in w.executions && w.executions[c].Settling?
    requires ClientOf(w.store, c).Finished? && ClientOf(w.store, c).outcome == Rejected
    ensures Happen(p, w, Continued(c))
         == Begin(p, w, c, Failing(HeldBy(w.executions[c]), ProviderFailed),
                  Fail(w.executions[c].plan.request.requestId))
  {
  }

  /** The error thrown once the request of a reservation has been marked failed. */
  function Reported(held: Held, error: Error, at: nat): Execution {
    Thrown(error, Some(Failure(held, Committed(at))))
  }

  lemma ContinueFailed(p: Gate, w: World, c: nat, held: Held, error: Error, at: nat)
    requires c in w.executions && w.executions[c] == Failing(held, error)
    requires ClientOf(w.store, c).Finished? && ClientOf(w.store, c).outcome == Committed(at)
    ensures Ends(Happen(p, w, Continued(c)), c, Reported(held, error, at), BodyOf(w.store.stored, EMPTY))
  {
  }

  /** The gateway with the retained, still reserved request marked failed. */
  function WithFailed(g: Gateway, requestId: string, now: int): Gateway {
    g.(receipts := FailReceipts(g.receipts, requestId, now))
  }

  /** Failing a request that nobody interrupts marks its receipt failed and throws the error. */
  lemma FailingIsThrown(limits: Limits, accepts: Document<Gateway> -> bool, w: World, c: nat, held: Held,
                        error: Error, now: int)
    requires ChecksCounters(accepts) && Invariant(GatewayProtocol(limits, accepts), w.store)
    requires Free(ClientOf(w.store, c))
    ensures var p := GatewayProtocol(limits, accepts);
      Ends(Live(p, Begin(p, w, c, Failing(held, error), Fail(held.plan.request.requestId)), Undisturbed(c, now)), c,
           Reported(held, error, |w.store.log|),
           WithFailed(BodyOf(w.store.stored, EMPTY), held.plan.request.requestId, now))
  {
    var p := GatewayProtocol(limits, accepts);
    var requestId := held.plan.request.requestId;
    var g := BodyOf(w.store.stored, EMPTY);
    var next := WithFailed(g, requestId, now);
    StoredIsCountable(limits, accepts, w.store);
    assert accepts(Document(VersionOf(w.store.stored) + 1, now, next)) <==> Countable(next);
    AloneCommits(p, w.store, c, Fail(requestId), None, now, next);
    BegunAlone(p, w, c, Failing(held, error), Fail(requestId), now);
    var s := Run(p, w.store, Alone(c, Fail(requestId), None, now));
    ContinueFailed(p, World(s, w.executions[c := Failing(held, error)]), c, held, error, |w.store.log|);
  }

  function Settle(e: Execution, actual: Charge): Operation
    requires e.Generating?
  {
    Succeed(e.plan.request, e.plan.prompt.version, actual)
  }

  /** The answer of the provider, and its settlement with nobody interrupting. */
  function AfterAnswer(p: Gate, w: World, c: nat, actual: Charge, now: int): World {
    Live(p, w, [Answered(c, Generated(actual.inputTokens, actual.outputTokens, actual.costMicros))] + Undisturbed(c, now))
  }

  lemma {:induction false} AnswerSettles(p: Gate, w: World, c: nat, e: Execution, actual: Charge, now: int)
    requires c in w.executions && w.executions[c] == e && e.Generating? && actual.requests == 1
    ensures AfterAnswer(p, w, c, actual, now)
         == Happen(p, World(Run(p, w.store, Alone(c, Settle(e, actual), None, now)),
                            w.executions[c := Settling(e.plan, e.reservation, e.reservedAt, actual)]), Continued(c))
  {
    var answer := Generated(actual.inputTokens, actual.outputTokens, actual.costMicros);
    LiveOne(p, w, Answered(c, answer), Undisturbed(c, now));
    assert Usage(1, answer.inputTokens, answer.outputTokens, answer.costMicros) == actual;
    BegunAlone(p, w, c, Settling(e.plan, e.reservation, e.reservedAt, actual), Settle(e, actual), now);
  }

  lemma AnswerReturns(limits: Limits, accepts: Document<Gateway> -> bool, w: World, c: nat, e: Execution,
                      actual: Charge, now: int, next: Gateway)
    requires Positive(limits) && ChecksCounters(accepts) && WorldOk(GatewayProtocol(limits, accepts), w)
    requires c in w.executions && w.executions[c] == e && e.Generating? && actual.requests == 1
    requires Apply(limits, Settle(e, actual), now, BodyOf(w.store.stored, EMPTY)) == Write(next)
    requires Covers(BodyOf(w.store.stored, EMPTY), Settle(e, actual))
    ensures Ends(AfterAnswer(GatewayProtocol(limits, accepts), w, c, actual, now), c,
                 Returned(e.plan, e.reservation, e.reservedAt, actual, |w.store.log|), next)
  {
    var p := GatewayProtocol(limits, accepts);
    assert ExecutionOk(w.store, c, e);
    AnswerSettles(p, w, c, e, actual, now);
    RefusedExactly(limits, accepts, w.store, c, Settle(e, actual), now, next);
    var s := Run(p, w.store, Alone(c, Settle(e, actual), None, now));
    ContinueSettled(p, World(s, w.executions[c := Settling(e.plan, e.reservation, e.reservedAt, actual)]), c, |w.store.log|);
  }

  /** A settlement refused by the check of counters leaves the store alone, and the failing of the request begins. */
  lemma AnswerRefused(limits: Limits, accepts: Document<Gateway> -> bool, w: World, c: nat, e: Execution,
                      actual: Charge, now: int, next: Gateway) returns (refused: World)
    requires Positive(limits) && ChecksCounters(accepts) && WorldOk(GatewayProtocol(limits, accepts), w)
    requires c in w.executions && w.executions[c] == e && e.Generating? && actual.requests == 1
    requires Apply(limits, Settle(e, actual), now, BodyOf(w.store.stored, EMPTY)) == Write(next)
    requires !Covers(BodyOf(w.store.stored, EMPTY), Settle(e, actual))
    ensures var p := GatewayProtocol(limits, accepts);
      && Invariant(p, refused.store) && Free(ClientOf(refused.store, c))
      && refused.store.stored == w.store.stored && refused.store.log == w.store.log
      && AfterAnswer(p, w, c, actual, now)
           == Begin(p, refused, c, Failing(HeldBy(e), ProviderFailed), Fail(e.plan.request.requestId))
  {
    var p := GatewayProtocol(limits, accepts);
    assert ExecutionOk(w.store, c, e);
    AnswerSettles(p, w, c, e, actual, now);
    RefusedExactly(limits, accepts, w.store, c, Settle(e, actual), now, next);
    SettlementRejected(limits, accepts, w.store, c, Settle(e, actual), now, next);
    var s := Run(p, w.store, Alone(c, Settle(e, actual), None, now));
    refused := World(s, w.executions[c := Settling(e.plan, e.reservation, e.reservedAt, actual)]);
    ContinueRefused(p, refused, c);
    RunsLinearize(p, w.store, Alone(c, Settle(e, actual), None, now));
  }

  lemma {:induction false} SettlementRejected(limits: Limits, accepts: Document<Gateway> -> bool, s: Store, c: nat,
                                              op: Operation, now: int, next: Gateway)
    requires ChecksCounters(accepts) && op.Succeed?
    requires Invariant(GatewayProtocol(limits, accepts), s) && Free(ClientOf(s, c))
    requires Apply(limits, op, now, BodyOf(s.stored, EMPTY)) == Write(next)
    requires !Covers(BodyOf(s.stored, EMPTY), op)
    ensures var later := Run(GatewayProtocol(limits, accepts), s, Alone(c, op, None, now));
      later.stored == s.stored && later.log == s.log
  {
    StoredIsCountable(limits, accepts, s);
    SettlementCountableExactly(limits, BodyOf(s.stored, EMPTY), op, now, next);
    AloneCommits(GatewayProtocol(limits, accepts), s, c, op, None, now, next);
    assert accepts(Document(VersionOf(s.stored) + 1, now, next)) <==> Countable(next);
  }

  lemma AnswerFails(limits: Limits, accepts: Document<Gateway> -> bool, w: World, c: nat, e: Execution,
                    actual: Charge, now: int, next: Gateway)
    requires Positive(limits) && ChecksCounters(accepts) && WorldOk(GatewayProtocol(limits, accepts), w)
    requires c in w.executions && w.executions[c] == e && e.Generating? && actual.requests == 1
    requires Apply(limits, Settle(e, actual), now, BodyOf(w.store.stored, EMPTY)) == Write(next)
    requires !Covers(BodyOf(w.store.stored, EMPTY), Settle(e, actual))
    ensures var p := GatewayProtocol(limits, accepts);
      Ends(Live(p, AfterAnswer(p, w, c, actual, now), Undisturbed(c, now)), c,
           Reported(HeldBy(e), ProviderFailed, |w.store.log|),
           WithFailed(BodyOf(w.store.stored, EMPTY), e.plan.request.requestId, now))
  {
    var refused := AnswerRefused(limits, accepts, w, c, e, actual, now, next);
    FailingIsThrown(limits, accepts, refused, c, HeldBy(e), ProviderFailed, now);
  }

  /**
   An answered generation whose settlement its change function lets through and nobody interrupts:
   the output is returned if and only if the day covers the settlement; otherwise the request is
   reported as failed, its receipt marked so and its reservation kept in full.
   */
  lemma {:induction false} AnsweredReturnsExactly(limits: Limits, accepts: Document<Gateway> -> bool,
                                                  history: seq<Happening>, c: nat, e: Execution, actual: Charge,
                                                  now: int, next: Gateway)
    requires Positive(limits) && ChecksCounters(accepts) && e.Generating? && actual.requests == 1
    requires var w := Live(GatewayProtocol(limits, accepts), World(Initial(), map[]), history);
      && c in w.executions && w.executions[c] == e
      && Apply(limits, Settle(e, actual), now, BodyOf(w.store.stored, EMPTY)) == Write(next)
    ensures var p := GatewayProtocol(limits, accepts);
      var w := Live(p, World(Initial(), map[]), history);
      var g, settled := BodyOf(w.store.stored, EMPTY), AfterAnswer(p, w, c, actual, now);
      if Covers(g, Settle(e, actual)) then
        Ends(settled, c, Returned(e.plan, e.reservation, e.reservedAt, actual, |w.store.log|), next)
      else
        Ends(Live(p, settled, Undisturbed(c, now)), c, Reported(HeldBy(e), ProviderFailed, |w.store.log|),
             WithFailed(g, e.plan.request.requestId, now))
  {
    var p := GatewayProtocol(limits, accepts);
    var w := Live(p, World(Initial(), map[]), history);
    LiveKeeps(p, World(Initial(), map[]), history);
    if Covers(BodyOf(w.store.stored, EMPTY), Settle(e, actual)) {
      AnswerReturns(limits, accepts, w, c, e, actual, now, next);
    } else {
      AnswerFails(limits, accepts, w, c, e, actual, now, next);
    }
  }

  /** The way out of a refused settlement: failing the request, then an error. */
  ghost predicate OnWayOut(w: World, c: nat) {
    var client := ClientOf(w.store, c);
    && c in w.executions
    && match w.executions[c]
       case Settling(_, _, _, _) => client.Finished? && client.outcome == Rejected
       case Failing(_, error) =>
         error == ProviderFailed && !client.Idle? && client.op.Fail? && (client.Finished? ==> !client.outcome.Refused?)
       case Thrown(error, _) => error in {ProviderFailed, WriteConflict, SchemaRejected}
       case _ => false
  }

  lemma WayOutStore(limits: Limits, accepts: Document<Gateway> -> bool, w: World, event: Event<Operation>, c: nat)
    requires OnWayOut(w, c)
    requires event.client == c && (event.BeginMutate? || event.BeginReplace?) ==> !Busy(w, c)
    ensures OnWayOut(w.(store := Next(GatewayProtocol(limits, accepts), w.store, event)), c)
  {
  }

  lemma WayOutGoesOn(limits: Limits, accepts: Document<Gateway> -> bool, w: World, c: nat)
    requires OnWayOut(w, c)
    ensures OnWayOut(Happen(GatewayProtocol(limits, accepts), w, Continued(c)), c)
  {
  }

  lemma WayOutStep(limits: Limits, accepts: Document<Gateway> -> bool, w: World, h: Happening, c: nat)
    requires OnWayOut(w, c) && !(h.Started? && h.client == c)
    ensures OnWayOut(Happen(GatewayProtocol(limits, accepts), w, h), c)
  {
    if h.StoreStep? && Happen(GatewayProtocol(limits, accepts), w, h) != w {
      WayOutStore(limits, accepts, w, h.event, c);
    } else if h.Continued? && h.client == c {
      WayOutGoesOn(limits, accepts, w, c);
    }
  }

  /**
   Under any interference: after a refused settlement an execution never returns its output; it ends
   as failed, or, if failing its receipt lost every attempt to others or was refused on save, with that.
   */
  lemma {:induction false} RefusedNeverReturns(limits: Limits, accepts: Document<Gateway> -> bool, w: World,
                                               history: seq<Happening>, c: nat)
    requires OnWayOut(w, c)
    requires forall i :: 0 <= i < |history| ==> !(history[i].Started? && history[i].client == c)
    ensures OnWayOut(Live(GatewayProtocol(limits, accepts), w, history), c)
    decreases |history|
  {
    if history != [] {
      WayOutStep(limits, accepts, w, history[0], c);
      RefusedNeverReturns(limits, accepts, Happen(GatewayProtocol(limits, accepts), w, history[0]), history[1..], c);
    }
  }
}
