/**
 Days whose usage record was dropped and then used again: the exact condition under which a
 recorded day counts all its reservations, and runs in which it does not.
 */
module AiRecreation {
  import opened Wrappers
  import opened VersionedStore
  import opened AiGateway
  import opened AiLedger
  import opened AiSettlement

  /** What `execute` sends: a reservation and a settlement are each for one request. */
  predicate OneRequest(op: Operation) {
    && (op.Reserve? ==> op.reservation.requests == 1)
    && (op.Succeed? ==> op.actual.requests == 1)
  }

  ghost predicate Single(entries: seq<Entry>) {
    forall i :: 0 <= i < |entries| ==> entries[i].reserved.requests == 1 && ChargeOf(entries[i]).requests == 1
  }

  /** A recorded day has counted at most the requests of the ledger, and fewer once recreated. */
  ghost predicate Falls(record: DailyUsage, entries: seq<Entry>, recreated: set<int>) {
    var total := DayTotal(entries, record.day).requests;
    record.usage.requests <= total && (record.day in recreated ==> record.usage.requests < total)
  }

  ghost predicate Short(days: seq<DailyUsage>, entries: seq<Entry>, recreated: set<int>) {
    && Single(entries)
    && (forall day :: day in recreated ==> HasDay(entries, day))
    && (forall record :: record in days ==> Falls(record, entries, recreated))
  }

  lemma {:induction false} TotalRequests(entries: seq<Entry>, day: int)
    requires Single(entries)
    ensures DayTotal(entries, day).requests >= if HasDay(entries, day) then 1 else 0
  {
    if entries != [] {
      var n := |entries| - 1;
      TotalRequests(entries[..n], day);
      if HasDay(entries, day) && entries[n].day != day {
        var i :| 0 <= i < |entries| && entries[i].day == day;
        assert entries[..n][i].day == day;
      }
    }
  }

  lemma DaysStillHeld(entries: seq<Entry>, later: seq<Entry>, recreated: set<int>)
    requires |entries| <= |later| && forall i :: 0 <= i < |entries| ==> later[i].day == entries[i].day
    requires forall day :: day in recreated ==> HasDay(entries, day)
    ensures forall day :: day in recreated ==> HasDay(later, day)
  {
    forall day | day in recreated ensures HasDay(later, day) {
      var i :| 0 <= i < |entries| && entries[i].day == day;
      assert later[i].day == day;
    }
  }

  lemma {:induction false} ReservedFalls(days: seq<DailyUsage>, entry: Entry, entries: seq<Entry>, recreated: set<int>,
                                         recreated': set<int>)
    requires Short(days, entries, recreated) && Single([entry])
    requires recreated' == if FindDay(days, entry.day).None? && HasDay(entries, entry.day)
                           then recreated + {entry.day} else recreated
    ensures Falls(DailyUsage(entry.day, UsageOn(days, entry.day).Plus(ChargeOf(entry))), entries + [entry], recreated')
  {
    var found := FindDay(days, entry.day);
    assert (entries + [entry])[..|entries|] == entries;
    assert [entry][0] == entry;
    TotalRequests(entries, entry.day);
    if found.Some? { assert Falls(found.value, entries, recreated); }
  }

  lemma {:induction false} ReserveShort(days: seq<DailyUsage>, entry: Entry, entries: seq<Entry>, recreated: set<int>,
                                        recreated': set<int>, next: seq<DailyUsage>)
    requires Short(days, entries, recreated) && Single([entry])
    requires recreated' == if FindDay(days, entry.day).None? && HasDay(entries, entry.day)
                           then recreated + {entry.day} else recreated
    requires var added := DailyUsage(entry.day, UsageOn(days, entry.day).Plus(ChargeOf(entry)));
      forall record :: record in next ==> record == added || (record in days && record.day != entry.day)
    ensures Short(next, entries + [entry], recreated')
  {
    ReservedFalls(days, entry, entries, recreated, recreated');
    assert [entry][0] == entry;
    assert (entries + [entry])[..|entries|] == entries;
    DaysStillHeld(entries, entries + [entry], recreated);
    assert (entries + [entry])[|entries|] == entry;
    forall record | record in next && record.day != entry.day ensures Falls(record, entries + [entry], recreated') {
      assert Falls(record, entries, recreated);
    }
  }

  lemma {:induction false} SucceedShort(days: seq<DailyUsage>, entries: seq<Entry>, j: nat, actual: Charge,
                                        recreated: set<int>)
    requires Short(days, entries, recreated) && UniqueDays(days) && actual.requests == 1
    requires j < |entries| && entries[j].settled.None?
    requires FindDay(days, entries[j].day).Some?
    ensures var next := FindDay(days, entries[j].day).value.usage.Minus(entries[j].reserved.Minus(actual));
      Short(ReplaceDay(days, DailyUsage(entries[j].day, next)),
            entries[j := entries[j].(settled := Some(actual))], recreated)
  {
    var settled := entries[j].(settled := Some(actual));
    var entries' := entries[j := settled];
    var next := FindDay(days, entries[j].day).value.usage.Minus(entries[j].reserved.Minus(actual));
    var replaced := ReplaceDay(days, DailyUsage(entries[j].day, next));
    DaysStillHeld(entries, entries', recreated);
    forall record | record in replaced ensures Falls(record, entries', recreated) {
      var i :| 0 <= i < |replaced| && replaced[i] == record;
      assert Falls(days[i], entries, recreated);
      RecordOfDay(days, i);
      TotalAfterSettling(entries, j, settled, record.day);
    }
  }

  lemma StepShort(limits: Limits, op: Operation, now: int, g: Gateway, next: Gateway,
                  entries: seq<Entry>, recreated: set<int>)
    requires OneRequest(op) && Sound(g, entries, recreated) && Short(g.dailyUsage, entries, recreated)
    requires Apply(limits, op, now, g) == Write(next)
    ensures Short(next.dailyUsage, Record(entries, op), RecreatedBy(g, entries, op, recreated))
  {
    if op.Reserve? {
      var entry := Entry(op.request.requestId, op.day, op.reservation, None);
      ReserveShort(g.dailyUsage, entry, entries, recreated, RecreatedBy(g, entries, op, recreated), next.dailyUsage);
    } else if op.Succeed? {
      var k, j := EntryOfReceipt(g.receipts, entries, op.request.requestId);
      SettlesAt(entries, op.request.requestId, op.actual, j);
      SucceedShort(g.dailyUsage, entries, j, op.actual, recreated);
    } else {
      assert next.dailyUsage == g.dailyUsage;
    }
  }

  lemma {:induction false} LogShort(limits: Limits, accepts: Document<Gateway> -> bool, log: Log)
    requires Positive(limits) && Linear(GatewayProtocol(limits, accepts), log)
    requires forall i :: 0 <= i < |log| ==> OneRequest(log[i].op)
    ensures Short(BodyOf(Latest(log), EMPTY).dailyUsage, Ledger(log), Recreated(log))
  {
    if log != [] {
      var p := GatewayProtocol(limits, accepts);
      var n := |log| - 1;
      LinearPrefix(p, log, n);
      LogShort(limits, accepts, log[..n]);
      LogSound(limits, accepts, log[..n]);
      assert LinearAt(p, log, n);
      StepShort(limits, log[n].op, log[n].now, BodyOf(log[n].before, EMPTY), log[n].after.body,
                Ledger(log[..n]), Recreated(log[..n]));
    }
  }

  /**
   The exact condition, in every run: a recorded day's usage is the sum over all reservations ever
   committed for it if and only if its record was never dropped and started afresh.
   */
  lemma {:induction false} RecordIsTotalExactly(limits: Limits, accepts: Document<Gateway> -> bool,
                                                events: seq<Event<Operation>>, record: DailyUsage)
    requires Positive(limits)
    ensures var s := Run(GatewayProtocol(limits, accepts), Initial(), events);
      && (forall i :: 0 <= i < |s.log| ==> OneRequest(s.log[i].op))
      && record in BodyOf(s.stored, EMPTY).dailyUsage
      ==>
      (record.usage == DayTotal(Ledger(s.log), record.day) <==> record.day !in Recreated(s.log))
  {
    var s := Run(GatewayProtocol(limits, accepts), Initial(), events);
    RunsLinearize(GatewayProtocol(limits, accepts), Initial(), events);
    if record in BodyOf(s.stored, EMPTY).dailyUsage && forall i :: 0 <= i < |s.log| ==> OneRequest(s.log[i].op) {
      LogSound(limits, accepts, s.log);
      LogShort(limits, accepts, s.log);
      assert Falls(record, Ledger(s.log), Recreated(s.log));
    }
  }

  // Runs in which a recorded day falls short

  predicate Retries(op: Operation) {
    op.Reserve? || op.Fail? || op.Succeed?
  }

  /** One caller makes the changes one after the other, at time 0, from the empty store on. */
  function Script(ops: seq<Operation>): seq<Event<Operation>> {
    if ops == [] then []
    else
      var n := |ops| - 1;
      Script(ops[..n]) + Alone(0, ops[n], if Retries(ops[n]) then None else Some(n), 0)
  }

  type State = System<Operation, Gateway, Error>

  ghost predicate Shows(s: State, version: nat, g: Gateway, entries: seq<Entry>, recreated: set<int>) {
    && VersionOf(s.stored) == version && BodyOf(s.stored, EMPTY) == g
    && Ledger(s.log) == entries && Recreated(s.log) == recreated
    && Free(ClientOf(s, 0))
  }

  /** One more change: what the store shows after it, or that the schema refused it. */
  lemma {:induction false} ScriptStep(limits: Limits, accepts: Document<Gateway> -> bool, ops: seq<Operation>,
                                      op: Operation, g: Gateway, next: Gateway, entries: seq<Entry>,
                                      recreated: set<int>)
    requires Shows(Run(GatewayProtocol(limits, accepts), Initial(), Script(ops)), |ops|, g, entries, recreated)
    requires Apply(limits, op, 0, g) == Write(next)
    ensures var p := GatewayProtocol(limits, accepts);
      var s, later := Run(p, Initial(), Script(ops)), Run(p, Initial(), Script(ops + [op]));
      if accepts(Document(|ops| + 1, 0, next)) then
        && Shows(later, |ops| + 1, next, Record(entries, op), RecreatedBy(g, entries, op, recreated))
        && ClientOf(later, 0) == Finished(op, Committed(|s.log|))
      else later.stored == s.stored && ClientOf(later, 0) == Finished(op, Rejected)
  {
    var p := GatewayProtocol(limits, accepts);
    var s := Run(p, Initial(), Script(ops));
    ScriptAlone(p, ops, op);
    AloneCommits(p, s, 0, op, if Retries(op) then None else Some(|ops|), 0, next);
    LedgerAppend(s.log, Commit(0, op, 0, s.stored, Document(|ops| + 1, 0, next)));
  }

  lemma {:induction false} LedgerAppend(log: Log, commit: Commit<Operation, Gateway>)
    ensures Ledger(log + [commit]) == Record(Ledger(log), commit.op)
    ensures Recreated(log + [commit]) == RecreatedBy(BodyOf(commit.before, EMPTY), Ledger(log), commit.op, Recreated(log))
  {
    assert (log + [commit])[..|log|] == log;
  }

  lemma {:induction false} ScriptAlone(p: Protocol<Operation, Gateway, Error>, ops: seq<Operation>, op: Operation)
    ensures Run(p, Initial(), Script(ops + [op]))
         == Run(p, Run(p, Initial(), Script(ops)), Alone(0, op, if Retries(op) then None else Some(|ops|), 0))
  {
    assert (ops + [op])[..|ops|] == ops && (ops + [op])[|ops|] == op;
    RunConcat(p, Initial(), Script(ops), Alone(0, op, if Retries(op) then None else Some(|ops|), 0));
  }

  /** What an example run is about: one prompt and model, and the input tokens of its requests. */
  datatype Numbers = Numbers(ref: ModelRef, promptId: string, early: nat, late: nat, used: nat)

  /** The first request reserves `early` and turns out to use `used`, every other reserves `late`. */
  type Example = e: Numbers | e.used <= e.early <= 10_000 && e.late <= 10_000
    witness Numbers(ModelRef("", ""), "", 0, 0, 0)

  const BUDGETS := Usage(10, 20_000, 10_000, 10_000)

  function ModelOf(e: Example): Model {
    Model(e.ref, true, 10_000, 1_000, 0, 0)
  }

  function PromptOf(e: Example): Prompt {
    Prompt(e.promptId, 1, [e.ref], 100, 1_000)
  }

  /** Open, with the model, the prompt and the budgets of the example. */
  ghost predicate OpenFor(e: Example, g: Gateway) {
    && g.enabled && g.models == [ModelOf(e)] && g.budgets == BUDGETS
    && g.promptVersions == [PromptOf(e)] && g.activePrompts == [ActivePrompt(e.promptId, 1)]
  }

  /** A name for each request, no two alike. */
  function Name(k: nat): (id: string)
    ensures |id| == k
  {
    seq(k, _ => 'x')
  }

  /** What the request of a number reserves. */
  function Cost(e: Example, k: nat): Charge {
    Usage(1, if k == 0 then e.early else e.late, 100, 0)
  }

  function Reserving(e: Example, k: nat, day: int): Operation {
    Reserve(Request(Name(k), e.promptId, e.ref), 1, Cost(e, k), day, day)
  }

  function Opening(e: Example, k: nat): Operation
    requires k < 4
  {
    match k
    case 0 => UpdatePolicy([ModelOf(e)], BUDGETS)
    case 1 => CreatePromptVersion(PromptOf(e))
    case 2 => ActivatePrompt(e.promptId, 1)
    case 3 => SetState(true, "", "")
  }

  /** Opens the gateway. */
  function Openings(e: Example, k: nat): (ops: seq<Operation>)
    requires k <= 4
    ensures |ops| == k
  {
    if k == 0 then [] else Openings(e, k - 1) + [Opening(e, k - 1)]
  }

  /** Opens the gateway and reserves once for each of the days 0 to k - 1. */
  function Daily(e: Example, k: nat): (ops: seq<Operation>)
    ensures |ops| == 4 + k
  {
    if k == 0 then Openings(e, 4) else Daily(e, k - 1) + [Reserving(e, k - 1, k - 1)]
  }

  /** The same for one day more than there are daily records, and then once more for day 0. */
  function Returning(e: Example, limits: Limits): (ops: seq<Operation>)
    ensures |ops| == 6 + limits.maximumDailyUsageRecords
  {
    var n := limits.maximumDailyUsageRecords;
    Daily(e, n + 1) + [Reserving(e, n + 1, 0)]
  }

  function Settlement(e: Example): Operation {
    Succeed(Request(Name(0), e.promptId, e.ref), 1, Usage(1, e.used, 100, 0))
  }

  function Days(e: Example, k: nat): (days: seq<DailyUsage>)
    ensures |days| == k
    ensures forall i :: 0 <= i < k ==> days[i] == DailyUsage(i, Cost(e, i))
  {
    if k == 0 then [] else Days(e, k - 1) + [DailyUsage(k - 1, Cost(e, k - 1))]
  }

  function ReceiptFor(e: Example, k: nat, day: int): Receipt {
    Receipt(Name(k), e.promptId, 1, e.ref, Reserved, day, Cost(e, k), day, None)
  }

  function Receipts(e: Example, k: nat): (receipts: seq<Receipt>)
    ensures |receipts| == k
    ensures forall i :: 0 <= i < k ==> receipts[i] == ReceiptFor(e, i, i)
  {
    if k == 0 then [] else Receipts(e, k - 1) + [ReceiptFor(e, k - 1, k - 1)]
  }

  function Entries(e: Example, k: nat): (entries: seq<Entry>)
    ensures |entries| == k
    ensures forall i :: 0 <= i < k ==> entries[i] == Entry(Name(i), i, Cost(e, i), None)
  {
    if k == 0 then [] else Entries(e, k - 1) + [Entry(Name(k - 1), k - 1, Cost(e, k - 1), None)]
  }

  /** The gateway after the first steps of opening it. */
  function Opened(e: Example, k: nat): Gateway
    requires k <= 4
  {
    var ready := EMPTY.(models := [ModelOf(e)], budgets := BUDGETS);
    var registered := ready.(promptVersions := [PromptOf(e)]);
    var active := registered.(activePrompts := [ActivePrompt(e.promptId, 1)]);
    match k
    case 0 => EMPTY
    case 1 => ready
    case 2 => registered
    case 3 => active
    case 4 => active.(enabled := true, stateEvents := [StateEvent(true, "", "", 0)])
  }

  /** The open gateway after k reservations. */
  function Stage(e: Example, limits: Limits, k: nat): Gateway {
    Opened(e, 4).(dailyUsage := Newest(Days(e, k), limits.maximumDailyUsageRecords),
                  receipts := Newest(Receipts(e, k), limits.maximumRequestReceipts))
  }

  /** Limits are positive, and the schema check lets every countable document through. */
  ghost predicate Admitting(limits: Limits, accepts: Document<Gateway> -> bool) {
    Positive(limits) && forall document: Document<Gateway> :: Countable(document.body) ==> accepts(document)
  }

  lemma {:induction false} CountableStep(limits: Limits, accepts: Document<Gateway> -> bool, ops: seq<Operation>,
                                         op: Operation, g: Gateway, next: Gateway, entries: seq<Entry>,
                                         recreated: set<int>)
    requires Admitting(limits, accepts) && Countable(next)
    requires Shows(Run(GatewayProtocol(limits, accepts), Initial(), Script(ops)), |ops|, g, entries, recreated)
    requires Apply(limits, op, 0, g) == Write(next)
    ensures Shows(Run(GatewayProtocol(limits, accepts), Initial(), Script(ops + [op])), |ops| + 1, next,
                  Record(entries, op), RecreatedBy(g, entries, op, recreated))
  {
    assert Document(|ops| + 1, 0, next).body == next;
    ScriptStep(limits, accepts, ops, op, g, next, entries, recreated);
  }

  lemma OpeningStep(e: Example, limits: Limits, k: nat)
    requires Positive(limits) && k < 4
    ensures Apply(limits, Opening(e, k), 0, Opened(e, k)) == Write(Opened(e, k + 1))
  {
    var g := Opened(e, k);
    if k == 0 {
      assert !DuplicateModels([ModelOf(e)]);
    } else if k == 1 {
      assert FindModel(g.models, e.ref) == Some(ModelOf(e));
      assert forall ref :: ref in PromptOf(e).allowedModels ==> ref == e.ref;
      assert g.promptVersions + [PromptOf(e)] == [PromptOf(e)];
    } else if k == 2 {
      var active := [ActivePrompt(e.promptId, 1)];
      assert FindPrompt(g.promptVersions, e.promptId, 1) == Some(PromptOf(e));
      assert WithoutPrompt(g.activePrompts, e.promptId) + active == active;
    } else {
      var event := StateEvent(true, "", "", 0);
      assert g.stateEvents + [event] == [event];
      assert Newest([event], limits.maximumStateEvents) == [event];
    }
  }

  lemma OpeningRecords(e: Example, k: nat)
    requires k < 4
    ensures Countable(Opened(e, k + 1))
    ensures Record([], Opening(e, k)) == [] && RecreatedBy(Opened(e, k), [], Opening(e, k), {}) == {}
  {
  }

  lemma {:induction false} OpeningShows(e: Example, limits: Limits, accepts: Document<Gateway> -> bool, k: nat)
    requires Admitting(limits, accepts) && k <= 4
    ensures Shows(Run(GatewayProtocol(limits, accepts), Initial(), Script(Openings(e, k))), k, Opened(e, k), [], {})
  {
    if k > 0 {
      OpeningShows(e, limits, accepts, k - 1);
      OpeningStep(e, limits, k - 1);
      OpeningRecords(e, k - 1);
      CountableStep(limits, accepts, Openings(e, k - 1), Opening(e, k - 1), Opened(e, k - 1), Opened(e, k), [], {});
    }
  }

  // One reservation for a day without a record

  lemma Admits(e: Example, g: Gateway, requestId: string)
    requires OpenFor(e, g)
    ensures ExecutionPolicy(g, Request(requestId, e.promptId, e.ref), Some(1)) == Admitted(PromptOf(e), ModelOf(e))
  {
    assert e.ref in PromptOf(e).allowedModels;
  }

  lemma {:induction false} NoneWithout(days: seq<DailyUsage>, day: int)
    requires forall i :: 0 <= i < |days| ==> days[i].day != day
    ensures WithoutDay(days, day) == days
  {
    if days != [] { NoneWithout(days[1..], day); }
  }

  lemma FirstOfDay(limits: Limits, g: Gateway, op: Operation)
    requires op.Reserve? && ExecutionPolicy(g, op.request, Some(op.promptVersion)).Admitted?
    requires FindReceipt(g.receipts, op.request.requestId).None? && FindDay(g.dailyUsage, op.day).None?
    requires UsageFits(NOTHING, op.reservation, g.budgets)
    ensures Apply(limits, op, 0, g) == Write(g.(
      dailyUsage := Newest(g.dailyUsage + [DailyUsage(op.day, op.reservation)], limits.maximumDailyUsageRecords),
      receipts := Newest(g.receipts + [Receipt(op.request.requestId, op.request.promptId, op.promptVersion,
                                               op.request.ref, Reserved, op.day, op.reservation, op.createdAt, None)],
                         limits.maximumRequestReceipts)))
  {
    NoneWithout(g.dailyUsage, op.day);
  }

  lemma NewestTwice<T>(values: seq<T>, value: T, count: nat)
    requires count > 0
    ensures Newest(Newest(values, count) + [value], count) == Newest(values + [value], count)
  {
    var kept := Newest(values, count);
    var one, two := Newest(kept + [value], count), Newest(values + [value], count);
    assert |one| == |two|;
    forall i | 0 <= i < |one| ensures one[i] == two[i] {
      var k, v := |kept| + 1 - |one| + i, |values| + 1 - |two| + i;
      assert one[i] == (kept + [value])[k] && two[i] == (values + [value])[v];
      if i + 1 < |one| { assert kept[k] == values[v]; }
    }
  }

  lemma StageIsOpen(e: Example, limits: Limits, k: nat)
    ensures OpenFor(e, Stage(e, limits, k)) && Countable(Stage(e, limits, k))
  {
    var days := Stage(e, limits, k).dailyUsage;
    forall record | record in days ensures NOTHING.Within(record.usage) {
      var i :| 0 <= i < |days| && days[i] == record;
      assert record == Days(e, k)[k - |days| + i];
    }
  }

  lemma NotReceived(e: Example, limits: Limits, k: nat)
    ensures FindReceipt(Stage(e, limits, k).receipts, Name(k)).None?
  {
    var receipts := Stage(e, limits, k).receipts;
    forall i | 0 <= i < |receipts| ensures |receipts[i].requestId| < k {
      assert receipts[i] == Receipts(e, k)[k - |receipts| + i];
    }
  }

  /** The days on record are the last ones. */
  lemma {:induction false} StageDays(e: Example, limits: Limits, k: nat, day: int)
    requires day >= k || 0 <= day < k - limits.maximumDailyUsageRecords
    ensures FindDay(Stage(e, limits, k).dailyUsage, day).None?
  {
    var days := Stage(e, limits, k).dailyUsage;
    forall i | 0 <= i < |days| ensures days[i].day != day {
      assert days[i] == Days(e, k)[k - |days| + i];
    }
  }

  lemma {:induction false} ReservationStep(e: Example, limits: Limits, k: nat, day: int)
    requires Positive(limits)
    requires day >= k || 0 <= day < k - limits.maximumDailyUsageRecords
    ensures var added := DailyUsage(day, Cost(e, k));
      Apply(limits, Reserving(e, k, day), 0, Stage(e, limits, k)) == Write(Stage(e, limits, k).(
        dailyUsage := Newest(Days(e, k) + [added], limits.maximumDailyUsageRecords),
        receipts := Newest(Receipts(e, k) + [ReceiptFor(e, k, day)], limits.maximumRequestReceipts)))
  {
    var g, op := Stage(e, limits, k), Reserving(e, k, day);
    StageIsOpen(e, limits, k);
    NotReceived(e, limits, k);
    StageDays(e, limits, k, day);
    Admits(e, g, Name(k));
    FirstOfDay(limits, g, op);
    NewestTwice(Days(e, k), DailyUsage(day, Cost(e, k)), limits.maximumDailyUsageRecords);
    NewestTwice(Receipts(e, k), ReceiptFor(e, k, day), limits.maximumRequestReceipts);
  }

  lemma {:induction false} NoDayYet(e: Example, k: nat)
    ensures !HasDay(Entries(e, k), k)
  {
  }

  lemma NextStage(e: Example, limits: Limits, k: nat)
    ensures Stage(e, limits, k + 1) == Stage(e, limits, k).(
      dailyUsage := Newest(Days(e, k) + [DailyUsage(k, Cost(e, k))], limits.maximumDailyUsageRecords),
      receipts := Newest(Receipts(e, k) + [ReceiptFor(e, k, k)], limits.maximumRequestReceipts))
  {
    assert Days(e, k + 1) == Days(e, k) + [DailyUsage(k, Cost(e, k))];
    assert Receipts(e, k + 1) == Receipts(e, k) + [ReceiptFor(e, k, k)];
  }

  lemma DailyApplies(e: Example, limits: Limits, k: nat)
    requires Positive(limits)
    ensures Apply(limits, Reserving(e, k, k), 0, Stage(e, limits, k)) == Write(Stage(e, limits, k + 1))
  {
    NextStage(e, limits, k);
    ReservationStep(e, limits, k, k);
  }

  lemma DailyRecords(e: Example, g: Gateway, k: nat)
    ensures Record(Entries(e, k), Reserving(e, k, k)) == Entries(e, k + 1)
    ensures RecreatedBy(g, Entries(e, k), Reserving(e, k, k), {}) == {}
  {
    NoDayYet(e, k);
  }

  /** One reservation a day: the ledger has them all, and no day was started afresh. */
  lemma {:induction false} DailyShows(e: Example, limits: Limits, accepts: Document<Gateway> -> bool, k: nat)
    requires Admitting(limits, accepts)
    ensures Shows(Run(GatewayProtocol(limits, accepts), Initial(), Script(Daily(e, k))),
                  4 + k, Stage(e, limits, k), Entries(e, k), {})
  {
    if k == 0 {
      OpeningShows(e, limits, accepts, 4);
      assert Stage(e, limits, 0) == Opened(e, 4);
    } else {
      DailyShows(e, limits, accepts, k - 1);
      DailyApplies(e, limits, k - 1);
      DailyRecords(e, Stage(e, limits, k - 1), k - 1);
      StageIsOpen(e, limits, k);
      CountableStep(limits, accepts, Daily(e, k - 1), Reserving(e, k - 1, k - 1),
                    Stage(e, limits, k - 1), Stage(e, limits, k), Entries(e, k - 1), {});
    }
  }

  /** What the first of them cost its day, among as many as are made one a day. */
  lemma {:induction false} FirstDayTotal(e: Example, k: nat)
    ensures DayTotal(Entries(e, k), 0) == if k == 0 then NOTHING else Cost(e, 0)
  {
    if k > 0 {
      FirstDayTotal(e, k - 1);
      assert Entries(e, k)[..k - 1] == Entries(e, k - 1);
    }
  }

  /** The ledger after the return to day 0. */
  function AllEntries(e: Example, n: nat): (entries: seq<Entry>)
    ensures |entries| == n + 2
  {
    Entries(e, n + 1) + [Entry(Name(n + 1), 0, Cost(e, n + 1), None)]
  }

  lemma TwiceReserved(e: Example, n: nat)
    ensures DayTotal(AllEntries(e, n), 0) == Usage(2, e.early + e.late, 200, 0)
  {
    FirstDayTotal(e, n + 1);
    assert AllEntries(e, n)[..n + 1] == Entries(e, n + 1);
    assert AllEntries(e, n)[n + 1].day == 0 && ChargeOf(AllEntries(e, n)[n + 1]) == Cost(e, n + 1);
    assert DayTotal(AllEntries(e, n), 0) == Cost(e, 0).Plus(Cost(e, n + 1));
  }

  /** The gateway after the return to day 0. */
  function Last(e: Example, limits: Limits): Gateway {
    var n := limits.maximumDailyUsageRecords;
    Stage(e, limits, n + 1).(
      dailyUsage := Newest(Days(e, n + 1) + [DailyUsage(0, Cost(e, n + 1))], n),
      receipts := Newest(Receipts(e, n + 1) + [ReceiptFor(e, n + 1, 0)], limits.maximumRequestReceipts))
  }

  lemma LastDays(e: Example, limits: Limits)
    requires Positive(limits)
    ensures Countable(Last(e, limits))
    ensures FindDay(Last(e, limits).dailyUsage, 0) == Some(DailyUsage(0, Cost(e, limits.maximumDailyUsageRecords + 1)))
  {
    var n := limits.maximumDailyUsageRecords;
    var all := Days(e, n + 1) + [DailyUsage(0, Cost(e, n + 1))];
    var days := Last(e, limits).dailyUsage;
    forall i | 0 <= i < |days| ensures days[i] == all[2 + i] && (i + 1 < n ==> days[i].day == 2 + i) {
    }
    forall record | record in days ensures NOTHING.Within(record.usage) {
      var i :| 0 <= i < |days| && days[i] == record;
      assert all[2 + i] == record;
    }
    assert days[n - 1] == DailyUsage(0, Cost(e, n + 1));
  }

  lemma {:induction false} ReturnRecorded(e: Example, limits: Limits)
    requires Positive(limits)
    ensures var n := limits.maximumDailyUsageRecords;
      && Record(Entries(e, n + 1), Reserving(e, n + 1, 0)) == AllEntries(e, n)
      && RecreatedBy(Stage(e, limits, n + 1), Entries(e, n + 1), Reserving(e, n + 1, 0), {}) == {0}
  {
    var n := limits.maximumDailyUsageRecords;
    StageDays(e, limits, n + 1, 0);
    assert Entries(e, n + 1)[0].day == 0;
  }

  lemma ReturningShows(e: Example, limits: Limits, accepts: Document<Gateway> -> bool)
    requires Admitting(limits, accepts)
    ensures var n := limits.maximumDailyUsageRecords;
      Shows(Run(GatewayProtocol(limits, accepts), Initial(), Script(Returning(e, limits))),
            6 + n, Last(e, limits), AllEntries(e, n), {0})
  {
    var n := limits.maximumDailyUsageRecords;
    DailyShows(e, limits, accepts, n + 1);
    ReservationStep(e, limits, n + 1, 0);
    ReturnRecorded(e, limits);
    LastDays(e, limits);
    CountableStep(limits, accepts, Daily(e, n + 1), Reserving(e, n + 1, 0), Stage(e, limits, n + 1), Last(e, limits),
                  Entries(e, n + 1), {});
  }

  /**
   Whatever the number of daily records: after a reservation on each of one day more, another one for
   the first day starts its record afresh, and of the two reservations it counts only the second.
   */
  lemma EveryLimitForgets(e: Example, limits: Limits, accepts: Document<Gateway> -> bool)
    requires Admitting(limits, accepts)
    ensures var s := Run(GatewayProtocol(limits, accepts), Initial(), Script(Returning(e, limits)));
      && FindDay(BodyOf(s.stored, EMPTY).dailyUsage, 0) == Some(DailyUsage(0, Usage(1, e.late, 100, 0)))
      && DayTotal(Ledger(s.log), 0) == Usage(2, e.early + e.late, 200, 0)
      && Recreated(s.log) == {0}
  {
    ReturningShows(e, limits, accepts);
    LastDays(e, limits);
    TwiceReserved(e, limits.maximumDailyUsageRecords);
  }

  // Settling the first of the two

  lemma SettleApplies(limits: Limits, op: Operation, now: int, g: Gateway, receipt: Receipt, current: DailyUsage,
                      unspent: Usage, settled: DailyUsage)
    requires op.Succeed? && ExecutionPolicy(g, op.request, Some(op.promptVersion)).Admitted?
    requires FindReceipt(g.receipts, op.request.requestId) == Some(receipt) && receipt.status.Reserved?
    requires op.actual.Within(receipt.reservedUsage)
    requires FindDay(g.dailyUsage, receipt.usageDay) == Some(current)
    requires unspent == receipt.reservedUsage.Minus(op.actual)
    requires settled == DailyUsage(receipt.usageDay, current.usage.Minus(unspent))
    ensures Apply(limits, op, now, g) == Write(g.(
      dailyUsage := ReplaceDay(g.dailyUsage, settled),
      receipts := SettleReceipts(g.receipts, op.request.requestId, op.actual, now)))
    ensures Covers(g, op) <==> unspent.Within(current.usage)
  {
  }

  lemma FirstReceipt(e: Example, limits: Limits)
    requires limits.maximumRequestReceipts >= limits.maximumDailyUsageRecords + 2
    ensures FindReceipt(Last(e, limits).receipts, Name(0)) == Some(ReceiptFor(e, 0, 0))
  {
    var n := limits.maximumDailyUsageRecords;
    var receipts := Last(e, limits).receipts;
    assert receipts == Receipts(e, n + 1) + [ReceiptFor(e, n + 1, 0)];
    assert receipts[0] == ReceiptFor(e, 0, 0) && receipts[0].requestId == Name(0);
    forall i | 0 < i < |receipts| ensures |receipts[i].requestId| > 0 {
    }
  }

  function Left(e: Example): DailyUsage {
    DailyUsage(0, Usage(1, e.late - (e.early - e.used), 100, 0))
  }

  lemma {:induction false} ReplacedDay(days: seq<DailyUsage>, next: DailyUsage)
    requires FindDay(days, next.day).Some?
    ensures FindDay(ReplaceDay(days, next), next.day) == Some(next)
  {
    var i :| 0 <= i < |days| && days[i].day == next.day;
    assert ReplaceDay(days, next)[i] == next;
  }

  lemma Difference(whole: Usage, part: Usage, rest: Usage)
    requires rest.requests == whole.requests - part.requests
    requires rest.inputTokens == whole.inputTokens - part.inputTokens
    requires rest.outputTokens == whole.outputTokens - part.outputTokens
    requires rest.costMicros == whole.costMicros - part.costMicros
    ensures rest == whole.Minus(part)
  {
  }

  /** What the first request gives back. */
  function Unspent(e: Example): Usage {
    Usage(0, e.early - e.used, 0, 0)
  }

  lemma Amounts(e: Example, k: nat)
    requires k > 0
    ensures Settlement(e).actual.Within(Cost(e, 0))
    ensures Unspent(e) == Cost(e, 0).Minus(Settlement(e).actual)
    ensures Left(e).usage == Cost(e, k).Minus(Unspent(e))
    ensures Unspent(e).Within(Cost(e, k)) <==> e.early <= e.late + e.used
  {
    Difference(Cost(e, 0), Settlement(e).actual, Unspent(e));
    Difference(Cost(e, k), Unspent(e), Left(e).usage);
  }

  lemma SettlingChange(e: Example, limits: Limits, g: Gateway) returns (next: Gateway)
    requires OpenFor(e, g) && Countable(g)
    requires FindReceipt(g.receipts, Name(0)) == Some(ReceiptFor(e, 0, 0))
    requires FindDay(g.dailyUsage, 0) == Some(DailyUsage(0, Cost(e, limits.maximumDailyUsageRecords + 1)))
    ensures Apply(limits, Settlement(e), 0, g) == Write(next)
    ensures FindDay(next.dailyUsage, 0) == Some(Left(e))
    ensures Countable(next) <==> e.early <= e.late + e.used
  {
    var k := limits.maximumDailyUsageRecords + 1;
    Admits(e, g, Name(0));
    Amounts(e, k);
    SettleApplies(limits, Settlement(e), 0, g, ReceiptFor(e, 0, 0), DailyUsage(0, Cost(e, k)), Unspent(e), Left(e));
    next := g.(dailyUsage := ReplaceDay(g.dailyUsage, Left(e)),
               receipts := SettleReceipts(g.receipts, Name(0), Settlement(e).actual, 0));
    ReplacedDay(g.dailyUsage, Left(e));
    SettlementCountableExactly(limits, g, Settlement(e), 0, next);
  }

  lemma {:induction false} TotalOnceSettled(entries: seq<Entry>, actual: Charge, left: Usage)
    requires entries != [] && forall k :: 0 < k < |entries| ==> entries[k].requestId != entries[0].requestId
    requires left == DayTotal(entries, entries[0].day).Minus(ChargeOf(entries[0])).Plus(actual)
    ensures DayTotal(SettleLast(entries, entries[0].requestId, actual), entries[0].day) == left
  {
    SettlesAt(entries, entries[0].requestId, actual, 0);
    TotalAfterSettling(entries, 0, entries[0].(settled := Some(actual)), entries[0].day);
  }

  lemma Exchanged(total: Usage, removed: Usage, added: Usage, left: Usage)
    requires left.requests == total.requests - removed.requests + added.requests
    requires left.inputTokens == total.inputTokens - removed.inputTokens + added.inputTokens
    requires left.outputTokens == total.outputTokens - removed.outputTokens + added.outputTokens
    requires left.costMicros == total.costMicros - removed.costMicros + added.costMicros
    ensures left == total.Minus(removed).Plus(added)
  {
  }

  lemma OnceSettled(e: Example, n: nat)
    ensures DayTotal(Record(AllEntries(e, n), Settlement(e)), 0) == Usage(2, e.used + e.late, 200, 0)
  {
    var entries := AllEntries(e, n);
    TwiceReserved(e, n);
    Exchanged(DayTotal(entries, 0), Cost(e, 0), Settlement(e).actual, Usage(2, e.used + e.late, 200, 0));
    assert entries[0] == Entry(Name(0), 0, Cost(e, 0), None);
    TotalOnceSettled(entries, Settlement(e).actual, Usage(2, e.used + e.late, 200, 0));
  }

  /**
   If the first receipt is still there, settling it subtracts from a record that never counted it.
   When the first request had more tokens left over than the last one reserved, the counter falls
   below zero, or the check of counters refuses to store the settlement.
   */
  lemma SettlementFallsBelowZero(e: Example, limits: Limits, accepts: Document<Gateway> -> bool)
    requires Admitting(limits, accepts) && limits.maximumRequestReceipts >= limits.maximumDailyUsageRecords + 2
    ensures var p := GatewayProtocol(limits, accepts);
      var before := Run(p, Initial(), Script(Returning(e, limits)));
      var s := Run(p, Initial(), Script(Returning(e, limits) + [Settlement(e)]));
      if ClientOf(s, 0) == Finished(Settlement(e), Rejected) then
        s.stored == before.stored && e.early > e.late + e.used
      else
        && ClientOf(s, 0) == Finished(Settlement(e), Committed(|before.log|))
        && FindDay(BodyOf(s.stored, EMPTY).dailyUsage, 0) == Some(Left(e))
        && DayTotal(Ledger(s.log), 0) == Usage(2, e.used + e.late, 200, 0)
        && (Countable(BodyOf(s.stored, EMPTY)) <==> e.early <= e.late + e.used)
  {
    var n := limits.maximumDailyUsageRecords;
    ReturningShows(e, limits, accepts);
    StageIsOpen(e, limits, n + 1);
    LastDays(e, limits);
    FirstReceipt(e, limits);
    var next := SettlingChange(e, limits, Last(e, limits));
    ScriptStep(limits, accepts, Returning(e, limits), Settlement(e), Last(e, limits), next, AllEntries(e, n), {0});
    assert Document(7 + n, 0, next).body == next;
    OnceSettled(e, n);
  }
}
