/**
 Conservation: the daily counters kept in the bounded gateway document against an unbounded
 ledger of every reservation ever committed, over every log the store can produce.
 */
module AiLedger {
  import opened Wrappers
  import opened VersionedStore
  import opened AiGateway

  datatype Entry = Entry(requestId: string, day: int, reserved: Charge, settled: Option<Charge>)

  type Log = seq<Commit<Operation, Gateway>>

  /** What a reservation costs its day: the actual usage once it succeeded, else all it reserved. */
  function ChargeOf(entry: Entry): Charge {
    if entry.settled.Some? then entry.settled.value else entry.reserved
  }

  /** Settles the latest entry of a request. */
  function SettleLast(entries: seq<Entry>, requestId: string, actual: Charge): seq<Entry> {
    if entries == [] then []
    else
      var n := |entries| - 1;
      if entries[n].requestId == requestId then entries[..n] + [entries[n].(settled := Some(actual))]
      else SettleLast(entries[..n], requestId, actual) + [entries[n]]
  }

  function Record(entries: seq<Entry>, op: Operation): seq<Entry> {
    match op
    case Reserve(request, _, reservation, day, _) =>
      entries + [Entry(request.requestId, day, reservation, None)]
    case Succeed(request, _, actual) => SettleLast(entries, request.requestId, actual)
    case _ => entries
  }

  function Ledger(log: Log): seq<Entry> {
    if log == [] then [] else Record(Ledger(log[..|log| - 1]), log[|log| - 1].op)
  }

  function DayTotal(entries: seq<Entry>, day: int): Usage {
    if entries == [] then NOTHING
    else
      var n := |entries| - 1;
      var rest := DayTotal(entries[..n], day);
      if entries[n].day == day then rest.Plus(ChargeOf(entries[n])) else rest
  }

  predicate HasDay(entries: seq<Entry>, day: int) {
    exists i :: 0 <= i < |entries| && entries[i].day == day
  }

  /** Days whose usage record had been evicted when a later reservation started it afresh. */
  function Recreated(log: Log): set<int> {
    if log == [] then {}
    else
      var n := |log| - 1;
      RecreatedBy(BodyOf(log[n].before, EMPTY), Ledger(log[..n]), log[n].op, Recreated(log[..n]))
  }

  function RecreatedBy(g: Gateway, entries: seq<Entry>, op: Operation, earlier: set<int>): set<int> {
    if op.Reserve? && FindDay(g.dailyUsage, op.day).None? && HasDay(entries, op.day)
    then earlier + {op.day} else earlier
  }

  ghost predicate Matches(receipt: Receipt, entry: Entry) {
    && receipt.requestId == entry.requestId
    && receipt.usageDay == entry.day
    && receipt.reservedUsage == entry.reserved
    && match receipt.status
       case Succeeded(actual) => entry.settled.Some? && entry.settled.value == actual
       case _ => entry.settled.None?
  }

  /** The retained receipts are the newest ledger entries. */
  ghost predicate Mirrors(receipts: seq<Receipt>, entries: seq<Entry>) {
    && |receipts| <= |entries|
    && forall i :: 0 <= i < |receipts| ==> Matches(receipts[i], entries[|entries| - |receipts| + i])
  }

  ghost predicate UniqueDays(days: seq<DailyUsage>) {
    forall i, j :: 0 <= i < j < |days| ==> days[i].day != days[j].day
  }

  ghost predicate UniqueRequests(receipts: seq<Receipt>) {
    forall i, j :: 0 <= i < j < |receipts| ==> receipts[i].requestId != receipts[j].requestId
  }

  /** Days recorded once each, and, unless recreated, with exactly the ledger's total. */
  ghost predicate DaysSound(days: seq<DailyUsage>, entries: seq<Entry>, recreated: set<int>) {
    && UniqueDays(days)
    && forall i :: 0 <= i < |days| && days[i].day !in recreated ==>
        days[i].usage == DayTotal(entries, days[i].day)
  }

  ghost predicate ReceiptsSound(receipts: seq<Receipt>, entries: seq<Entry>) {
    && UniqueRequests(receipts)
    && Mirrors(receipts, entries)
    && forall i :: 0 <= i < |entries| ==> ChargeOf(entries[i]).Within(entries[i].reserved)
  }

  ghost predicate Sound(g: Gateway, entries: seq<Entry>, recreated: set<int>) {
    DaysSound(g.dailyUsage, entries, recreated) && ReceiptsSound(g.receipts, entries)
  }

  lemma {:induction false} SettlesAt(entries: seq<Entry>, requestId: string, actual: Charge, j: nat)
    requires j < |entries| && entries[j].requestId == requestId
    requires forall k :: j < k < |entries| ==> entries[k].requestId != requestId
    ensures SettleLast(entries, requestId, actual) == entries[j := entries[j].(settled := Some(actual))]
  {
    var n := |entries| - 1;
    if j < n {
      SettlesAt(entries[..n], requestId, actual, j);
      assert entries == entries[..n] + [entries[n]];
    }
  }

  lemma {:induction false} TotalAfterSettling(entries: seq<Entry>, j: nat, next: Entry, day: int)
    requires j < |entries| && next.day == entries[j].day
    ensures DayTotal(entries[j := next], day)
         == if next.day == day
            then DayTotal(entries, day).Minus(ChargeOf(entries[j])).Plus(ChargeOf(next))
            else DayTotal(entries, day)
  {
    var n := |entries| - 1;
    if j < n {
      TotalAfterSettling(entries[..n], j, next, day);
      assert entries[j := next][..n] == entries[..n][j := next];
    } else {
      assert entries[j := next][..n] == entries[..n];
    }
  }

  lemma {:induction false} TotalNonNegative(entries: seq<Entry>, day: int)
    ensures NOTHING.Within(DayTotal(entries, day))
    ensures !HasDay(entries, day) ==> DayTotal(entries, day) == NOTHING
  {
    if entries != [] {
      var n := |entries| - 1;
      TotalNonNegative(entries[..n], day);
      assert HasDay(entries[..n], day) ==> HasDay(entries, day);
    }
  }

  lemma {:induction false} WithoutDayUnique(days: seq<DailyUsage>, day: int)
    requires UniqueDays(days)
    ensures UniqueDays(WithoutDay(days, day))
  {
    if days != [] {
      WithoutDayUnique(days[1..], day);
      var kept := WithoutDay(days[1..], day);
      forall i | 0 <= i < |kept| ensures kept[i].day != days[0].day {
        assert kept[i] in days[1..];
      }
    }
  }

  lemma {:induction false} RecordOfDay(days: seq<DailyUsage>, i: nat)
    requires UniqueDays(days) && i < |days|
    ensures FindDay(days, days[i].day) == Some(days[i])
  {
  }

  lemma NewestDays(days: seq<DailyUsage>, count: nat, entries: seq<Entry>, recreated: set<int>)
    requires DaysSound(days, entries, recreated)
    ensures DaysSound(Newest(days, count), entries, recreated)
  {
  }

  lemma {:induction false} ReserveDays(days: seq<DailyUsage>, day: int, charge: Charge, entries: seq<Entry>,
                                       entry: Entry, recreated: set<int>, recreated': set<int>)
    requires DaysSound(days, entries, recreated)
    requires entry.day == day && ChargeOf(entry) == charge
    requires recreated <= recreated'
    requires FindDay(days, day).None? && HasDay(entries, day) ==> day in recreated'
    ensures var added := DailyUsage(day, UsageOn(days, day).Plus(charge));
      DaysSound(WithoutDay(days, day) + [added], entries + [entry], recreated')
  {
    var kept := WithoutDay(days, day);
    WithoutDayUnique(days, day);
    assert (entries + [entry])[..|entries|] == entries;
    forall i | 0 <= i < |kept| && kept[i].day !in recreated'
      ensures kept[i].usage == DayTotal(entries + [entry], kept[i].day)
    {
      assert kept[i] in days;
    }
    TotalNonNegative(entries, day);
  }

  lemma ReserveSound(limits: Limits, op: Operation, now: int, g: Gateway, next: Gateway,
                     entries: seq<Entry>, recreated: set<int>)
    requires op.Reserve?
    requires Sound(g, entries, recreated)
    requires Apply(limits, op, now, g) == Write(next)
    ensures Sound(next, Record(entries, op), RecreatedBy(g, entries, op, recreated))
  {
    var entry := Entry(op.request.requestId, op.day, op.reservation, None);
    var recreated' := RecreatedBy(g, entries, op, recreated);
    ReserveDays(g.dailyUsage, op.day, op.reservation, entries, entry, recreated, recreated');
    var added := DailyUsage(op.day, UsageOn(g.dailyUsage, op.day).Plus(op.reservation));
    NewestDays(WithoutDay(g.dailyUsage, op.day) + [added], limits.maximumDailyUsageRecords,
               entries + [entry], recreated');
    var receipt := Receipt(op.request.requestId, op.request.promptId, op.promptVersion,
                           op.request.ref, Reserved, op.day, op.reservation, op.createdAt, None);
    ReserveReceipts(g.receipts, receipt, entries, entry);
    NewestReceipts(g.receipts + [receipt], limits.maximumRequestReceipts, entries + [entry]);
  }

  lemma {:induction false} ReserveReceipts(receipts: seq<Receipt>, receipt: Receipt, entries: seq<Entry>, entry: Entry)
    requires ReceiptsSound(receipts, entries)
    requires FindReceipt(receipts, receipt.requestId).None?
    requires entry.settled.None? && Matches(receipt, entry)
    ensures ReceiptsSound(receipts + [receipt], entries + [entry])
  {
    var skipped := |entries| - |receipts|;
    forall i | 0 <= i <= |receipts| ensures Matches((receipts + [receipt])[i], (entries + [entry])[skipped + i]) {
      if i < |receipts| { assert Matches(receipts[i], entries[skipped + i]); }
    }
  }

  lemma NewestReceipts(receipts: seq<Receipt>, count: nat, entries: seq<Entry>)
    requires ReceiptsSound(receipts, entries)
    ensures ReceiptsSound(Newest(receipts, count), entries)
  {
    var kept := Newest(receipts, count);
    var dropped := |receipts| - |kept|;
    forall i | 0 <= i < |kept| ensures Matches(kept[i], entries[|entries| - |kept| + i]) {
      assert Matches(receipts[dropped + i], entries[|entries| - |receipts| + dropped + i]);
    }
  }

  /** Where in the ledger a retained request stands. */
  lemma EntryOfReceipt(receipts: seq<Receipt>, entries: seq<Entry>, requestId: string) returns (k: nat, j: nat)
    requires ReceiptsSound(receipts, entries)
    requires FindReceipt(receipts, requestId).Some?
    ensures k < |receipts| && receipts[k] == FindReceipt(receipts, requestId).value
    ensures j == |entries| - |receipts| + k && j < |entries| && Matches(receipts[k], entries[j])
    ensures forall m :: j < m < |entries| ==> entries[m].requestId != requestId
  {
    var skipped := |entries| - |receipts|;
    k :| 0 <= k < |receipts| && receipts[k] == FindReceipt(receipts, requestId).value;
    j := skipped + k;
    forall m | j < m < |entries| ensures entries[m].requestId != requestId {
      assert Matches(receipts[m - skipped], entries[m]);
    }
  }

  lemma {:induction false} SucceedReceipts(receipts: seq<Receipt>, entries: seq<Entry>, requestId: string,
                                           actual: Charge, now: int)
    requires ReceiptsSound(receipts, entries)
    requires FindReceipt(receipts, requestId).Some?
    requires actual.Within(FindReceipt(receipts, requestId).value.reservedUsage)
    ensures ReceiptsSound(SettleReceipts(receipts, requestId, actual, now), SettleLast(entries, requestId, actual))
  {
    var k, j := EntryOfReceipt(receipts, entries, requestId);
    SettlesAt(entries, requestId, actual, j);
    var settled := entries[j].(settled := Some(actual));
    var next := SettleReceipts(receipts, requestId, actual, now);
    SettledMatch(receipts, entries, k, actual, now, next);
    assert forall i :: 0 <= i < |next| ==> next[i].requestId == receipts[i].requestId;
    assert ChargeOf(settled).Within(settled.reserved);
  }

  lemma SettledMatch(receipts: seq<Receipt>, entries: seq<Entry>, k: nat, actual: Charge, now: int, next: seq<Receipt>)
    requires UniqueRequests(receipts) && Mirrors(receipts, entries) && k < |receipts|
    requires next == SettleReceipts(receipts, receipts[k].requestId, actual, now)
    ensures var j := |entries| - |receipts| + k;
      Mirrors(next, entries[j := entries[j].(settled := Some(actual))])
  {
    var skipped := |entries| - |receipts|;
    var settled := entries[skipped + k].(settled := Some(actual));
    var entries' := entries[skipped + k := settled];
    forall i | 0 <= i < |next| ensures Matches(next[i], entries'[|entries'| - |next| + i]) {
      assert Matches(receipts[i], entries[skipped + i]);
      if i == k {
        assert next[k].status == Succeeded(actual);
      } else {
        assert receipts[i].requestId != receipts[k].requestId;
        assert next[i] == receipts[i];
      }
    }
  }

  lemma {:induction false} SucceedDays(days: seq<DailyUsage>, entries: seq<Entry>, j: nat, actual: Charge,
                                       recreated: set<int>)
    requires DaysSound(days, entries, recreated)
    requires j < |entries| && entries[j].settled.None?
    requires FindDay(days, entries[j].day).Some?
    ensures var next := FindDay(days, entries[j].day).value.usage.Minus(entries[j].reserved.Minus(actual));
      DaysSound(ReplaceDay(days, DailyUsage(entries[j].day, next)),
                entries[j := entries[j].(settled := Some(actual))], recreated)
  {
    var settled := entries[j].(settled := Some(actual));
    var next := FindDay(days, entries[j].day).value.usage.Minus(entries[j].reserved.Minus(actual));
    var replaced := ReplaceDay(days, DailyUsage(entries[j].day, next));
    forall i | 0 <= i < |days| && replaced[i].day !in recreated
      ensures replaced[i].usage == DayTotal(entries[j := settled], replaced[i].day)
    {
      TotalAfterSettling(entries, j, settled, days[i].day);
      RecordOfDay(days, i);
    }
  }

  lemma SucceedSound(limits: Limits, op: Operation, now: int, g: Gateway, next: Gateway,
                     entries: seq<Entry>, recreated: set<int>)
    requires op.Succeed?
    requires Sound(g, entries, recreated)
    requires Apply(limits, op, now, g) == Write(next)
    ensures Sound(next, Record(entries, op), recreated)
  {
    var requestId := op.request.requestId;
    var k, j := EntryOfReceipt(g.receipts, entries, requestId);
    SettlesAt(entries, requestId, op.actual, j);
    SucceedReceipts(g.receipts, entries, requestId, op.actual, now);
    SucceedDays(g.dailyUsage, entries, j, op.actual, recreated);
  }

  lemma FailSound(limits: Limits, op: Operation, now: int, g: Gateway, next: Gateway,
                  entries: seq<Entry>, recreated: set<int>)
    requires op.Fail?
    requires Sound(g, entries, recreated)
    requires Apply(limits, op, now, g) == Write(next)
    ensures Sound(next, entries, recreated)
  {
    var skipped := |entries| - |g.receipts|;
    forall i | 0 <= i < |g.receipts| ensures Matches(next.receipts[i], entries[skipped + i]) {
      assert Matches(g.receipts[i], entries[skipped + i]);
    }
  }

  lemma StepSound(limits: Limits, op: Operation, now: int, g: Gateway, next: Gateway,
                  entries: seq<Entry>, recreated: set<int>)
    requires Sound(g, entries, recreated)
    requires Apply(limits, op, now, g) == Write(next)
    ensures Sound(next, Record(entries, op), RecreatedBy(g, entries, op, recreated))
  {
    if op.Reserve? {
      ReserveSound(limits, op, now, g, next, entries, recreated);
    } else if op.Succeed? {
      SucceedSound(limits, op, now, g, next, entries, recreated);
    } else if op.Fail? {
      FailSound(limits, op, now, g, next, entries, recreated);
    } else {
      assert next.dailyUsage == g.dailyUsage && next.receipts == g.receipts;
    }
  }

  lemma {:induction false} LogSound(limits: Limits, accepts: Document<Gateway> -> bool, log: Log)
    requires Positive(limits) && Linear(GatewayProtocol(limits, accepts), log)
    ensures Sound(BodyOf(Latest(log), EMPTY), Ledger(log), Recreated(log))
  {
    if log != [] {
      var p := GatewayProtocol(limits, accepts);
      var n := |log| - 1;
      LinearPrefix(p, log, n);
      LogSound(limits, accepts, log[..n]);
      assert LinearAt(p, log, n);
      StepSound(limits, log[n].op, log[n].now, BodyOf(log[n].before, EMPTY), log[n].after.body,
                Ledger(log[..n]), Recreated(log[..n]));
    }
  }

  /**
   Conservation over all interleavings. In every reachable document each recorded day that was
   never evicted and recreated holds exactly the sum of what all its reservations, including those
   whose receipts were dropped, cost it; so its counters are never negative, every reservation
   costs at most what it reserved, and retained request ids and days are distinct.
   */
  lemma {:induction false} LedgerConservation(limits: Limits, accepts: Document<Gateway> -> bool,
                                              events: seq<Event<Operation>>, record: DailyUsage)
    requires Positive(limits)
    ensures var s := Run(GatewayProtocol(limits, accepts), Initial(), events);
      var g := BodyOf(s.stored, EMPTY);
      && UniqueDays(g.dailyUsage) && UniqueRequests(g.receipts)
      && Mirrors(g.receipts, Ledger(s.log))
      && (record in g.dailyUsage && record.day !in Recreated(s.log) ==>
           && record.usage == DayTotal(Ledger(s.log), record.day)
           && NOTHING.Within(record.usage))
  {
    var p := GatewayProtocol(limits, accepts);
    EveryRunReplays(p, events);
    RunsLinearize(p, Initial(), events);
    var s := Run(p, Initial(), events);
    LogSound(limits, accepts, s.log);
    TotalNonNegative(Ledger(s.log), record.day);
  }

  // Budgets

  /** The commit at `i` is the day's last reservation. */
  ghost predicate LastReservation(log: Log, day: int, i: nat) {
    && i < |log| && log[i].op.Reserve? && log[i].op.day == day
    && forall j :: i < j < |log| ==> !(log[j].op.Reserve? && log[j].op.day == day)
  }

  lemma LastReservationStays(log: Log, day: int, i: nat)
    requires log != [] && LastReservation(log[..|log| - 1], day, i)
    requires var op := log[|log| - 1].op; !(op.Reserve? && op.day == day)
    ensures LastReservation(log, day, i) && log[i] == log[..|log| - 1][i]
  {
    forall j | i < j < |log| - 1 ensures !(log[j].op.Reserve? && log[j].op.day == day) {
      assert log[j] == log[..|log| - 1][j];
    }
  }

  /** Every recorded usage respects the budgets its day's last reservation was admitted under. */
  lemma {:induction false} LastReservationFits(limits: Limits, accepts: Document<Gateway> -> bool, log: Log,
                                               record: DailyUsage) returns (i: nat)
    requires Positive(limits) && Linear(GatewayProtocol(limits, accepts), log)
    requires record in BodyOf(Latest(log), EMPTY).dailyUsage
    ensures LastReservation(log, record.day, i) && record.usage.Within(BodyOf(log[i].before, EMPTY).budgets)
  {
    var p := GatewayProtocol(limits, accepts);
    var n := |log| - 1;
    var earlier := log[..n];
    LinearPrefix(p, log, n);
    assert LinearAt(p, log, n);
    if log[n].op.Reserve? && log[n].op.day == record.day {
      ReservedRecord(limits, log[n].op, BodyOf(log[n].before, EMPTY), log[n].after.body, record);
      i := n;
    } else {
      LogSound(limits, accepts, earlier);
      var larger := EarlierRecord(limits, log[n].op, log[n].now, BodyOf(log[n].before, EMPTY), log[n].after.body, record);
      i := LastReservationFits(limits, accepts, earlier, larger);
      LastReservationStays(log, record.day, i);
    }
  }

  /** The record of the day just reserved for is within the budgets. */
  lemma ReservedRecord(limits: Limits, op: Operation, g: Gateway, next: Gateway, record: DailyUsage)
    requires op.Reserve? && ApplyReserve(limits, op, g) == Write(next)
    requires record in next.dailyUsage && record.day == op.day
    ensures record.usage.Within(g.budgets)
  {
    var added := DailyUsage(op.day, UsageOn(g.dailyUsage, op.day).Plus(op.reservation));
    assert record in WithoutDay(g.dailyUsage, op.day) + [added];
  }

  /** Apart from a reservation for its day, a record was there before, with no less usage. */
  lemma EarlierRecord(limits: Limits, op: Operation, now: int, g: Gateway, next: Gateway, record: DailyUsage)
    returns (larger: DailyUsage)
    requires UniqueDays(g.dailyUsage) && Apply(limits, op, now, g) == Write(next)
    requires record in next.dailyUsage && !(op.Reserve? && op.day == record.day)
    ensures larger in g.dailyUsage && larger.day == record.day && record.usage.Within(larger.usage)
  {
    if op.Succeed? {
      var i :| 0 <= i < |next.dailyUsage| && next.dailyUsage[i] == record;
      RecordOfDay(g.dailyUsage, i);
      larger := g.dailyUsage[i];
    } else {
      if op.Reserve? {
        var added := DailyUsage(op.day, UsageOn(g.dailyUsage, op.day).Plus(op.reservation));
        assert record in WithoutDay(g.dailyUsage, op.day) + [added];
      }
      larger := record;
    }
  }

  /**
   Budget safety in every run: while the budgets each reservation for the day was admitted under
   are `budgets`, its recorded usage exceeds them in no component, and neither does the true total
   of a day that was not recreated.
   */
  lemma {:induction false} BudgetSafety(limits: Limits, accepts: Document<Gateway> -> bool,
                                        events: seq<Event<Operation>>, budgets: Usage, record: DailyUsage)
    requires Positive(limits)
    ensures var s := Run(GatewayProtocol(limits, accepts), Initial(), events);
      && record in BodyOf(s.stored, EMPTY).dailyUsage
      && (forall i :: 0 <= i < |s.log| && s.log[i].op.Reserve? && s.log[i].op.day == record.day ==>
           BodyOf(s.log[i].before, EMPTY).budgets == budgets)
      ==>
      && record.usage.Within(budgets)
      && (record.day !in Recreated(s.log) ==> DayTotal(Ledger(s.log), record.day).Within(budgets))
  {
    var s := Run(GatewayProtocol(limits, accepts), Initial(), events);
    RunsLinearize(GatewayProtocol(limits, accepts), Initial(), events);
    if record in BodyOf(s.stored, EMPTY).dailyUsage {
      var i := LastReservationFits(limits, accepts, s.log, record);
      LogSound(limits, accepts, s.log);
    }
  }
}
