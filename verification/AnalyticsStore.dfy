/** Analytics over the versioned store: any number of processors, any interleaving, any repetition. */
module AnalyticsStore {
  import opened Analytics
  import opened AnalyticsTally
  import opened VersionedStore

  type Log = seq<Commit<Evidence, Aggregate>>
  type Processors = System<Evidence, Aggregate, ()>
  type Rules = Protocol<Evidence, Aggregate, ()>

  function AnalyticsProtocol(limits: Limits, accepts: Document<Aggregate> -> bool): Rules {
    Protocol(EMPTY,
             (evidence: Evidence, now: int, document: Aggregate) =>
               if Seen(document, evidence) then Skip else Write(Recorded(document, evidence, limits)),
             accepts)
  }

  function Accepted(log: Log): seq<Evidence> {
    seq(|log|, i requires 0 <= i < |log| => log[i].op)
  }

  function IdOf(evidence: Evidence): string {
    ReceiptOf(evidence).id
  }

  function Receipts(evidence: seq<Evidence>): seq<Receipt> {
    seq(|evidence|, i requires 0 <= i < |evidence| => ReceiptOf(evidence[i]))
  }

  /** The stored aggregate is the fold of the committed evidence. */
  lemma {:induction false} StoredIsFold(limits: Limits, accepts: Document<Aggregate> -> bool, log: Log)
    requires Linear(AnalyticsProtocol(limits, accepts), log)
    ensures BodyOf(Latest(log), EMPTY) == Folded(Accepted(log), limits)
    decreases |log|
  {
    if log != [] {
      var p, n := AnalyticsProtocol(limits, accepts), |log| - 1;
      LinearPrefix(p, log, n);
      StoredIsFold(limits, accepts, log[..n]);
      assert LinearAt(p, log, n);
      assert Accepted(log)[..n] == Accepted(log[..n]);
    }
  }

  /** The receipts list every piece of evidence until the first eviction. */
  lemma {:induction false} ReceiptsListAll(evidence: seq<Evidence>, limits: Limits)
    ensures !Folded(evidence, limits).truncated.receipts ==> Folded(evidence, limits).receipts == Receipts(evidence)
    decreases |evidence|
  {
    if evidence != [] {
      var last := |evidence| - 1;
      ReceiptsListAll(evidence[..last], limits);
      assert Receipts(evidence) == Receipts(evidence[..last]) + [ReceiptOf(evidence[last])];
    }
  }

  /** No evidence id was committed twice while every receipt is retained. */
  lemma {:induction false} IdsAreDistinct(limits: Limits, accepts: Document<Aggregate> -> bool, log: Log)
    requires Linear(AnalyticsProtocol(limits, accepts), log)
    requires !Folded(Accepted(log), limits).truncated.receipts
    ensures forall i, j :: 0 <= i < j < |log| ==> IdOf(log[i].op) != IdOf(log[j].op)
    decreases |log|
  {
    if log != [] {
      var p, n := AnalyticsProtocol(limits, accepts), |log| - 1;
      LinearPrefix(p, log, n);
      assert Accepted(log)[..n] == Accepted(log[..n]);
      IdsAreDistinct(limits, accepts, log[..n]);
      NewIdIsDistinct(limits, accepts, log);
    }
  }

  lemma {:induction false} NewIdIsDistinct(limits: Limits, accepts: Document<Aggregate> -> bool, log: Log)
    requires Linear(AnalyticsProtocol(limits, accepts), log) && log != []
    requires !Folded(Accepted(log[..|log| - 1]), limits).truncated.receipts
    ensures forall i :: 0 <= i < |log| - 1 ==> IdOf(log[i].op) != IdOf(log[|log| - 1].op)
  {
    var p, n := AnalyticsProtocol(limits, accepts), |log| - 1;
    LinearPrefix(p, log, n);
    StoredIsFold(limits, accepts, log[..n]);
    ReceiptsListAll(Accepted(log[..n]), limits);
    assert LinearAt(p, log, n);
    var before := Folded(Accepted(log[..n]), limits);
    assert !Seen(before, log[n].op);
    forall i | 0 <= i < n ensures IdOf(log[i].op) != IdOf(log[n].op) {
      assert before.receipts[i] == ReceiptOf(log[i].op);
    }
  }

  ghost predicate InLog(log: Log, evidence: Evidence) {
    exists i :: 0 <= i < |log| && IdOf(log[i].op) == IdOf(evidence)
  }

  /** Whoever finished, by committing or by finding the receipt, finds its evidence in the log. */
  ghost predicate FinishedAreIn(s: Processors) {
    forall c :: c in s.clients && s.clients[c].Finished? ==>
      (s.clients[c].outcome.Committed? || s.clients[c].outcome.Skipped? ==> InLog(s.log, s.clients[c].op))
  }

  lemma {:induction false} RetainedIsIn(evidence: seq<Evidence>, limits: Limits, k: nat) returns (i: nat)
    requires k < |Folded(evidence, limits).receipts|
    ensures i < |evidence| && ReceiptOf(evidence[i]) == Folded(evidence, limits).receipts[k]
    decreases |evidence|
  {
    var last := |evidence| - 1;
    var before := Folded(evidence[..last], limits);
    var table := before.receipts + [ReceiptOf(evidence[last])];
    BoundedMembers(table, limits.receipts, ReceiptTime, k);
    var m :| 0 <= m < |table| && table[m] == Folded(evidence, limits).receipts[k];
    if m < |before.receipts| {
      i := RetainedIsIn(evidence[..last], limits, m);
    } else {
      i := last;
    }
  }

  lemma SkipFindsReceipt(limits: Limits, accepts: Document<Aggregate> -> bool, log: Log, evidence: Evidence)
    requires Linear(AnalyticsProtocol(limits, accepts), log)
    requires Seen(BodyOf(Latest(log), EMPTY), evidence)
    ensures InLog(log, evidence)
  {
    StoredIsFold(limits, accepts, log);
    var document := Folded(Accepted(log), limits);
    var k :| 0 <= k < |document.receipts| && document.receipts[k].id == IdOf(evidence);
    var i := RetainedIsIn(Accepted(log), limits, k);
    assert Accepted(log)[i] == log[i].op;
  }

  lemma InLogStays(log: Log, longer: Log, evidence: Evidence)
    requires log <= longer && InLog(log, evidence)
    ensures InLog(longer, evidence)
  {
    var i :| 0 <= i < |log| && IdOf(log[i].op) == IdOf(evidence);
    assert longer[i] == log[i];
  }

  lemma FinishedStep(limits: Limits, accepts: Document<Aggregate> -> bool, s: Processors,
                     event: VersionedStore.Event<Evidence>)
    requires Invariant(AnalyticsProtocol(limits, accepts), s) && FinishedAreIn(s)
    ensures FinishedAreIn(Next(AnalyticsProtocol(limits, accepts), s, event))
  {
    var p := AnalyticsProtocol(limits, accepts);
    var after := Next(p, s, event);
    StepEffect(p, s, event);
    forall c | c in after.clients && after.clients[c].Finished?
               && (after.clients[c].outcome.Committed? || after.clients[c].outcome.Skipped?)
      ensures InLog(after.log, after.clients[c].op)
    {
      if ClientOf(s, c) == after.clients[c] {
        InLogStays(s.log, after.log, after.clients[c].op);
      } else if after.clients[c].outcome.Skipped? {
        SkipFindsReceipt(limits, accepts, s.log, after.clients[c].op);
      } else {
        assert ClientOk(p, after.log, c, after.clients[c]);
      }
    }
  }

  lemma {:induction false} FinishedRun(limits: Limits, accepts: Document<Aggregate> -> bool, s: Processors,
                                       events: seq<VersionedStore.Event<Evidence>>)
    requires Invariant(AnalyticsProtocol(limits, accepts), s) && FinishedAreIn(s)
    ensures Invariant(AnalyticsProtocol(limits, accepts), Run(AnalyticsProtocol(limits, accepts), s, events))
    ensures FinishedAreIn(Run(AnalyticsProtocol(limits, accepts), s, events))
    decreases |events|
  {
    if events != [] {
      StepEffect(AnalyticsProtocol(limits, accepts), s, events[0]);
      FinishedStep(limits, accepts, s, events[0]);
      FinishedRun(limits, accepts, Next(AnalyticsProtocol(limits, accepts), s, events[0]), events[1..]);
    }
  }

  /**
   Every run, from the empty store: totals are conserved; what was processed is counted, and while
   no receipt was evicted it is counted exactly once, whoever processed it and however often.
   */
  lemma {:induction false} EveryRunCountsOnce(limits: Limits, accepts: Document<Aggregate> -> bool,
                                              events: seq<VersionedStore.Event<Evidence>>)
    ensures var p := AnalyticsProtocol(limits, accepts);
      var s := Run(p, Initial(), events);
      var document := BodyOf(s.stored, EMPTY);
      && document == Folded(Accepted(s.log), limits)
      && Conserved(document, limits)
      && Exact(document, EventsOf(Accepted(s.log)), limits)
      && FinishedAreIn(s)
      && (!document.truncated.receipts ==>
            forall i, j :: 0 <= i < j < |s.log| ==> IdOf(s.log[i].op) != IdOf(s.log[j].op))
  {
    var p := AnalyticsProtocol(limits, accepts);
    FinishedRun(limits, accepts, Initial(), events);
    var s := Run(p, Initial(), events);
    StoredIsFold(limits, accepts, s.log);
    FoldConserves(Accepted(s.log), limits);
    FoldIsExact(Accepted(s.log), limits);
    if !BodyOf(s.stored, EMPTY).truncated.receipts { IdsAreDistinct(limits, accepts, s.log); }
  }

  /** Two runs that counted the same evidence agree on every total, whatever the order they counted it in. */
  lemma RunsAgree(limits: Limits, accepts: Document<Aggregate> -> bool, one: Log, two: Log)
    requires Linear(AnalyticsProtocol(limits, accepts), one) && Linear(AnalyticsProtocol(limits, accepts), two)
    requires multiset(Accepted(one)) == multiset(Accepted(two))
    ensures var p := AnalyticsProtocol(limits, accepts);
      SameTotals(BodyOf(Latest(one), EMPTY), BodyOf(Latest(two), EMPTY), limits)
  {
    StoredIsFold(limits, accepts, one);
    StoredIsFold(limits, accepts, two);
    EventsPermute(Accepted(one), Accepted(two));
    OrderDoesNotMatter(Accepted(one), Accepted(two), limits);
  }
}
