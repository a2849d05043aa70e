/**
 What the bounded tables of the analytics aggregate retain: over any evidence the newest annotations
 and receipts, and one step at a time the record an event counts into and the newest of the others.
 */
module AnalyticsRetention {
  import opened BoundedTables
  import opened Analytics

  /** What is kept and dropped is all there was; only a full table drops, and nothing newer than it keeps. */
  ghost predicate NewestOf<T(!new)>(all: seq<T>, kept: seq<T>, dropped: seq<T>, maximum: nat, time: T -> int) {
    && multiset(kept) + multiset(dropped) == multiset(all)
    && |kept| <= maximum && (dropped != [] ==> |kept| == maximum)
    && forall x, y :: x in multiset(kept) && y in multiset(dropped) ==> time(x) >= time(y)
  }

  lemma AsMembers<T(!new)>(kept: seq<T>, dropped: seq<T>, time: T -> int)
    requires forall i, j :: 0 <= i < |kept| && 0 <= j < |dropped| ==> time(kept[i]) >= time(dropped[j])
    ensures forall x, y :: x in multiset(kept) && y in multiset(dropped) ==> time(x) >= time(y)
  {
    forall x, y | x in multiset(kept) && y in multiset(dropped) ensures time(x) >= time(y) {
      assert x in kept && y in dropped;
    }
  }

  /** One more value for a table that retains the newest so far. */
  lemma NewestStep<T(!new)>(all: seq<T>, kept: seq<T>, dropped: seq<T>, maximum: nat, time: T -> int, value: T)
    returns (more: seq<T>)
    requires NewestOf(all, kept, dropped, maximum, time)
    ensures var bounded := BoundedNewest(kept + [value], maximum, time);
      && NewestOf(all + [value], bounded.values, dropped + more, maximum, time)
      && (bounded.truncated <==> more != [])
  {
    var bounded := BoundedNewest(kept + [value], maximum, time);
    more := NewestAreKept(kept + [value], maximum, time);
    AsMembers(bounded.values, more, time);
    assert |bounded.values| + |more| == |kept| + 1 by { SameSize(bounded.values, more, kept + [value]); }
    assert multiset(dropped + more) == multiset(dropped) + multiset(more);
    assert multiset(all + [value]) == multiset(all) + multiset{value};
    assert multiset(kept + [value]) == multiset(kept) + multiset{value};
    if dropped != [] && bounded.values != [] { StillNewer(kept, dropped, bounded.values, more, time, value); }
  }

  lemma SameSize<T>(a: seq<T>, b: seq<T>, c: seq<T>)
    requires multiset(a) + multiset(b) == multiset(c)
    ensures |a| + |b| == |c|
  {
    assert |multiset(a) + multiset(b)| == |multiset(c)|;
  }

  /** What was dropped before is no newer than what displaced what was kept. */
  lemma StillNewer<T(!new)>(kept: seq<T>, dropped: seq<T>, now: seq<T>, more: seq<T>, time: T -> int, value: T)
    requires forall x, y :: x in multiset(kept) && y in multiset(dropped) ==> time(x) >= time(y)
    requires forall x, y :: x in multiset(now) && y in multiset(more) ==> time(x) >= time(y)
    requires multiset(now) + multiset(more) == multiset(kept) + multiset{value}
    requires |now| == |kept| && |more| == 1
    ensures forall x, y :: x in multiset(now) && y in multiset(dropped) ==> time(x) >= time(y)
  {
    assert more == [more[0]] && more[0] in multiset(more);
    forall x, y | x in multiset(now) && y in multiset(dropped) ensures time(x) >= time(y) {
      assert x in multiset(now) + multiset(more);
      if x !in multiset(kept) {
        assert x == value;
        NotDisplaced(kept, now, more[0], value);
      }
    }
  }

  lemma NotDisplaced<T(!new)>(kept: seq<T>, now: seq<T>, gone: T, value: T)
    requires multiset(now) + multiset{gone} == multiset(kept) + multiset{value}
    requires value in multiset(now) && value !in multiset(kept)
    ensures gone in multiset(kept)
  {
    assert (multiset(now) + multiset{gone})[value] == (multiset(kept) + multiset{value})[value];
    assert gone in multiset(now) + multiset{gone};
  }

  // Annotations and receipts, over any evidence

  function AnnotationsOf(evidence: seq<Evidence>): seq<Annotation> {
    if evidence == [] then []
    else
      var last := |evidence| - 1;
      AnnotationsOf(evidence[..last])
      + if evidence[last].AnnotationEvidence? then [evidence[last].annotation] else []
  }

  function ReceiptsOf(evidence: seq<Evidence>): seq<Receipt> {
    if evidence == [] then []
    else ReceiptsOf(evidence[..|evidence| - 1]) + [ReceiptOf(evidence[|evidence| - 1])]
  }

  lemma AnnotationTimes(annotation: Annotation)
    ensures AnnotationTime(annotation) == annotation.occurredAt
  {
  }

  lemma {:induction false} AnnotationsRetained(evidence: seq<Evidence>, limits: Limits) returns (dropped: seq<Annotation>)
    ensures var document := Folded(evidence, limits);
      && NewestOf(AnnotationsOf(evidence), document.annotations, dropped, limits.annotations, AnnotationTime)
      && (document.truncated.annotations <==> dropped != [])
      && (!document.truncated.annotations ==> document.annotations == AnnotationsOf(evidence))
    decreases |evidence|
  {
    dropped := [];
    if evidence != [] {
      var last := |evidence| - 1;
      dropped := AnnotationsRetained(evidence[..last], limits);
      var more := AnnotationStep(AnnotationsOf(evidence[..last]), Folded(evidence[..last], limits), evidence[last], limits,
                                 dropped);
      dropped := dropped + more;
    }
  }

  lemma AnnotationStep(all: seq<Annotation>, before: Aggregate, evidence: Evidence, limits: Limits, dropped: seq<Annotation>)
    returns (more: seq<Annotation>)
    requires NewestOf(all, before.annotations, dropped, limits.annotations, AnnotationTime)
    requires before.truncated.annotations <==> dropped != []
    requires !before.truncated.annotations ==> before.annotations == all
    ensures var after := Recorded(before, evidence, limits);
      var now := all + if evidence.AnnotationEvidence? then [evidence.annotation] else [];
      && NewestOf(now, after.annotations, dropped + more, limits.annotations, AnnotationTime)
      && (after.truncated.annotations <==> dropped + more != [])
      && (!after.truncated.annotations ==> after.annotations == now)
  {
    if evidence.AnnotationEvidence? {
      more := NewestStep(all, before.annotations, dropped, limits.annotations, AnnotationTime, evidence.annotation);
    } else {
      more := [];
      assert dropped + more == dropped && all + [] == all;
    }
  }

  lemma {:induction false} ReceiptsRetained(evidence: seq<Evidence>, limits: Limits) returns (dropped: seq<Receipt>)
    ensures var document := Folded(evidence, limits);
      && NewestOf(ReceiptsOf(evidence), document.receipts, dropped, limits.receipts, ReceiptTime)
      && (document.truncated.receipts <==> dropped != [])
      && (!document.truncated.receipts ==> document.receipts == ReceiptsOf(evidence))
    decreases |evidence|
  {
    dropped := [];
    if evidence != [] {
      var last := |evidence| - 1;
      dropped := ReceiptsRetained(evidence[..last], limits);
      var before := Folded(evidence[..last], limits);
      var more := NewestStep(ReceiptsOf(evidence[..last]), before.receipts, dropped, limits.receipts, ReceiptTime,
                             ReceiptOf(evidence[last]));
      dropped := dropped + more;
    }
  }

  /** The dropped are no later than the kept: the order the lists are bounded by is the evidence's own time. */
  ghost predicate Latest<T(!new)>(kept: seq<T>, dropped: seq<T>, at: T -> int) {
    forall x, y :: x in kept && y in dropped ==> at(x) >= at(y)
  }

  /**
   Over any evidence: as many of the annotations as there is room for are retained, none of them earlier
   than one that is not; all of them, in the order recorded, exactly while nothing was dropped. The same
   holds of the receipts, one for each piece of evidence.
   */
  lemma NewestRetained(evidence: seq<Evidence>, limits: Limits)
    returns (annotations: seq<Annotation>, receipts: seq<Receipt>)
    ensures var document := Folded(evidence, limits);
      && multiset(document.annotations) + multiset(annotations) == multiset(AnnotationsOf(evidence))
      && |document.annotations|
           == (if |AnnotationsOf(evidence)| <= limits.annotations then |AnnotationsOf(evidence)| else limits.annotations)
      && Latest(document.annotations, annotations, (a: Annotation) => a.occurredAt)
      && (document.truncated.annotations <==> |AnnotationsOf(evidence)| > limits.annotations)
      && (!document.truncated.annotations ==> document.annotations == AnnotationsOf(evidence))
    ensures var document := Folded(evidence, limits);
      && multiset(document.receipts) + multiset(receipts) == multiset(ReceiptsOf(evidence))
      && |document.receipts|
           == (if |ReceiptsOf(evidence)| <= limits.receipts then |ReceiptsOf(evidence)| else limits.receipts)
      && Latest(document.receipts, receipts, (r: Receipt) => r.occurredAt)
      && (document.truncated.receipts <==> |ReceiptsOf(evidence)| > limits.receipts)
      && (!document.truncated.receipts ==> document.receipts == ReceiptsOf(evidence))
  {
    annotations := AnnotationsRetained(evidence, limits);
    receipts := ReceiptsRetained(evidence, limits);
    var document := Folded(evidence, limits);
    SameSize(document.annotations, annotations, AnnotationsOf(evidence));
    SameSize(document.receipts, receipts, ReceiptsOf(evidence));
    forall x, y | x in document.annotations && y in annotations ensures x.occurredAt >= y.occurredAt {
      assert x in multiset(document.annotations) && y in multiset(annotations);
      assert AnnotationTime(x) >= AnnotationTime(y);
    }
    forall x, y | x in document.receipts && y in receipts ensures x.occurredAt >= y.occurredAt {
      assert x in multiset(document.receipts) && y in multiset(receipts);
      assert ReceiptTime(x) >= ReceiptTime(y);
    }
  }

  // Metrics, one event at a time

  /** A content metric after one event about it. */
  ghost predicate CountsContent(before: ContentMetric, event: Event, after: ContentMetric)
    requires event.ContentEvent?
  {
    && after.contentId == before.contentId && after.contentType == before.contentType
    && after.revisionId == before.revisionId
    && after.views == before.views + (if event.action == Viewed then 1 else 0)
    && after.created == before.created + (if event.action == Created then 1 else 0)
    && after.draftUpdates == before.draftUpdates + (if event.action == DraftUpdated then 1 else 0)
    && after.publications == before.publications + (if event.action == Published then 1 else 0)
    && after.lastOccurredAt >= before.lastOccurredAt && after.lastOccurredAt >= event.occurredAt
    && (after.lastOccurredAt == before.lastOccurredAt || after.lastOccurredAt == event.occurredAt)
  }

  /** A table before and after one record was put in place of another, or behind them, and it was bounded again. */
  ghost predicate Replaced<T(!new)>(before: seq<T>, replaced: seq<T>, added: T, after: seq<T>, dropped: seq<T>,
                                    maximum: nat, at: T -> int) {
    && |replaced| <= 1 && multiset(replaced) <= multiset(before)
    && multiset(after) + multiset(dropped) == multiset(before) - multiset(replaced) + multiset{added}
    && |after| <= maximum && (dropped != [] ==> |after| == maximum)
    && Latest(after, dropped, at)
  }

  /** The record of a key replaced, or a new one behind the others, and the table bounded again. */
  lemma TableStep<T(!new), K>(before: seq<T>, key: T -> K, k: K, record: T, maximum: nat, time: T -> int)
    returns (replaced: seq<T>, dropped: seq<T>)
    ensures var i, bounded := IndexOfKey(before, key, k), BoundedNewest(Upsert(before, key, k, record), maximum, time);
      && Replaced(before, replaced, record, bounded.values, dropped, maximum, time)
      && (bounded.truncated <==> dropped != [])
      && replaced == (if i < |before| then [before[i]] else [])
    ensures replaced == [] ==> forall m :: m in before ==> key(m) != k
    ensures replaced != [] ==> key(replaced[0]) == k
  {
    var i := IndexOfKey(before, key, k);
    replaced := if i < |before| then [before[i]] else [];
    UpsertPermutes(before, key, k, record);
    dropped := Bound(Upsert(before, key, k, record), maximum, time);
  }

  lemma {:induction false} UpsertPermutes<T, K>(values: seq<T>, key: T -> K, k: K, record: T)
    ensures var i := IndexOfKey(values, key, k);
      multiset(Upsert(values, key, k, record))
        == (if i < |values| then multiset(values) - multiset{values[i]} else multiset(values)) + multiset{record}
  {
  }

  lemma Bound<T(!new)>(values: seq<T>, maximum: nat, time: T -> int) returns (dropped: seq<T>)
    ensures var bounded := BoundedNewest(values, maximum, time);
      && multiset(bounded.values) + multiset(dropped) == multiset(values)
      && |bounded.values| <= maximum && (dropped != [] ==> |bounded.values| == maximum)
      && (bounded.truncated <==> dropped != [])
      && Latest(bounded.values, dropped, time)
  {
    dropped := NewestAreKept(values, maximum, time);
    SameSize(BoundedNewest(values, maximum, time).values, dropped, values);
  }

  /**
   One content event counts once, for its content and revision: in the metric there is, or in a new one;
   of a table that is full then, only a metric that occurred no later than the others is dropped.
   */
  lemma ContentStep(document: Aggregate, event: Event, limits: Limits)
    returns (replaced: seq<ContentMetric>, added: ContentMetric, dropped: seq<ContentMetric>)
    requires event.ContentEvent?
    ensures var after := Recorded(document, EventEvidence(event), limits);
      && Replaced(document.contents, replaced, added, after.contents, dropped, limits.contents, ContentTime)
      && Latest(after.contents, dropped, (m: ContentMetric) => m.lastOccurredAt)
      && after.components == document.components && after.annotations == document.annotations
      && after.truncated.contents == (document.truncated.contents || dropped != [])
      && after.truncated.components == document.truncated.components
      && after.truncated.annotations == document.truncated.annotations
    ensures if replaced == []
      then
        && (forall m :: m in document.contents ==> !(m.contentId == event.contentId && m.revisionId == event.revisionId))
        && CountsContent(ContentMetric(event.contentId, event.contentType, event.revisionId, 0, 0, 0, 0, event.occurredAt),
                         event, added)
      else
        && replaced[0].contentId == event.contentId && replaced[0].revisionId == event.revisionId
        && CountsContent(replaced[0], event, added)
  {
    var k := KeyOfContent(event);
    var i := IndexOfKey(document.contents, ContentKeyOf, k);
    added := CountedContent(if i < |document.contents| then document.contents[i] else FreshContent(event), event);
    replaced, dropped := TableStep(document.contents, ContentKeyOf, k, added, limits.contents, ContentTime);
    ContentAfter(document, event, limits, added);
    AtTheirTime(Recorded(document, EventEvidence(event), limits).contents, dropped);
    if replaced == [] {
      forall m | m in document.contents ensures !(m.contentId == event.contentId && m.revisionId == event.revisionId) {
        assert ContentKeyOf(m) != k;
      }
    }
  }

  lemma ContentAfter(document: Aggregate, event: Event, limits: Limits, added: ContentMetric)
    requires event.ContentEvent?
    requires var i := IndexOfKey(document.contents, ContentKeyOf, KeyOfContent(event));
      added == CountedContent(if i < |document.contents| then document.contents[i] else FreshContent(event), event)
    ensures var after := Recorded(document, EventEvidence(event), limits);
      var bounded := BoundedNewest(Upsert(document.contents, ContentKeyOf, KeyOfContent(event), added),
                                   limits.contents, ContentTime);
      && after.contents == bounded.values
      && after.truncated.contents == (document.truncated.contents || bounded.truncated)
      && after.components == document.components && after.annotations == document.annotations
      && after.truncated.components == document.truncated.components
      && after.truncated.annotations == document.truncated.annotations
  {
  }

  lemma AtTheirTime(kept: seq<ContentMetric>, dropped: seq<ContentMetric>)
    requires Latest(kept, dropped, ContentTime)
    ensures Latest(kept, dropped, (m: ContentMetric) => m.lastOccurredAt)
  {
    forall x, y | x in kept && y in dropped ensures x.lastOccurredAt >= y.lastOccurredAt {
      assert ContentTime(x) >= ContentTime(y);
    }
  }

  /** A component metric after one event about it; a new name is dropped once the name table is full. */
  ghost predicate CountsComponent(before: ComponentMetric, event: Event, limits: Limits, after: ComponentMetric)
    requires !event.ContentEvent?
  {
    && after.componentId == before.componentId && after.version == before.version
    && after.views == before.views + (if event.ComponentViewed? then 1 else 0)
    && after.interactions == before.interactions + (if event.ComponentInteracted? then 1 else 0)
    && after.lastOccurredAt >= before.lastOccurredAt && after.lastOccurredAt >= event.occurredAt
    && (after.lastOccurredAt == before.lastOccurredAt || after.lastOccurredAt == event.occurredAt)
    && (event.ComponentViewed? ==> after.interactionCounts == before.interactionCounts)
    && (event.ComponentInteracted? ==>
          CountsName(before.interactionCounts, event.interaction, limits.names, after.interactionCounts))
  }

  ghost predicate CountsName(before: seq<NamedCount>, name: string, limit: nat, after: seq<NamedCount>) {
    if exists i :: FirstNamed(before, name, i)
    then exists i :: FirstNamed(before, name, i) && after == before[i := NamedCount(name, before[i].count + 1)]
    else after == if |before| < limit then before + [NamedCount(name, 1)] else before
  }

  ghost predicate FirstNamed(names: seq<NamedCount>, name: string, i: int) {
    0 <= i < |names| && names[i].name == name && forall j :: 0 <= j < i ==> names[j].name != name
  }

  lemma NamesStep(names: seq<NamedCount>, name: string, limit: nat)
    ensures CountsName(names, name, limit, NamesWith(names, name, limit))
  {
    var i := IndexOfKey(names, NameKey, name);
    if i < |names| {
      forall j | 0 <= j < i ensures names[j].name != name { assert NameKey(names[j]) != name; }
      assert NameKey(names[i]) == name;
      assert FirstNamed(names, name, i);
    } else {
      forall j | 0 <= j < |names| ensures names[j].name != name { assert NameKey(names[j]) != name; }
    }
  }

  /** One component event counts once, for its component and version, in the same way. */
  lemma ComponentStep(document: Aggregate, event: Event, limits: Limits)
    returns (replaced: seq<ComponentMetric>, added: ComponentMetric, dropped: seq<ComponentMetric>)
    requires !event.ContentEvent?
    ensures var after := Recorded(document, EventEvidence(event), limits);
      && Replaced(document.components, replaced, added, after.components, dropped, limits.components, ComponentTime)
      && Latest(after.components, dropped, (m: ComponentMetric) => m.lastOccurredAt)
      && after.contents == document.contents && after.annotations == document.annotations
      && after.truncated.components == (document.truncated.components || dropped != [])
      && after.truncated.contents == document.truncated.contents
      && after.truncated.annotations == document.truncated.annotations
    ensures if replaced == []
      then
        && (forall m :: m in document.components ==> !(m.componentId == event.componentId && m.version == event.version))
        && CountsComponent(ComponentMetric(event.componentId, event.version, 0, 0, [], event.occurredAt), event, limits,
                           added)
      else
        && replaced[0].componentId == event.componentId && replaced[0].version == event.version
        && CountsComponent(replaced[0], event, limits, added)
  {
    var k := KeyOfComponent(event);
    var i := IndexOfKey(document.components, ComponentKeyOf, k);
    var metric := if i < |document.components| then document.components[i] else FreshComponent(event);
    added := CountedComponent(metric, event, limits);
    if event.ComponentInteracted? { NamesStep(metric.interactionCounts, event.interaction, limits.names); }
    replaced, dropped := TableStep(document.components, ComponentKeyOf, k, added, limits.components, ComponentTime);
    ComponentAfter(document, event, limits, added);
    AtTheirOwnTime(Recorded(document, EventEvidence(event), limits).components, dropped);
    if replaced == [] {
      forall m | m in document.components ensures !(m.componentId == event.componentId && m.version == event.version) {
        assert ComponentKeyOf(m) != k;
      }
    }
  }

  lemma ComponentAfter(document: Aggregate, event: Event, limits: Limits, added: ComponentMetric)
    requires !event.ContentEvent?
    requires var i := IndexOfKey(document.components, ComponentKeyOf, KeyOfComponent(event));
      added == CountedComponent(if i < |document.components| then document.components[i] else FreshComponent(event),
                                event, limits)
    ensures var after := Recorded(document, EventEvidence(event), limits);
      var bounded := BoundedNewest(Upsert(document.components, ComponentKeyOf, KeyOfComponent(event), added),
                                   limits.components, ComponentTime);
      && after.components == bounded.values
      && after.truncated.components == (document.truncated.components || bounded.truncated)
      && after.contents == document.contents && after.annotations == document.annotations
      && after.truncated.contents == document.truncated.contents
      && after.truncated.annotations == document.truncated.annotations
  {
  }

  lemma AtTheirOwnTime(kept: seq<ComponentMetric>, dropped: seq<ComponentMetric>)
    requires Latest(kept, dropped, ComponentTime)
    ensures Latest(kept, dropped, (m: ComponentMetric) => m.lastOccurredAt)
  {
    forall x, y | x in kept && y in dropped ensures x.lastOccurredAt >= y.lastOccurredAt {
      assert ComponentTime(x) >= ComponentTime(y);
    }
  }
}
