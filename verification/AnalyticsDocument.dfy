/** The aggregate as the service changes it in place: counters bumped, records pushed, tables cut. */
module AnalyticsDocument {
  import opened BoundedTables
  import opened Analytics

  class AggregateDocument {
    const limits: Limits
    var eventCounts: multiset<EventName>
    var contents: seq<ContentMetric>
    var components: seq<ComponentMetric>
    var annotations: seq<Annotation>
    var receipts: seq<Receipt>
    var truncated: Truncated
    ghost var counted: seq<Evidence>

    function Value(): Analytics.Aggregate
      reads this
    {
      Analytics.Aggregate(eventCounts, contents, components, annotations, receipts, truncated)
    }

    /** The fold of the evidence counted so far, which keeps keys unique and every counter conserved. */
    ghost predicate Valid()
      reads this
    {
      Value() == Folded(counted, limits) && Conserved(Value(), limits)
    }

    constructor (limits: Limits)
      ensures Valid() && Value() == EMPTY && counted == [] && this.limits == limits
    {
      this.limits := limits;
      eventCounts, contents, components, annotations, receipts := multiset{}, [], [], [], [];
      truncated := Truncated(false, false, false, false);
      counted := [];
    }

    method CountContent(event: Event)
      requires event.ContentEvent?
      modifies this`contents, this`truncated
      ensures var bounded := BoundedNewest(ContentsWith(old(contents), event), limits.contents, ContentTime);
        && contents == bounded.values
        && truncated == old(truncated).(contents := old(truncated).contents || bounded.truncated)
    {
      var i := IndexOfKey(contents, ContentKeyOf, KeyOfContent(event));
      var current := i < |contents|;
      var metric := if current then contents[i] else FreshContent(event);
      if event.action == Viewed { metric := metric.(views := metric.views + 1); }
      if event.action == Created { metric := metric.(created := metric.created + 1); }
      if event.action == DraftUpdated { metric := metric.(draftUpdates := metric.draftUpdates + 1); }
      if event.action == Published { metric := metric.(publications := metric.publications + 1); }
      metric := metric.(lastOccurredAt := Later(metric.lastOccurredAt, event.occurredAt));
      assert metric == CountedContent(if current then contents[i] else FreshContent(event), event);
      if current { contents := contents[i := metric]; } else { contents := contents + [metric]; }
      var bounded := BoundedNewest(contents, limits.contents, ContentTime);
      contents := bounded.values;
      truncated := truncated.(contents := truncated.contents || bounded.truncated);
    }

    method CountComponent(event: Event)
      requires !event.ContentEvent?
      modifies this`components, this`truncated
      ensures var bounded := BoundedNewest(ComponentsWith(old(components), event, limits), limits.components, ComponentTime);
        && components == bounded.values
        && truncated == old(truncated).(components := old(truncated).components || bounded.truncated)
    {
      var i := IndexOfKey(components, ComponentKeyOf, KeyOfComponent(event));
      var current := i < |components|;
      var metric := if current then components[i] else FreshComponent(event);
      if event.ComponentViewed? { metric := metric.(views := metric.views + 1); }
      if event.ComponentInteracted? {
        metric := metric.(interactions := metric.interactions + 1);
        var names := metric.interactionCounts;
        var j := IndexOfKey(names, NameKey, event.interaction);
        if j < |names| {
          names := names[j := NamedCount(event.interaction, names[j].count + 1)];
        } else if |names| < limits.names {
          names := names + [NamedCount(event.interaction, 1)];
        }
        metric := metric.(interactionCounts := names);
      }
      metric := metric.(lastOccurredAt := Later(metric.lastOccurredAt, event.occurredAt));
      if current { components := components[i := metric]; } else { components := components + [metric]; }
      var bounded := BoundedNewest(components, limits.components, ComponentTime);
      components := bounded.values;
      truncated := truncated.(components := truncated.components || bounded.truncated);
    }

    method ApplyEvent(event: Event)
      modifies this`eventCounts, this`contents, this`components, this`truncated
      ensures Value() == WithEvent(old(Value()), event, limits)
    {
      var name := NameOf(event);
      eventCounts := eventCounts[name := eventCounts[name] + 1];
      assert eventCounts == old(eventCounts) + multiset{name};
      if event.ContentEvent? { CountContent(event); } else { CountComponent(event); }
    }

    method ApplyAnnotation(annotation: Annotation)
      modifies this`annotations, this`truncated
      ensures Value() == WithAnnotation(old(Value()), annotation, limits)
    {
      var bounded := BoundedNewest(annotations + [annotation], limits.annotations, AnnotationTime);
      annotations := bounded.values;
      truncated := truncated.(annotations := truncated.annotations || bounded.truncated);
    }

    method HasReceipt(id: string) returns (found: bool)
      ensures found <==> exists i :: 0 <= i < |receipts| && receipts[i].id == id
    {
      for i := 0 to |receipts|
        invariant forall j :: 0 <= j < i ==> receipts[j].id != id
      {
        if receipts[i].id == id { return true; }
      }
      return false;
    }

    method AddReceipt(receipt: Receipt)
      modifies this`receipts, this`truncated
      ensures var bounded := BoundedNewest(old(receipts) + [receipt], limits.receipts, ReceiptTime);
        && receipts == bounded.values
        && truncated == old(truncated).(receipts := old(truncated).receipts || bounded.truncated)
    {
      var bounded := BoundedNewest(receipts + [receipt], limits.receipts, ReceiptTime);
      receipts := bounded.values;
      truncated := truncated.(receipts := truncated.receipts || bounded.truncated);
    }

    /** The whole change that evidence makes. */
    method Count(evidence: Evidence)
      modifies this`eventCounts, this`contents, this`components, this`annotations, this`receipts, this`truncated
      ensures Value() == Recorded(old(Value()), evidence, limits)
    {
      match evidence {
        case EventEvidence(event) => ApplyEvent(event);
        case AnnotationEvidence(annotation) => ApplyAnnotation(annotation);
      }
      AddReceipt(ReceiptOf(evidence));
    }

    /** The change of one attempt: nothing for evidence with a receipt, the whole record otherwise. */
    method Record(evidence: Evidence) returns (changed: bool)
      requires Valid()
      modifies this
      ensures Valid() && counted == if changed then old(counted) + [evidence] else old(counted)
      ensures changed <==> !Seen(old(Value()), evidence)
      ensures Value() == if changed then Recorded(old(Value()), evidence, limits) else old(Value())
    {
      var found := HasReceipt(ReceiptOf(evidence).id);
      if found { return false; }
      Count(evidence);
      RecordConserves(old(Value()), evidence, limits);
      assert (counted + [evidence])[..|counted|] == counted;
      counted := counted + [evidence];
      return true;
    }
  }
}
