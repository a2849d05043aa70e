/** The analytics aggregate: evidence folded into counts and bounded tables, and what the totals mean. */
module Analytics {
  import opened BoundedTables

  datatype ContentAction = Viewed | Created | DraftUpdated | Published
  datatype EventName = OnContent(action: ContentAction) | OnComponentViewed | OnComponentInteracted

  datatype Event =
    | ContentEvent(
        id: string, occurredAt: int, action: ContentAction, contentId: string, contentType: string, revisionId: string)
    | ComponentViewed(id: string, occurredAt: int, componentId: string, version: string)
    | ComponentInteracted(id: string, occurredAt: int, componentId: string, version: string, interaction: string)

  datatype Annotation = Annotation(id: string, occurredAt: int, payload: string)
  datatype Evidence = EventEvidence(event: Event) | AnnotationEvidence(annotation: Annotation)

  datatype ContentKey = ContentKey(contentId: string, revisionId: string)
  datatype ComponentKey = ComponentKey(componentId: string, version: string)

  datatype ContentMetric = ContentMetric(
    contentId: string, contentType: string, revisionId: string,
    views: nat, created: nat, draftUpdates: nat, publications: nat, lastOccurredAt: int)
  datatype NamedCount = NamedCount(name: string, count: nat)
  datatype ComponentMetric = ComponentMetric(
    componentId: string, version: string, views: nat, interactions: nat,
    interactionCounts: seq<NamedCount>, lastOccurredAt: int)
  datatype Receipt = Receipt(id: string, occurredAt: int)
  datatype Truncated = Truncated(contents: bool, components: bool, annotations: bool, receipts: bool)

  datatype Aggregate = Aggregate(
    eventCounts: multiset<EventName>, contents: seq<ContentMetric>, components: seq<ComponentMetric>,
    annotations: seq<Annotation>, receipts: seq<Receipt>, truncated: Truncated)

  datatype Limits = Limits(contents: nat, components: nat, names: nat, annotations: nat, receipts: nat)

  const EMPTY := Aggregate(multiset{}, [], [], [], [], Truncated(false, false, false, false))

  function Later(left: int, right: int): int {
    if left >= right then left else right
  }

  function NameOf(event: Event): EventName {
    match event
    case ContentEvent(_, _, action, _, _, _) => OnContent(action)
    case ComponentViewed(_, _, _, _) => OnComponentViewed
    case ComponentInteracted(_, _, _, _, _) => OnComponentInteracted
  }

  function ContentKeyOf(metric: ContentMetric): ContentKey { ContentKey(metric.contentId, metric.revisionId) }
  function ComponentKeyOf(metric: ComponentMetric): ComponentKey { ComponentKey(metric.componentId, metric.version) }
  function NameKey(entry: NamedCount): string { entry.name }
  function ContentTime(metric: ContentMetric): int { metric.lastOccurredAt }
  function ComponentTime(metric: ComponentMetric): int { metric.lastOccurredAt }
  function AnnotationTime(annotation: Annotation): int { annotation.occurredAt }
  function ReceiptTime(receipt: Receipt): int { receipt.occurredAt }

  function KeyOfContent(event: Event): ContentKey
    requires event.ContentEvent?
  {
    ContentKey(event.contentId, event.revisionId)
  }

  function KeyOfComponent(event: Event): ComponentKey
    requires !event.ContentEvent?
  {
    ComponentKey(event.componentId, event.version)
  }

  // applyEvent

  function FreshContent(event: Event): ContentMetric
    requires event.ContentEvent?
  {
    ContentMetric(event.contentId, event.contentType, event.revisionId, 0, 0, 0, 0, event.occurredAt)
  }

  function CountedContent(metric: ContentMetric, event: Event): ContentMetric
    requires event.ContentEvent?
  {
    metric.(views := metric.views + (if event.action == Viewed then 1 else 0),
            created := metric.created + (if event.action == Created then 1 else 0),
            draftUpdates := metric.draftUpdates + (if event.action == DraftUpdated then 1 else 0),
            publications := metric.publications + (if event.action == Published then 1 else 0),
            lastOccurredAt := Later(metric.lastOccurredAt, event.occurredAt))
  }

  function ContentsWith(contents: seq<ContentMetric>, event: Event): seq<ContentMetric>
    requires event.ContentEvent?
  {
    var k := KeyOfContent(event);
    var i := IndexOfKey(contents, ContentKeyOf, k);
    var metric := if i < |contents| then contents[i] else FreshContent(event);
    Upsert(contents, ContentKeyOf, k, CountedContent(metric, event))
  }

  function FreshComponent(event: Event): ComponentMetric
    requires !event.ContentEvent?
  {
    ComponentMetric(event.componentId, event.version, 0, 0, [], event.occurredAt)
  }

  /** A new name is dropped once the name table is full; the interaction itself still counts. */
  function NamesWith(names: seq<NamedCount>, name: string, limit: nat): seq<NamedCount> {
    var i := IndexOfKey(names, NameKey, name);
    if i < |names| then names[i := NamedCount(name, names[i].count + 1)]
    else if |names| < limit then names + [NamedCount(name, 1)]
    else names
  }

  function CountedComponent(metric: ComponentMetric, event: Event, limits: Limits): ComponentMetric
    requires !event.ContentEvent?
  {
    var last := Later(metric.lastOccurredAt, event.occurredAt);
    if event.ComponentViewed? then metric.(views := metric.views + 1, lastOccurredAt := last)
    else metric.(interactions := metric.interactions + 1,
                 interactionCounts := NamesWith(metric.interactionCounts, event.interaction, limits.names),
                 lastOccurredAt := last)
  }

  function ComponentsWith(components: seq<ComponentMetric>, event: Event, limits: Limits): seq<ComponentMetric>
    requires !event.ContentEvent?
  {
    var k := KeyOfComponent(event);
    var i := IndexOfKey(components, ComponentKeyOf, k);
    var metric := if i < |components| then components[i] else FreshComponent(event);
    Upsert(components, ComponentKeyOf, k, CountedComponent(metric, event, limits))
  }

  function WithEvent(document: Aggregate, event: Event, limits: Limits): Aggregate {
    var counted := document.(eventCounts := document.eventCounts + multiset{NameOf(event)});
    if event.ContentEvent? then
      var bounded := BoundedNewest(ContentsWith(document.contents, event), limits.contents, ContentTime);
      counted.(contents := bounded.values,
               truncated := document.truncated.(contents := document.truncated.contents || bounded.truncated))
    else
      var bounded := BoundedNewest(ComponentsWith(document.components, event, limits), limits.components, ComponentTime);
      counted.(components := bounded.values,
               truncated := document.truncated.(components := document.truncated.components || bounded.truncated))
  }

  function WithAnnotation(document: Aggregate, annotation: Annotation, limits: Limits): Aggregate {
    var bounded := BoundedNewest(document.annotations + [annotation], limits.annotations, AnnotationTime);
    document.(annotations := bounded.values,
              truncated := document.truncated.(annotations := document.truncated.annotations || bounded.truncated))
  }

  function ReceiptOf(evidence: Evidence): Receipt {
    match evidence
    case EventEvidence(event) => Receipt(event.id, event.occurredAt)
    case AnnotationEvidence(annotation) => Receipt(annotation.id, annotation.occurredAt)
  }

  /** The whole change one piece of evidence makes. */
  function Recorded(document: Aggregate, evidence: Evidence, limits: Limits): Aggregate {
    var applied := match evidence
      case EventEvidence(event) => WithEvent(document, event, limits)
      case AnnotationEvidence(annotation) => WithAnnotation(document, annotation, limits);
    var bounded := BoundedNewest(document.receipts + [ReceiptOf(evidence)], limits.receipts, ReceiptTime);
    applied.(receipts := bounded.values,
             truncated := applied.truncated.(receipts := document.truncated.receipts || bounded.truncated))
  }

  predicate Seen(document: Aggregate, evidence: Evidence) {
    exists i :: 0 <= i < |document.receipts| && document.receipts[i].id == ReceiptOf(evidence).id
  }

  function Folded(evidence: seq<Evidence>, limits: Limits): Aggregate {
    if evidence == [] then EMPTY
    else
      var last := |evidence| - 1;
      Recorded(Folded(evidence[..last], limits), evidence[last], limits)
  }

  // Conservation, whatever was truncated

  function ContentCounter(action: ContentAction): ContentMetric -> nat {
    (metric: ContentMetric) => match action
      case Viewed => metric.views
      case Created => metric.created
      case DraftUpdated => metric.draftUpdates
      case Published => metric.publications
  }

  function ComponentCounter(interacted: bool): ComponentMetric -> nat {
    (metric: ComponentMetric) => if interacted then metric.interactions else metric.views
  }

  function CountOf(entry: NamedCount): nat { entry.count }

  /** The named counts of a component: at most its interactions, and all of them below the cap. */
  ghost predicate NamesConserved(metric: ComponentMetric, limits: Limits) {
    && UniqueKeys(metric.interactionCounts, NameKey)
    && |metric.interactionCounts| <= limits.names
    && Sum(metric.interactionCounts, CountOf) <= metric.interactions
    && (|metric.interactionCounts| < limits.names ==> Sum(metric.interactionCounts, CountOf) == metric.interactions)
  }

  ghost predicate ContentsConserved(document: Aggregate, limits: Limits) {
    && |document.contents| <= limits.contents
    && UniqueKeys(document.contents, ContentKeyOf)
    && (forall action :: Sum(document.contents, ContentCounter(action)) <= document.eventCounts[OnContent(action)])
    && (!document.truncated.contents ==>
          forall action :: Sum(document.contents, ContentCounter(action)) == document.eventCounts[OnContent(action)])
  }

  function ComponentName(interacted: bool): EventName {
    if interacted then OnComponentInteracted else OnComponentViewed
  }

  ghost predicate ComponentsConserved(document: Aggregate, limits: Limits) {
    && |document.components| <= limits.components
    && UniqueKeys(document.components, ComponentKeyOf)
    && (forall interacted ::
          Sum(document.components, ComponentCounter(interacted)) <= document.eventCounts[ComponentName(interacted)])
    && (!document.truncated.components ==> forall interacted ::
          Sum(document.components, ComponentCounter(interacted)) == document.eventCounts[ComponentName(interacted)])
    && forall i :: 0 <= i < |document.components| ==> NamesConserved(document.components[i], limits)
  }

  ghost predicate Conserved(document: Aggregate, limits: Limits) {
    ContentsConserved(document, limits) && ComponentsConserved(document, limits)
  }

  lemma {:induction false} UpsertSum<T, K>(values: seq<T>, key: T -> K, k: K, record: T, f: T -> nat)
    ensures var i := IndexOfKey(values, key, k);
      Sum(Upsert(values, key, k, record), f)
        == if i < |values| then Sum(values, f) - f(values[i]) + f(record) else Sum(values, f) + f(record)
  {
    var i := IndexOfKey(values, key, k);
    if i < |values| { SumUpdate(values, i, record, f); } else { SumAppend(values, record, f); }
  }

  lemma NamesStep(metric: ComponentMetric, event: Event, limits: Limits)
    requires NamesConserved(metric, limits) && !event.ContentEvent?
    ensures NamesConserved(CountedComponent(metric, event, limits), limits)
  {
    if event.ComponentInteracted? {
      var names := metric.interactionCounts;
      var i := IndexOfKey(names, NameKey, event.interaction);
      var entry := NamedCount(event.interaction, if i < |names| then names[i].count + 1 else 1);
      UpsertKeepsUnique(names, NameKey, event.interaction, entry);
      UpsertSum(names, NameKey, event.interaction, entry, CountOf);
    }
  }

  lemma ContentsStep(document: Aggregate, event: Event, limits: Limits)
    requires ContentsConserved(document, limits) && event.ContentEvent?
    ensures ContentsConserved(WithEvent(document, event, limits), limits)
  {
    var k := KeyOfContent(event);
    var i := IndexOfKey(document.contents, ContentKeyOf, k);
    var metric := if i < |document.contents| then document.contents[i] else FreshContent(event);
    var table := ContentsWith(document.contents, event);
    UpsertKeepsUnique(document.contents, ContentKeyOf, k, CountedContent(metric, event));
    BoundKeepsUnique(table, limits.contents, ContentTime, ContentKeyOf);
    var after := WithEvent(document, event, limits);
    forall action
      ensures Sum(after.contents, ContentCounter(action)) <= after.eventCounts[OnContent(action)]
      ensures !after.truncated.contents ==>
        Sum(after.contents, ContentCounter(action)) == after.eventCounts[OnContent(action)]
    {
      ContentSums(document, event, limits, action);
    }
  }

  lemma ContentSums(document: Aggregate, event: Event, limits: Limits, action: ContentAction)
    requires ContentsConserved(document, limits) && event.ContentEvent?
    ensures var after := WithEvent(document, event, limits);
      var sum, count := Sum(after.contents, ContentCounter(action)), after.eventCounts[OnContent(action)];
      sum <= count && (!after.truncated.contents ==> sum == count)
  {
    var k := KeyOfContent(event);
    var i := IndexOfKey(document.contents, ContentKeyOf, k);
    var metric := if i < |document.contents| then document.contents[i] else FreshContent(event);
    CountedOnce(metric, event, action);
    UpsertSum(document.contents, ContentKeyOf, k, CountedContent(metric, event), ContentCounter(action));
    SumBounded(ContentsWith(document.contents, event), limits.contents, ContentTime, ContentCounter(action));
  }

  lemma CountedOnce(metric: ContentMetric, event: Event, action: ContentAction)
    requires event.ContentEvent?
    ensures ContentCounter(action)(CountedContent(metric, event))
         == ContentCounter(action)(metric) + if event.action == action then 1 else 0
  {
  }

  lemma BoundedMembers<T>(values: seq<T>, maximum: nat, time: T -> int, i: nat)
    requires i < |BoundedNewest(values, maximum, time).values|
    ensures BoundedNewest(values, maximum, time).values[i] in values
  {
    if |values| > maximum {
      SortPermutes(values, time);
      assert SortNewest(values, time)[i] in multiset(values);
    }
  }

  lemma ComponentSums(document: Aggregate, event: Event, limits: Limits, interacted: bool)
    requires ComponentsConserved(document, limits) && !event.ContentEvent?
    ensures var after := WithEvent(document, event, limits);
      var sum, count := Sum(after.components, ComponentCounter(interacted)), after.eventCounts[ComponentName(interacted)];
      sum <= count && (!after.truncated.components ==> sum == count)
  {
    var k := KeyOfComponent(event);
    var i := IndexOfKey(document.components, ComponentKeyOf, k);
    var metric := if i < |document.components| then document.components[i] else FreshComponent(event);
    UpsertSum(document.components, ComponentKeyOf, k, CountedComponent(metric, event, limits), ComponentCounter(interacted));
    SumBounded(ComponentsWith(document.components, event, limits), limits.components, ComponentTime,
               ComponentCounter(interacted));
  }

  lemma ComponentNamesStep(document: Aggregate, event: Event, limits: Limits)
    requires ComponentsConserved(document, limits) && !event.ContentEvent?
    ensures var after := WithEvent(document, event, limits);
      forall j :: 0 <= j < |after.components| ==> NamesConserved(after.components[j], limits)
  {
    var i := IndexOfKey(document.components, ComponentKeyOf, KeyOfComponent(event));
    var metric := if i < |document.components| then document.components[i] else FreshComponent(event);
    var table := ComponentsWith(document.components, event, limits);
    NamesStep(metric, event, limits);
    var after := WithEvent(document, event, limits);
    forall j | 0 <= j < |after.components| ensures NamesConserved(after.components[j], limits) {
      BoundedMembers(table, limits.components, ComponentTime, j);
    }
  }

  lemma ComponentsStep(document: Aggregate, event: Event, limits: Limits)
    requires ComponentsConserved(document, limits) && !event.ContentEvent?
    ensures ComponentsConserved(WithEvent(document, event, limits), limits)
  {
    var k := KeyOfComponent(event);
    var i := IndexOfKey(document.components, ComponentKeyOf, k);
    var metric := if i < |document.components| then document.components[i] else FreshComponent(event);
    var table := ComponentsWith(document.components, event, limits);
    UpsertKeepsUnique(document.components, ComponentKeyOf, k, CountedComponent(metric, event, limits));
    BoundKeepsUnique(table, limits.components, ComponentTime, ComponentKeyOf);
    ComponentNamesStep(document, event, limits);
    var after := WithEvent(document, event, limits);
    forall interacted
      ensures Sum(after.components, ComponentCounter(interacted)) <= after.eventCounts[ComponentName(interacted)]
      ensures !after.truncated.components ==>
        Sum(after.components, ComponentCounter(interacted)) == after.eventCounts[ComponentName(interacted)]
    {
      ComponentSums(document, event, limits, interacted);
    }
  }

  /** Totals are conserved by every piece of evidence, duplicates and evictions included. */
  lemma RecordConserves(document: Aggregate, evidence: Evidence, limits: Limits)
    requires Conserved(document, limits)
    ensures Conserved(Recorded(document, evidence, limits), limits)
  {
    match evidence
    case EventEvidence(event) =>
      if event.ContentEvent? { ContentsStep(document, event, limits); } else { ComponentsStep(document, event, limits); }
    case AnnotationEvidence(_) =>
  }

  lemma {:induction false} FoldConserves(evidence: seq<Evidence>, limits: Limits)
    ensures Conserved(Folded(evidence, limits), limits)
    decreases |evidence|
  {
    if evidence != [] {
      var last := |evidence| - 1;
      FoldConserves(evidence[..last], limits);
      RecordConserves(Folded(evidence[..last], limits), evidence[last], limits);
    }
  }
}
