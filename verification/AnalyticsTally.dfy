/**
 What an untruncated aggregate says, independently of how it was computed: every counter is the
 number of events it stands for, so the order of the events does not matter.
 */
module AnalyticsTally {
  import opened BoundedTables
  import opened Analytics

  // Counting events

  datatype Query =
    | ByName(name: EventName)
    | ByContent(content: ContentKey, action: ContentAction)
    | ByComponent(component: ComponentKey, interacted: bool)
    | ByInteraction(component: ComponentKey, interaction: string)

  predicate Matches(query: Query, event: Event) {
    match query
    case ByName(name) => NameOf(event) == name
    case ByContent(key, action) => event.ContentEvent? && KeyOfContent(event) == key && event.action == action
    case ByComponent(key, interacted) =>
      !event.ContentEvent? && KeyOfComponent(event) == key && event.ComponentInteracted? == interacted
    case ByInteraction(key, interaction) =>
      event.ComponentInteracted? && KeyOfComponent(event) == key && event.interaction == interaction
  }

  function Tally(events: seq<Event>, query: Query): nat {
    if events == [] then 0
    else
      var last := |events| - 1;
      Tally(events[..last], query) + if Matches(query, events[last]) then 1 else 0
  }

  lemma {:induction false} TallyAppend(events: seq<Event>, event: Event, query: Query)
    ensures Tally(events + [event], query) == Tally(events, query) + if Matches(query, event) then 1 else 0
  {
    assert (events + [event])[..|events|] == events;
  }

  lemma {:induction false} TallyNone(events: seq<Event>, query: Query)
    requires forall i :: 0 <= i < |events| ==> !Matches(query, events[i])
    ensures Tally(events, query) == 0
    decreases |events|
  {
    if events != [] { TallyNone(events[..|events| - 1], query); }
  }

  lemma {:induction false} TallyConcat(a: seq<Event>, b: seq<Event>, query: Query)
    ensures Tally(a + b, query) == Tally(a, query) + Tally(b, query)
    decreases |b|
  {
    if b == [] {
      assert a + b == a;
    } else {
      var last := |b| - 1;
      assert (a + b)[..|a| + last] == a + b[..last];
      TallyConcat(a, b[..last], query);
    }
  }

  lemma WithoutOne<T>(a: seq<T>, x: T, b: seq<T>, i: nat)
    requires multiset(a + [x]) == multiset(b) && i < |b| && b[i] == x
    ensures multiset(a) == multiset(b[..i] + b[i + 1..])
  {
    assert b == b[..i] + [x] + b[i + 1..];
    assert multiset(b) == multiset(b[..i] + b[i + 1..]) + multiset{x};
    assert multiset(a) == multiset(a + [x]) - multiset{x};
  }

  lemma {:induction false} TallyPermutes(a: seq<Event>, b: seq<Event>, query: Query)
    requires multiset(a) == multiset(b)
    ensures Tally(a, query) == Tally(b, query)
    decreases |a|
  {
    if a == [] {
      assert |multiset(b)| == 0;
    } else {
      var last := |a| - 1;
      var x := a[last];
      assert a == a[..last] + [x];
      assert x in multiset(b);
      var i :| 0 <= i < |b| && b[i] == x;
      WithoutOne(a[..last], x, b, i);
      TallyPermutes(a[..last], b[..i] + b[i + 1..], query);
      TallyPut(b, i, query);
    }
  }

  lemma {:induction false} TallyPut(events: seq<Event>, i: nat, query: Query)
    requires i < |events|
    ensures Tally(events, query) == Tally(events[..i] + events[i + 1..], query) + if Matches(query, events[i]) then 1 else 0
  {
    assert events == events[..i] + [events[i]] + events[i + 1..];
    TallyAppend(events[..i], events[i], query);
    TallyConcat(events[..i] + [events[i]], events[i + 1..], query);
    TallyConcat(events[..i], events[i + 1..], query);
  }

  // Contents

  ghost predicate OfContent(events: seq<Event>, i: int, key: ContentKey) {
    0 <= i < |events| && events[i].ContentEvent? && KeyOfContent(events[i]) == key
  }

  /** A metric that counts exactly the events of its key, and shows the latest of their times. */
  ghost predicate ContentExact(metric: ContentMetric, events: seq<Event>) {
    var key := ContentKeyOf(metric);
    && (forall action :: ContentCounter(action)(metric) == Tally(events, ByContent(key, action)))
    && (exists i :: OfContent(events, i, key) && events[i].occurredAt == metric.lastOccurredAt)
    && (forall i :: OfContent(events, i, key) ==> events[i].occurredAt <= metric.lastOccurredAt)
  }

  ghost predicate HasContent(contents: seq<ContentMetric>, key: ContentKey) {
    exists i :: 0 <= i < |contents| && ContentKeyOf(contents[i]) == key
  }

  ghost predicate ContentsExact(contents: seq<ContentMetric>, events: seq<Event>) {
    && UniqueKeys(contents, ContentKeyOf)
    && (forall i :: 0 <= i < |contents| ==> ContentExact(contents[i], events))
    && (forall i :: 0 <= i < |events| && events[i].ContentEvent? ==> HasContent(contents, KeyOfContent(events[i])))
  }

  /** An event of another key leaves a metric exact. */
  lemma OtherContent(metric: ContentMetric, events: seq<Event>, event: Event)
    requires ContentExact(metric, events)
    requires event.ContentEvent? ==> KeyOfContent(event) != ContentKeyOf(metric)
    ensures ContentExact(metric, events + [event])
  {
    var key := ContentKeyOf(metric);
    forall action ensures ContentCounter(action)(metric) == Tally(events + [event], ByContent(key, action)) {
      TallyAppend(events, event, ByContent(key, action));
    }
    var i :| OfContent(events, i, key) && events[i].occurredAt == metric.lastOccurredAt;
    assert OfContent(events + [event], i, key);
    forall j | OfContent(events + [event], j, key) ensures (events + [event])[j].occurredAt <= metric.lastOccurredAt {
      assert OfContent(events, j, key);
    }
  }

  lemma SameContent(metric: ContentMetric, events: seq<Event>, event: Event)
    requires event.ContentEvent? && KeyOfContent(event) == ContentKeyOf(metric)
    requires ContentExact(metric, events)
      || (metric == FreshContent(event) && forall i :: !OfContent(events, i, KeyOfContent(event)))
    ensures ContentExact(CountedContent(metric, event), events + [event])
  {
    var key, all, after := ContentKeyOf(metric), events + [event], CountedContent(metric, event);
    forall action ensures ContentCounter(action)(after) == Tally(all, ByContent(key, action)) {
      TallyAppend(events, event, ByContent(key, action));
      if !ContentExact(metric, events) {
        forall i | 0 <= i < |events| ensures !Matches(ByContent(key, action), events[i]) {
          assert !OfContent(events, i, key);
        }
        TallyNone(events, ByContent(key, action));
      }
    }
    assert OfContent(all, |events|, key);
    if i :| OfContent(events, i, key) && events[i].occurredAt == metric.lastOccurredAt {
      assert OfContent(all, i, key);
    }
    forall j | OfContent(all, j, key) ensures all[j].occurredAt <= after.lastOccurredAt {
      if j < |events| { assert OfContent(events, j, key); }
    }
  }

  lemma ContentsExactStep(contents: seq<ContentMetric>, events: seq<Event>, event: Event)
    requires ContentsExact(contents, events) && event.ContentEvent?
    ensures ContentsExact(ContentsWith(contents, event), events + [event])
  {
    var k := KeyOfContent(event);
    var i := IndexOfKey(contents, ContentKeyOf, k);
    var metric := if i < |contents| then contents[i] else FreshContent(event);
    var after := ContentsWith(contents, event);
    UpsertKeepsUnique(contents, ContentKeyOf, k, CountedContent(metric, event));
    UniqueByIndex(contents, ContentKeyOf);
    if i == |contents| {
      assert !HasContent(contents, k);
      assert forall j :: !OfContent(events, j, k);
    }
    SameContent(metric, events, event);
    forall j | 0 <= j < |after| ensures ContentExact(after[j], events + [event]) {
      if j != i { OtherContent(contents[j], events, event); }
    }
    ContentsStay(contents, events, event);
  }

  lemma ContentsStay(contents: seq<ContentMetric>, events: seq<Event>, event: Event)
    requires event.ContentEvent?
    requires forall j :: 0 <= j < |events| && events[j].ContentEvent? ==> HasContent(contents, KeyOfContent(events[j]))
    ensures var all := events + [event];
      forall j :: 0 <= j < |all| && all[j].ContentEvent? ==> HasContent(ContentsWith(contents, event), KeyOfContent(all[j]))
  {
    var k, all, after := KeyOfContent(event), events + [event], ContentsWith(contents, event);
    var i := IndexOfKey(contents, ContentKeyOf, k);
    assert ContentKeyOf(after[i]) == k;
    forall j | 0 <= j < |all| && all[j].ContentEvent? ensures HasContent(after, KeyOfContent(all[j])) {
      if j < |events| {
        var m :| 0 <= m < |contents| && ContentKeyOf(contents[m]) == KeyOfContent(events[j]);
        assert ContentKeyOf(after[m]) == ContentKeyOf(contents[m]);
      }
    }
  }

  // Components

  ghost predicate OfComponent(events: seq<Event>, i: int, key: ComponentKey) {
    0 <= i < |events| && !events[i].ContentEvent? && KeyOfComponent(events[i]) == key
  }

  ghost predicate HasName(names: seq<NamedCount>, name: string) {
    exists i :: 0 <= i < |names| && names[i].name == name
  }

  /** Every listed name counts exactly its interactions; a name is missing only from a full table. */
  ghost predicate NamesExact(names: seq<NamedCount>, key: ComponentKey, events: seq<Event>, limits: Limits) {
    && UniqueKeys(names, NameKey)
    && (forall i :: 0 <= i < |names| ==> names[i].count == Tally(events, ByInteraction(key, names[i].name)))
    && (|names| < limits.names ==>
          forall i :: OfComponent(events, i, key) && events[i].ComponentInteracted? ==> HasName(names, events[i].interaction))
  }

  ghost predicate ComponentExact(metric: ComponentMetric, events: seq<Event>, limits: Limits) {
    var key := ComponentKeyOf(metric);
    && (forall interacted :: ComponentCounter(interacted)(metric) == Tally(events, ByComponent(key, interacted)))
    && NamesExact(metric.interactionCounts, key, events, limits)
    && (exists i :: OfComponent(events, i, key) && events[i].occurredAt == metric.lastOccurredAt)
    && (forall i :: OfComponent(events, i, key) ==> events[i].occurredAt <= metric.lastOccurredAt)
  }

  ghost predicate HasComponent(components: seq<ComponentMetric>, key: ComponentKey) {
    exists i :: 0 <= i < |components| && ComponentKeyOf(components[i]) == key
  }

  ghost predicate ComponentsExact(components: seq<ComponentMetric>, events: seq<Event>, limits: Limits) {
    && UniqueKeys(components, ComponentKeyOf)
    && (forall i :: 0 <= i < |components| ==> ComponentExact(components[i], events, limits))
    && (forall i :: 0 <= i < |events| && !events[i].ContentEvent? ==> HasComponent(components, KeyOfComponent(events[i])))
  }

  /** An event that is no interaction of the component leaves its names exact. */
  lemma OtherNames(names: seq<NamedCount>, key: ComponentKey, events: seq<Event>, event: Event, limits: Limits)
    requires NamesExact(names, key, events, limits)
    requires !(event.ComponentInteracted? && KeyOfComponent(event) == key)
    ensures NamesExact(names, key, events + [event], limits)
  {
    var all := events + [event];
    forall i | 0 <= i < |names| ensures names[i].count == Tally(all, ByInteraction(key, names[i].name)) {
      TallyAppend(events, event, ByInteraction(key, names[i].name));
    }
    forall i | OfComponent(all, i, key) && all[i].ComponentInteracted? && |names| < limits.names
      ensures HasName(names, all[i].interaction)
    {
      assert OfComponent(events, i, key);
    }
  }

  lemma NamesExactStep(names: seq<NamedCount>, key: ComponentKey, events: seq<Event>, event: Event, limits: Limits)
    requires NamesExact(names, key, events, limits)
    requires event.ComponentInteracted? && KeyOfComponent(event) == key
    ensures NamesExact(NamesWith(names, event.interaction, limits.names), key, events + [event], limits)
  {
    var all, after := events + [event], NamesWith(names, event.interaction, limits.names);
    var i := IndexOfKey(names, NameKey, event.interaction);
    UniqueByIndex(names, NameKey);
    UpsertKeepsUnique(names, NameKey, event.interaction,
                      NamedCount(event.interaction, if i < |names| then names[i].count + 1 else 1));
    forall j | 0 <= j < |after| ensures after[j].count == Tally(all, ByInteraction(key, after[j].name)) {
      TallyAppend(events, event, ByInteraction(key, after[j].name));
      if i == j == |names| { NewName(names, key, events, event.interaction, limits); }
    }
    forall j | OfComponent(all, j, key) && all[j].ComponentInteracted? && |after| < limits.names
      ensures HasName(after, all[j].interaction)
    {
      assert after[i].name == event.interaction;
      if j < |events| {
        assert OfComponent(events, j, key);
        var m :| 0 <= m < |names| && names[m].name == events[j].interaction;
        assert after[m].name == names[m].name;
      }
    }
  }

  lemma {:induction false} NewName(names: seq<NamedCount>, key: ComponentKey, events: seq<Event>, name: string,
                                   limits: Limits)
    requires NamesExact(names, key, events, limits) && |names| < limits.names
    requires forall i :: 0 <= i < |names| ==> names[i].name != name
    ensures Tally(events, ByInteraction(key, name)) == 0
  {
    assert !HasName(names, name);
    forall i | 0 <= i < |events| ensures !Matches(ByInteraction(key, name), events[i]) {
      assert OfComponent(events, i, key) && events[i].ComponentInteracted? ==> HasName(names, events[i].interaction);
    }
    TallyNone(events, ByInteraction(key, name));
  }

  lemma OtherComponent(metric: ComponentMetric, events: seq<Event>, event: Event, limits: Limits)
    requires ComponentExact(metric, events, limits)
    requires !event.ContentEvent? ==> KeyOfComponent(event) != ComponentKeyOf(metric)
    ensures ComponentExact(metric, events + [event], limits)
  {
    var key, all := ComponentKeyOf(metric), events + [event];
    forall interacted ensures ComponentCounter(interacted)(metric) == Tally(all, ByComponent(key, interacted)) {
      TallyAppend(events, event, ByComponent(key, interacted));
    }
    OtherNames(metric.interactionCounts, key, events, event, limits);
    var i :| OfComponent(events, i, key) && events[i].occurredAt == metric.lastOccurredAt;
    assert OfComponent(all, i, key);
    forall j | OfComponent(all, j, key) ensures all[j].occurredAt <= metric.lastOccurredAt {
      assert OfComponent(events, j, key);
    }
  }

  /** A metric of no events at all: what a new component starts from. */
  lemma {:induction false} FreshIsEmpty(events: seq<Event>, event: Event, limits: Limits)
    requires !event.ContentEvent? && forall i :: !OfComponent(events, i, KeyOfComponent(event))
    ensures forall interacted :: Tally(events, ByComponent(KeyOfComponent(event), interacted)) == 0
    ensures NamesExact([], KeyOfComponent(event), events, limits)
  {
    var key := KeyOfComponent(event);
    forall interacted ensures Tally(events, ByComponent(key, interacted)) == 0 {
      forall i | 0 <= i < |events| ensures !Matches(ByComponent(key, interacted), events[i]) {
        assert !OfComponent(events, i, key);
      }
      TallyNone(events, ByComponent(key, interacted));
    }
  }

  lemma SameComponent(metric: ComponentMetric, events: seq<Event>, event: Event, limits: Limits)
    requires !event.ContentEvent? && KeyOfComponent(event) == ComponentKeyOf(metric)
    requires ComponentExact(metric, events, limits)
      || (metric == FreshComponent(event) && forall i :: !OfComponent(events, i, KeyOfComponent(event)))
    ensures ComponentExact(CountedComponent(metric, event, limits), events + [event], limits)
  {
    var key, all, after := ComponentKeyOf(metric), events + [event], CountedComponent(metric, event, limits);
    if !ComponentExact(metric, events, limits) { FreshIsEmpty(events, event, limits); }
    forall interacted ensures ComponentCounter(interacted)(after) == Tally(all, ByComponent(key, interacted)) {
      TallyAppend(events, event, ByComponent(key, interacted));
    }
    if event.ComponentInteracted? {
      NamesExactStep(metric.interactionCounts, key, events, event, limits);
    } else {
      OtherNames(metric.interactionCounts, key, events, event, limits);
    }
    assert OfComponent(all, |events|, key);
    if i :| OfComponent(events, i, key) && events[i].occurredAt == metric.lastOccurredAt {
      assert OfComponent(all, i, key);
    }
    forall j | OfComponent(all, j, key) ensures all[j].occurredAt <= after.lastOccurredAt {
      if j < |events| { assert OfComponent(events, j, key); }
    }
  }

  lemma ComponentsExactStep(components: seq<ComponentMetric>, events: seq<Event>, event: Event, limits: Limits)
    requires ComponentsExact(components, events, limits) && !event.ContentEvent?
    ensures ComponentsExact(ComponentsWith(components, event, limits), events + [event], limits)
  {
    var k := KeyOfComponent(event);
    var i := IndexOfKey(components, ComponentKeyOf, k);
    var metric := if i < |components| then components[i] else FreshComponent(event);
    var after := ComponentsWith(components, event, limits);
    UpsertKeepsUnique(components, ComponentKeyOf, k, CountedComponent(metric, event, limits));
    UniqueByIndex(components, ComponentKeyOf);
    if i == |components| {
      assert !HasComponent(components, k);
      assert forall j :: !OfComponent(events, j, k);
    }
    SameComponent(metric, events, event, limits);
    forall j | 0 <= j < |after| ensures ComponentExact(after[j], events + [event], limits) {
      if j != i { OtherComponent(components[j], events, event, limits); }
    }
    ComponentsStay(components, events, event, limits);
  }

  lemma ComponentsStay(components: seq<ComponentMetric>, events: seq<Event>, event: Event, limits: Limits)
    requires !event.ContentEvent?
    requires forall j :: 0 <= j < |events| && !events[j].ContentEvent? ==> HasComponent(components, KeyOfComponent(events[j]))
    ensures var all := events + [event];
      forall j :: 0 <= j < |all| && !all[j].ContentEvent? ==>
        HasComponent(ComponentsWith(components, event, limits), KeyOfComponent(all[j]))
  {
    var k, all, after := KeyOfComponent(event), events + [event], ComponentsWith(components, event, limits);
    var i := IndexOfKey(components, ComponentKeyOf, k);
    assert ComponentKeyOf(after[i]) == k;
    forall j | 0 <= j < |all| && !all[j].ContentEvent? ensures HasComponent(after, KeyOfComponent(all[j])) {
      if j < |events| {
        var m :| 0 <= m < |components| && ComponentKeyOf(components[m]) == KeyOfComponent(events[j]);
        assert ComponentKeyOf(after[m]) == ComponentKeyOf(components[m]);
      }
    }
  }

  // Whole folds

  function EventsOf(evidence: seq<Evidence>): seq<Event> {
    if evidence == [] then []
    else
      var last := |evidence| - 1;
      EventsOf(evidence[..last]) + if evidence[last].EventEvidence? then [evidence[last].event] else []
  }

  function ContentKeys(events: seq<Event>): set<ContentKey> {
    set i | 0 <= i < |events| && events[i].ContentEvent? :: KeyOfContent(events[i])
  }

  function ComponentKeys(events: seq<Event>): set<ComponentKey> {
    set i | 0 <= i < |events| && !events[i].ContentEvent? :: KeyOfComponent(events[i])
  }

  function KeySet<T, K(==)>(values: seq<T>, key: T -> K): set<K> {
    set i | 0 <= i < |values| :: key(values[i])
  }

  lemma {:induction false} KeysCount<T, K(!new)>(values: seq<T>, key: T -> K)
    requires forall i, j :: 0 <= i < j < |values| ==> key(values[i]) != key(values[j])
    ensures |KeySet(values, key)| == |values|
    decreases |values|
  {
    if values != [] {
      var last := |values| - 1;
      KeysCount(values[..last], key);
      KeysOfLast(values, key);
      assert key(values[last]) !in KeySet(values[..last], key);
    }
  }

  lemma KeysOfLast<T, K(!new)>(values: seq<T>, key: T -> K)
    requires values != []
    ensures var last := |values| - 1;
      KeySet(values, key) == KeySet(values[..last], key) + {key(values[last])}
  {
    var last := |values| - 1;
    var keys, front := KeySet(values, key), values[..last];
    forall k | k in KeySet(front, key) ensures k in keys {
      var i :| 0 <= i < |front| && key(front[i]) == k;
      assert key(values[i]) == k;
    }
    forall k | k in keys ensures k in KeySet(front, key) + {key(values[last])} {
      var i :| 0 <= i < |values| && key(values[i]) == k;
      if i < last { assert key(front[i]) in KeySet(front, key); }
    }
  }

  lemma ContentTableSize(contents: seq<ContentMetric>, events: seq<Event>)
    requires ContentsExact(contents, events)
    ensures |contents| == |ContentKeys(events)|
  {
    UniqueByIndex(contents, ContentKeyOf);
    KeysCount(contents, ContentKeyOf);
    var keys := KeySet(contents, ContentKeyOf);
    forall k | k in keys ensures k in ContentKeys(events) {
      var i :| 0 <= i < |contents| && ContentKeyOf(contents[i]) == k;
      assert ContentExact(contents[i], events);
      var j :| OfContent(events, j, k) && events[j].occurredAt == contents[i].lastOccurredAt;
    }
    forall k | k in ContentKeys(events) ensures k in keys {
      var i :| 0 <= i < |events| && events[i].ContentEvent? && KeyOfContent(events[i]) == k;
      assert HasContent(contents, k);
    }
    assert keys == ContentKeys(events);
  }

  lemma ComponentTableSize(components: seq<ComponentMetric>, events: seq<Event>, limits: Limits)
    requires ComponentsExact(components, events, limits)
    ensures |components| == |ComponentKeys(events)|
  {
    UniqueByIndex(components, ComponentKeyOf);
    KeysCount(components, ComponentKeyOf);
    var keys := KeySet(components, ComponentKeyOf);
    forall k | k in keys ensures k in ComponentKeys(events) {
      var i :| 0 <= i < |components| && ComponentKeyOf(components[i]) == k;
      assert ComponentExact(components[i], events, limits);
      var j :| OfComponent(events, j, k) && events[j].occurredAt == components[i].lastOccurredAt;
    }
    forall k | k in ComponentKeys(events) ensures k in keys {
      var i :| 0 <= i < |events| && !events[i].ContentEvent? && KeyOfComponent(events[i]) == k;
      assert HasComponent(components, k);
    }
    assert keys == ComponentKeys(events);
  }

  lemma KeysGrow(events: seq<Event>, event: Event)
    ensures ContentKeys(events) <= ContentKeys(events + [event])
    ensures ComponentKeys(events) <= ComponentKeys(events + [event])
    ensures !event.ContentEvent? ==> ContentKeys(events + [event]) == ContentKeys(events)
    ensures event.ContentEvent? ==> ComponentKeys(events + [event]) == ComponentKeys(events)
  {
    var all := events + [event];
    forall k | k in ContentKeys(events) ensures k in ContentKeys(all) {
      var i :| 0 <= i < |events| && events[i].ContentEvent? && KeyOfContent(events[i]) == k;
      assert all[i] == events[i];
    }
    forall k | k in ComponentKeys(events) ensures k in ComponentKeys(all) {
      var i :| 0 <= i < |events| && !events[i].ContentEvent? && KeyOfComponent(events[i]) == k;
      assert all[i] == events[i];
    }
  }

  /** While a table is not truncated it is exact; it is truncated exactly when it met more keys than it holds. */
  ghost predicate Exact(document: Aggregate, events: seq<Event>, limits: Limits) {
    && (forall name :: document.eventCounts[name] == Tally(events, ByName(name)))
    && (document.truncated.contents <==> |ContentKeys(events)| > limits.contents)
    && (!document.truncated.contents ==> ContentsExact(document.contents, events))
    && (document.truncated.components <==> |ComponentKeys(events)| > limits.components)
    && (!document.truncated.components ==> ComponentsExact(document.components, events, limits))
  }

  lemma ExactEvent(document: Aggregate, events: seq<Event>, event: Event, limits: Limits)
    requires Exact(document, events, limits)
    ensures Exact(WithEvent(document, event, limits), events + [event], limits)
  {
    var all, after := events + [event], WithEvent(document, event, limits);
    forall name ensures after.eventCounts[name] == Tally(all, ByName(name)) { TallyAppend(events, event, ByName(name)); }
    KeysGrow(events, event);
    if event.ContentEvent? {
      ExactContentEvent(document, events, event, limits);
      StayExactComponents(document, events, event, limits);
    } else {
      ExactComponentEvent(document, events, event, limits);
      StayExactContents(document, events, event, limits);
    }
  }

  lemma ExactContentEvent(document: Aggregate, events: seq<Event>, event: Event, limits: Limits)
    requires Exact(document, events, limits) && event.ContentEvent?
    ensures var after, all := WithEvent(document, event, limits), events + [event];
      && (after.truncated.contents <==> |ContentKeys(all)| > limits.contents)
      && (!after.truncated.contents ==> ContentsExact(after.contents, all))
  {
    var all := events + [event];
    KeysGrow(events, event);
    FewerKeys(ContentKeys(events), ContentKeys(all));
    if !document.truncated.contents {
      ContentsExactStep(document.contents, events, event);
      ContentTableSize(ContentsWith(document.contents, event), all);
    }
  }

  lemma ExactComponentEvent(document: Aggregate, events: seq<Event>, event: Event, limits: Limits)
    requires Exact(document, events, limits) && !event.ContentEvent?
    ensures var after, all := WithEvent(document, event, limits), events + [event];
      && (after.truncated.components <==> |ComponentKeys(all)| > limits.components)
      && (!after.truncated.components ==> ComponentsExact(after.components, all, limits))
  {
    var all := events + [event];
    KeysGrow(events, event);
    FewerKeys(ComponentKeys(events), ComponentKeys(all));
    if !document.truncated.components {
      ComponentsExactStep(document.components, events, event, limits);
      ComponentTableSize(ComponentsWith(document.components, event, limits), all, limits);
    }
  }

  lemma {:induction false} FewerKeys<K>(a: set<K>, b: set<K>)
    requires a <= b
    ensures |a| <= |b|
    decreases |a|
  {
    if k :| k in a { FewerKeys(a - {k}, b - {k}); }
  }

  lemma StayExactContents(document: Aggregate, events: seq<Event>, event: Event, limits: Limits)
    requires !document.truncated.contents ==> ContentsExact(document.contents, events)
    requires !event.ContentEvent?
    ensures !document.truncated.contents ==> ContentsExact(document.contents, events + [event])
  {
    if !document.truncated.contents {
      forall i | 0 <= i < |document.contents| ensures ContentExact(document.contents[i], events + [event]) {
        OtherContent(document.contents[i], events, event);
      }
    }
  }

  lemma StayExactComponents(document: Aggregate, events: seq<Event>, event: Event, limits: Limits)
    requires !document.truncated.components ==> ComponentsExact(document.components, events, limits)
    requires event.ContentEvent?
    ensures !document.truncated.components ==> ComponentsExact(document.components, events + [event], limits)
  {
    if !document.truncated.components {
      forall i | 0 <= i < |document.components| ensures ComponentExact(document.components[i], events + [event], limits) {
        OtherComponent(document.components[i], events, event, limits);
      }
    }
  }

  lemma {:induction false} FoldIsExact(evidence: seq<Evidence>, limits: Limits)
    ensures Exact(Folded(evidence, limits), EventsOf(evidence), limits)
    decreases |evidence|
  {
    if evidence == [] {
      assert ContentKeys([]) == {} && ComponentKeys([]) == {};
      KeyCountEmpty();
    } else {
      var last := |evidence| - 1;
      FoldIsExact(evidence[..last], limits);
      var before, events := Folded(evidence[..last], limits), EventsOf(evidence[..last]);
      match evidence[last]
      case EventEvidence(event) => ExactEvent(before, events, event, limits);
      case AnnotationEvidence(_) => assert events + [] == events;
    }
  }

  lemma KeyCountEmpty()
    ensures UniqueKeys<ContentMetric, ContentKey>([], ContentKeyOf)
    ensures UniqueKeys<ComponentMetric, ComponentKey>([], ComponentKeyOf)
  {
  }

  // The order of the events does not matter

  /** Two metrics of one content that agree on everything the events of the content determine. */
  ghost predicate SameContentTotals(a: ContentMetric, b: ContentMetric) {
    && ContentKeyOf(a) == ContentKeyOf(b)
    && a.views == b.views && a.created == b.created && a.draftUpdates == b.draftUpdates && a.publications == b.publications
    && a.lastOccurredAt == b.lastOccurredAt
  }

  lemma ContentMoves(a: seq<Event>, b: seq<Event>, i: int, key: ContentKey) returns (j: int)
    requires multiset(a) == multiset(b) && OfContent(a, i, key)
    ensures OfContent(b, j, key) && b[j] == a[i]
  {
    assert a[i] in multiset(b);
    j :| 0 <= j < |b| && b[j] == a[i];
  }

  lemma ComponentMoves(a: seq<Event>, b: seq<Event>, i: int, key: ComponentKey) returns (j: int)
    requires multiset(a) == multiset(b) && OfComponent(a, i, key)
    ensures OfComponent(b, j, key) && b[j] == a[i]
  {
    assert a[i] in multiset(b);
    j :| 0 <= j < |b| && b[j] == a[i];
  }

  /** Exact tables of the same events, in any two orders, hold the same contents with the same totals. */
  lemma ContentsPermute(a: seq<Event>, b: seq<Event>, one: seq<ContentMetric>, two: seq<ContentMetric>, i: nat)
    returns (j: nat)
    requires multiset(a) == multiset(b) && ContentsExact(one, a) && ContentsExact(two, b) && i < |one|
    ensures j < |two| && SameContentTotals(one[i], two[j])
  {
    var key := ContentKeyOf(one[i]);
    assert ContentExact(one[i], a);
    var m :| OfContent(a, m, key) && a[m].occurredAt == one[i].lastOccurredAt;
    var n := ContentMoves(a, b, m, key);
    assert HasContent(two, KeyOfContent(b[n]));
    j :| 0 <= j < |two| && ContentKeyOf(two[j]) == key;
    assert ContentExact(two[j], b);
    var p :| OfContent(b, p, key) && b[p].occurredAt == two[j].lastOccurredAt;
    var _ := ContentMoves(b, a, p, key);
    SameCounters(a, b, one[i], two[j]);
  }

  lemma SameCounters(a: seq<Event>, b: seq<Event>, one: ContentMetric, two: ContentMetric)
    requires multiset(a) == multiset(b) && ContentKeyOf(one) == ContentKeyOf(two)
    requires ContentExact(one, a) && ContentExact(two, b)
    ensures one.views == two.views && one.created == two.created
    ensures one.draftUpdates == two.draftUpdates && one.publications == two.publications
  {
    forall action ensures ContentCounter(action)(one) == ContentCounter(action)(two) {
      TallyPermutes(a, b, ByContent(ContentKeyOf(one), action));
    }
    assert ContentCounter(Viewed)(one) == one.views && ContentCounter(Viewed)(two) == two.views;
    assert ContentCounter(Created)(one) == one.created && ContentCounter(Created)(two) == two.created;
    assert ContentCounter(DraftUpdated)(one) == one.draftUpdates && ContentCounter(DraftUpdated)(two) == two.draftUpdates;
    assert ContentCounter(Published)(one) == one.publications && ContentCounter(Published)(two) == two.publications;
  }

  /** The same count for each name both list; and below the cap the second lists every name the first counts. */
  ghost predicate SameNames(one: seq<NamedCount>, two: seq<NamedCount>, limits: Limits) {
    && (forall i, j :: 0 <= i < |one| && 0 <= j < |two| ==> (one[i].name == two[j].name ==> one[i].count == two[j].count))
    && (|two| < limits.names ==> forall i :: 0 <= i < |one| && one[i].count > 0 ==> HasName(two, one[i].name))
  }

  ghost predicate SameComponentTotals(a: ComponentMetric, b: ComponentMetric, limits: Limits) {
    && ComponentKeyOf(a) == ComponentKeyOf(b)
    && a.views == b.views && a.interactions == b.interactions && a.lastOccurredAt == b.lastOccurredAt
    && SameNames(a.interactionCounts, b.interactionCounts, limits)
  }

  lemma NamesPermute(a: seq<Event>, b: seq<Event>, one: seq<NamedCount>, two: seq<NamedCount>, key: ComponentKey,
                     limits: Limits)
    requires multiset(a) == multiset(b) && NamesExact(one, key, a, limits) && NamesExact(two, key, b, limits)
    ensures SameNames(one, two, limits)
  {
    forall i, j | 0 <= i < |one| && 0 <= j < |two| && one[i].name == two[j].name ensures one[i].count == two[j].count {
      TallyPermutes(a, b, ByInteraction(key, one[i].name));
    }
    forall i | 0 <= i < |one| && one[i].count > 0 && |two| < limits.names ensures HasName(two, one[i].name) {
      TallyPermutes(a, b, ByInteraction(key, one[i].name));
      var k := TallyWitness(b, ByInteraction(key, one[i].name));
      assert OfComponent(b, k, key);
    }
  }

  lemma {:induction false} TallyWitness(events: seq<Event>, query: Query) returns (i: nat)
    requires Tally(events, query) > 0
    ensures i < |events| && Matches(query, events[i])
    decreases |events|
  {
    var last := |events| - 1;
    if Matches(query, events[last]) {
      i := last;
    } else {
      i := TallyWitness(events[..last], query);
    }
  }

  lemma ComponentListed(a: seq<Event>, b: seq<Event>, metric: ComponentMetric, two: seq<ComponentMetric>, limits: Limits)
    returns (j: nat)
    requires multiset(a) == multiset(b) && ComponentExact(metric, a, limits) && ComponentsExact(two, b, limits)
    ensures j < |two| && ComponentKeyOf(two[j]) == ComponentKeyOf(metric)
  {
    var m :| OfComponent(a, m, ComponentKeyOf(metric)) && a[m].occurredAt == metric.lastOccurredAt;
    var n := ComponentMoves(a, b, m, ComponentKeyOf(metric));
    assert HasComponent(two, KeyOfComponent(b[n]));
    j :| 0 <= j < |two| && ComponentKeyOf(two[j]) == ComponentKeyOf(metric);
  }

  lemma ComponentsPermute(a: seq<Event>, b: seq<Event>, one: seq<ComponentMetric>, two: seq<ComponentMetric>,
                          limits: Limits, i: nat)
    returns (j: nat)
    requires multiset(a) == multiset(b) && ComponentsExact(one, a, limits) && ComponentsExact(two, b, limits) && i < |one|
    ensures j < |two| && SameComponentTotals(one[i], two[j], limits)
  {
    var key := ComponentKeyOf(one[i]);
    assert ComponentExact(one[i], a, limits);
    j := ComponentListed(a, b, one[i], two, limits);
    assert ComponentExact(two[j], b, limits);
    SameComponentCounters(a, b, one[i], two[j], limits);
    LatestComponent(a, b, one[i], two[j], limits);
    LatestComponent(b, a, two[j], one[i], limits);
    NamesPermute(a, b, one[i].interactionCounts, two[j].interactionCounts, key, limits);
  }

  lemma SameComponentCounters(a: seq<Event>, b: seq<Event>, one: ComponentMetric, two: ComponentMetric, limits: Limits)
    requires multiset(a) == multiset(b) && ComponentKeyOf(one) == ComponentKeyOf(two)
    requires ComponentExact(one, a, limits) && ComponentExact(two, b, limits)
    ensures one.views == two.views && one.interactions == two.interactions
  {
    var key := ComponentKeyOf(one);
    TallyPermutes(a, b, ByComponent(key, false));
    TallyPermutes(a, b, ByComponent(key, true));
    assert ComponentCounter(false)(one) == one.views && ComponentCounter(true)(one) == one.interactions;
    assert ComponentCounter(false)(two) == two.views && ComponentCounter(true)(two) == two.interactions;
  }

  lemma LatestComponent(a: seq<Event>, b: seq<Event>, one: ComponentMetric, two: ComponentMetric, limits: Limits)
    requires multiset(a) == multiset(b) && ComponentKeyOf(one) == ComponentKeyOf(two)
    requires ComponentExact(one, a, limits) && ComponentExact(two, b, limits)
    ensures one.lastOccurredAt <= two.lastOccurredAt
  {
    var key := ComponentKeyOf(one);
    var m :| OfComponent(a, m, key) && a[m].occurredAt == one.lastOccurredAt;
    var n := ComponentMoves(a, b, m, key);
  }

  /** Two tables that hold the same contents, or components, with the same totals. */
  ghost predicate SameContentTables(one: seq<ContentMetric>, two: seq<ContentMetric>) {
    && |one| == |two|
    && forall i :: 0 <= i < |one| ==> exists j :: 0 <= j < |two| && SameContentTotals(one[i], two[j])
  }

  ghost predicate SameComponentTables(one: seq<ComponentMetric>, two: seq<ComponentMetric>, limits: Limits) {
    && |one| == |two|
    && forall i :: 0 <= i < |one| ==> exists j :: 0 <= j < |two| && SameComponentTotals(one[i], two[j], limits)
  }

  ghost predicate SameTotals(one: Aggregate, two: Aggregate, limits: Limits) {
    && one.eventCounts == two.eventCounts
    && one.truncated.contents == two.truncated.contents
    && one.truncated.components == two.truncated.components
    && (!one.truncated.contents ==> SameContentTables(one.contents, two.contents))
    && (!one.truncated.components ==> SameComponentTables(one.components, two.components, limits))
  }

  lemma KeysPermute(a: seq<Event>, b: seq<Event>)
    requires multiset(a) == multiset(b)
    ensures ContentKeys(a) <= ContentKeys(b) && ComponentKeys(a) <= ComponentKeys(b)
  {
    forall k | k in ContentKeys(a) ensures k in ContentKeys(b) {
      var i :| 0 <= i < |a| && a[i].ContentEvent? && KeyOfContent(a[i]) == k;
      var j := ContentMoves(a, b, i, k);
    }
    forall k | k in ComponentKeys(a) ensures k in ComponentKeys(b) {
      var i :| 0 <= i < |a| && !a[i].ContentEvent? && KeyOfComponent(a[i]) == k;
      var j := ComponentMoves(a, b, i, k);
    }
  }

  lemma SameCounts(one: Aggregate, two: Aggregate, a: seq<Event>, b: seq<Event>, limits: Limits)
    requires multiset(a) == multiset(b) && Exact(one, a, limits) && Exact(two, b, limits)
    ensures one.eventCounts == two.eventCounts
    ensures one.truncated.contents == two.truncated.contents && one.truncated.components == two.truncated.components
    ensures ContentKeys(a) == ContentKeys(b) && ComponentKeys(a) == ComponentKeys(b)
  {
    KeysPermute(a, b);
    KeysPermute(b, a);
    assert ContentKeys(a) == ContentKeys(b) && ComponentKeys(a) == ComponentKeys(b);
    assert one.truncated.contents == two.truncated.contents;
    assert one.truncated.components == two.truncated.components;
    forall name ensures one.eventCounts[name] == two.eventCounts[name] { TallyPermutes(a, b, ByName(name)); }
  }

  lemma SameContents(a: seq<Event>, b: seq<Event>, one: seq<ContentMetric>, two: seq<ContentMetric>)
    requires multiset(a) == multiset(b) && ContentsExact(one, a) && ContentsExact(two, b)
    requires ContentKeys(a) == ContentKeys(b)
    ensures SameContentTables(one, two)
  {
    ContentTableSize(one, a);
    ContentTableSize(two, b);
    forall i | 0 <= i < |one| ensures exists j :: 0 <= j < |two| && SameContentTotals(one[i], two[j]) {
      var j := ContentsPermute(a, b, one, two, i);
    }
  }

  lemma SameComponents(a: seq<Event>, b: seq<Event>, one: seq<ComponentMetric>, two: seq<ComponentMetric>, limits: Limits)
    requires multiset(a) == multiset(b) && ComponentsExact(one, a, limits) && ComponentsExact(two, b, limits)
    requires ComponentKeys(a) == ComponentKeys(b)
    ensures SameComponentTables(one, two, limits)
  {
    ComponentTableSize(one, a, limits);
    ComponentTableSize(two, b, limits);
    forall i | 0 <= i < |one| ensures exists j :: 0 <= j < |two| && SameComponentTotals(one[i], two[j], limits) {
      var j := ComponentsPermute(a, b, one, two, limits, i);
    }
  }

  lemma ExactAgree(one: Aggregate, two: Aggregate, a: seq<Event>, b: seq<Event>, limits: Limits)
    requires multiset(a) == multiset(b) && Exact(one, a, limits) && Exact(two, b, limits)
    ensures SameTotals(one, two, limits)
  {
    SameCounts(one, two, a, b, limits);
    if !one.truncated.contents { SameContents(a, b, one.contents, two.contents); }
    if !one.truncated.components { SameComponents(a, b, one.components, two.components, limits); }
  }

  /** Any two orders of the same events give the same counts, the same truncation and the same totals. */
  lemma {:induction false} OrderDoesNotMatter(a: seq<Evidence>, b: seq<Evidence>, limits: Limits)
    requires multiset(EventsOf(a)) == multiset(EventsOf(b))
    ensures SameTotals(Folded(a, limits), Folded(b, limits), limits)
  {
    FoldIsExact(a, limits);
    FoldIsExact(b, limits);
    ExactAgree(Folded(a, limits), Folded(b, limits), EventsOf(a), EventsOf(b), limits);
  }

  lemma {:induction false} EventsCount(evidence: seq<Evidence>, event: Event)
    ensures multiset(EventsOf(evidence))[event] == multiset(evidence)[EventEvidence(event)]
    decreases |evidence|
  {
    if evidence != [] {
      var last := |evidence| - 1;
      EventsCount(evidence[..last], event);
      assert evidence == evidence[..last] + [evidence[last]];
      assert multiset(evidence) == multiset(evidence[..last]) + multiset{evidence[last]};
      var more := if evidence[last].EventEvidence? then [evidence[last].event] else [];
      assert multiset(EventsOf(evidence)) == multiset(EventsOf(evidence[..last])) + multiset(more);
    }
  }

  lemma {:induction false} EventsPermute(a: seq<Evidence>, b: seq<Evidence>)
    requires multiset(a) == multiset(b)
    ensures multiset(EventsOf(a)) == multiset(EventsOf(b))
  {
    forall event ensures multiset(EventsOf(a))[event] == multiset(EventsOf(b))[event] {
      EventsCount(a, event);
      EventsCount(b, event);
    }
  }
}
