/** Verification of audit hash chains: one chain of events for each entry of a scope. */
module Audit {
  import opened Wrappers
  import opened BoundedTables

  datatype Scope = Scope(
    organizationId: string, tenantId: string, workspaceId: string, siteId: string, environmentId: string, locale: string)
  datatype Fields = Fields(
    id: string, scope: Scope, entryId: string, sequence: int, actorId: string, action: string,
    revisionId: string, occurredAt: string)

  /** What an event's hash is taken of. */
  datatype Hashed = Hashed(fields: Fields, previousHash: Option<string>)
  datatype AuditEvent = AuditEvent(fields: Fields, previousHash: Option<string>, eventHash: string)

  datatype Key = Key(scope: Scope, entryId: string)
  datatype Reason = SequenceMismatch | PreviousHashMismatch | EventHashMismatch
  datatype Failure = Failure(eventId: string, entryId: string, reason: Reason)
  datatype Verification = Verification(valid: bool, eventCount: nat, entryCount: nat, failures: seq<Failure>)

  type Hash = Hashed -> string

  ghost predicate Injective(hash: Hash) {
    forall a, b :: hash(a) == hash(b) ==> a == b
  }

  function KeyOf(event: AuditEvent): Key {
    Key(event.fields.scope, event.fields.entryId)
  }

  /** Descending by this is ascending by sequence. */
  function Order(event: AuditEvent): int {
    -event.fields.sequence
  }

  // The specification

  function KeysOf(events: seq<AuditEvent>): seq<Key> {
    if events == [] then []
    else
      var last := |events| - 1;
      var before := KeysOf(events[..last]);
      if KeyOf(events[last]) in before then before else before + [KeyOf(events[last])]
  }

  function OfKey(events: seq<AuditEvent>, key: Key): seq<AuditEvent> {
    if events == [] then []
    else
      var last := |events| - 1;
      OfKey(events[..last], key) + if KeyOf(events[last]) == key then [events[last]] else []
  }

  function Chain(events: seq<AuditEvent>, key: Key): seq<AuditEvent> {
    SortNewest(OfKey(events, key), Order)
  }

  /** An empty previous hash is false in JavaScript: the event's own is hashed instead. */
  function HashInput(event: AuditEvent, previous: Option<string>): Hashed {
    Hashed(event.fields, if previous.Some? && previous.value != "" then previous else event.previousHash)
  }

  function EventFailures(hash: Hash, event: AuditEvent, index: nat, previous: Option<string>): seq<Failure> {
    var id, entryId := event.fields.id, event.fields.entryId;
    (if event.fields.sequence != index + 1 then [Failure(id, entryId, SequenceMismatch)] else [])
    + (if event.previousHash != previous then [Failure(id, entryId, PreviousHashMismatch)] else [])
    + (if event.eventHash != hash(HashInput(event, previous)) then [Failure(id, entryId, EventHashMismatch)] else [])
  }

  function HashBefore(chain: seq<AuditEvent>, index: nat): Option<string>
    requires index <= |chain|
  {
    if index == 0 then None else Some(chain[index - 1].eventHash)
  }

  function ChainFailures(hash: Hash, chain: seq<AuditEvent>, count: nat): seq<Failure>
    requires count <= |chain|
  {
    if count == 0 then []
    else ChainFailures(hash, chain, count - 1) + EventFailures(hash, chain[count - 1], count - 1, HashBefore(chain, count - 1))
  }

  function AllFailures(hash: Hash, events: seq<AuditEvent>, keys: seq<Key>): seq<Failure> {
    if keys == [] then []
    else
      var last := |keys| - 1;
      var chain := Chain(events, keys[last]);
      AllFailures(hash, events, keys[..last]) + ChainFailures(hash, chain, |chain|)
  }

  function Verified(hash: Hash, events: seq<AuditEvent>): Verification {
    var failures := AllFailures(hash, events, KeysOf(events));
    Verification(failures == [], |events|, |KeysOf(events)|, failures)
  }

  // The method, loop by loop

  ghost predicate Groups(events: seq<AuditEvent>, keys: seq<Key>, grouped: map<Key, seq<AuditEvent>>) {
    && keys == KeysOf(events)
    && (forall key :: key in keys ==> key in grouped)
    && (forall key :: key in grouped ==> key in keys && grouped[key] == OfKey(events, key))
  }

  lemma GroupsStep(events: seq<AuditEvent>, i: nat, keys: seq<Key>, grouped: map<Key, seq<AuditEvent>>)
    requires i < |events| && Groups(events[..i], keys, grouped)
    ensures var key := KeyOf(events[i]);
      Groups(events[..i + 1], if key in grouped then keys else keys + [key],
             grouped[key := (if key in grouped then grouped[key] else []) + [events[i]]])
  {
    var key := KeyOf(events[i]);
    assert events[..i + 1][..i] == events[..i];
    KeysAreAll(events[..i], key);
    forall other | other != key ensures OfKey(events[..i + 1], other) == OfKey(events[..i], other) {
    }
  }

  /** `keys` are the map's keys in the order they were first set. */
  method Group(events: seq<AuditEvent>) returns (keys: seq<Key>, grouped: map<Key, seq<AuditEvent>>)
    ensures Groups(events, keys, grouped)
  {
    keys, grouped := [], map[];
    for i := 0 to |events|
      invariant Groups(events[..i], keys, grouped)
    {
      GroupsStep(events, i, keys, grouped);
      var key := KeyOf(events[i]);
      var current := if key in grouped then grouped[key] else [];
      if key !in grouped { keys := keys + [key]; }
      grouped := grouped[key := current + [events[i]]];
    }
    assert events[..|events|] == events;
  }

  method CheckEvent(hash: Hash, event: AuditEvent, index: nat, previousHash: Option<string>) returns (failures: seq<Failure>)
    ensures failures == EventFailures(hash, event, index, previousHash)
  {
    var id, entryId := event.fields.id, event.fields.entryId;
    failures := [];
    if event.fields.sequence != index + 1 { failures := failures + [Failure(id, entryId, SequenceMismatch)]; }
    if event.previousHash != previousHash { failures := failures + [Failure(id, entryId, PreviousHashMismatch)]; }
    var expectedHash := hash(HashInput(event, previousHash));
    if event.eventHash != expectedHash { failures := failures + [Failure(id, entryId, EventHashMismatch)]; }
  }

  method CheckChain(hash: Hash, entryEvents: seq<AuditEvent>) returns (failures: seq<Failure>)
    ensures failures == ChainFailures(hash, entryEvents, |entryEvents|)
  {
    failures := [];
    var previousHash: Option<string> := None;
    for index := 0 to |entryEvents|
      invariant previousHash == HashBefore(entryEvents, index)
      invariant failures == ChainFailures(hash, entryEvents, index)
    {
      var found := CheckEvent(hash, entryEvents[index], index, previousHash);
      failures := failures + found;
      previousHash := Some(entryEvents[index].eventHash);
    }
  }

  lemma {:induction false} FailuresNext(hash: Hash, events: seq<AuditEvent>, keys: seq<Key>, k: nat)
    requires k < |keys|
    ensures var chain := Chain(events, keys[k]);
      AllFailures(hash, events, keys[..k + 1]) == AllFailures(hash, events, keys[..k]) + ChainFailures(hash, chain, |chain|)
  {
    assert keys[..k + 1][..k] == keys[..k];
  }

  method VerifyAuditEvents(hash: Hash, events: seq<AuditEvent>) returns (verification: Verification)
    ensures verification == Verified(hash, events)
  {
    var failures: seq<Failure> := [];
    var keys, grouped := Group(events);
    for k := 0 to |keys|
      invariant failures == AllFailures(hash, events, keys[..k])
    {
      FailuresNext(hash, events, keys, k);
      var entryEvents := SortNewest(grouped[keys[k]], Order);
      assert entryEvents == Chain(events, keys[k]);
      var found := CheckChain(hash, entryEvents);
      failures := failures + found;
    }
    assert keys[..|keys|] == keys;
    verification := Verification(|failures| == 0, |events|, |keys|, failures);
  }

  // What a valid verdict means

  ghost predicate Linked(hash: Hash, chain: seq<AuditEvent>, i: nat)
    requires i < |chain|
  {
    && chain[i].fields.sequence == i + 1
    && chain[i].previousHash == HashBefore(chain, i)
    && chain[i].eventHash == hash(Hashed(chain[i].fields, chain[i].previousHash))
  }

  ghost predicate ValidChain(hash: Hash, chain: seq<AuditEvent>) {
    forall i :: 0 <= i < |chain| ==> Linked(hash, chain, i)
  }

  lemma EventVerdict(hash: Hash, chain: seq<AuditEvent>, i: nat)
    requires i < |chain|
    ensures |EventFailures(hash, chain[i], i, HashBefore(chain, i))| == 0 <==> Linked(hash, chain, i)
  {
  }

  lemma {:induction false} ChainVerdict(hash: Hash, chain: seq<AuditEvent>, count: nat)
    requires count <= |chain|
    ensures |ChainFailures(hash, chain, count)| == 0 <==> forall i :: 0 <= i < count ==> Linked(hash, chain, i)
    decreases count
  {
    if count > 0 {
      ChainVerdict(hash, chain, count - 1);
      EventVerdict(hash, chain, count - 1);
    }
  }

  lemma {:induction false} KeysAreAll(events: seq<AuditEvent>, key: Key)
    ensures key in KeysOf(events) <==> OfKey(events, key) != []
    ensures forall i :: 0 <= i < |OfKey(events, key)| ==> KeyOf(OfKey(events, key)[i]) == key
    decreases |events|
  {
    if events != [] { KeysAreAll(events[..|events| - 1], key); }
  }

  ghost predicate ValidKey(hash: Hash, events: seq<AuditEvent>, key: Key) {
    ValidChain(hash, Chain(events, key))
  }

  ghost predicate AllValid(hash: Hash, events: seq<AuditEvent>, keys: seq<Key>) {
    forall k :: 0 <= k < |keys| ==> ValidKey(hash, events, keys[k])
  }

  lemma {:induction false} LastVerdict(hash: Hash, events: seq<AuditEvent>, keys: seq<Key>, front: seq<Key>, last: Key)
    requires keys == front + [last]
    ensures |AllFailures(hash, events, keys)|
      == |AllFailures(hash, events, front)| + |ChainFailures(hash, Chain(events, last), |Chain(events, last)|)|
    ensures AllValid(hash, events, keys) <==> (AllValid(hash, events, front) && ValidKey(hash, events, last))
  {
    assert keys[..|front|] == front && keys[|front|] == last;
    if AllValid(hash, events, keys) {
      forall k | 0 <= k < |front| ensures ValidKey(hash, events, front[k]) { assert front[k] == keys[k]; }
    }
  }

  lemma {:induction false} VerdictByKeys(hash: Hash, events: seq<AuditEvent>, keys: seq<Key>)
    ensures |AllFailures(hash, events, keys)| == 0 <==> AllValid(hash, events, keys)
    decreases |keys|
  {
    if keys != [] {
      var front, last := keys[..|keys| - 1], keys[|keys| - 1];
      LastVerdict(hash, events, keys, front, last);
      VerdictByKeys(hash, events, front);
      ChainVerdict(hash, Chain(events, last), |Chain(events, last)|);
    }
  }

  /** The verdict is valid exactly when every entry's events, in sequence, form a linked chain. */
  lemma VerdictMeaning(hash: Hash, events: seq<AuditEvent>)
    ensures Verified(hash, events).valid <==> forall key :: ValidKey(hash, events, key)
  {
    var keys := KeysOf(events);
    VerdictByKeys(hash, events, keys);
    forall key | key !in keys ensures ValidKey(hash, events, key) { KeysAreAll(events, key); }
    if Verified(hash, events).valid {
      forall key | key in keys ensures ValidKey(hash, events, key) {
        var k :| 0 <= k < |keys| && keys[k] == key;
      }
    }
  }

  // Order and interleaving do not matter

  lemma {:induction false} FilterCounts(events: seq<AuditEvent>, key: Key, event: AuditEvent)
    ensures multiset(OfKey(events, key))[event] == if KeyOf(event) == key then multiset(events)[event] else 0
    decreases |events|
  {
    if events != [] {
      var last := |events| - 1;
      FilterCounts(events[..last], key, event);
      assert events == events[..last] + [events[last]];
    }
  }

  lemma ChainsPermute(a: seq<AuditEvent>, b: seq<AuditEvent>, key: Key)
    requires multiset(a) == multiset(b)
    ensures multiset(Chain(a, key)) == multiset(Chain(b, key))
  {
    SortPermutes(OfKey(a, key), Order);
    SortPermutes(OfKey(b, key), Order);
    forall event ensures multiset(OfKey(a, key))[event] == multiset(OfKey(b, key))[event] {
      FilterCounts(a, key, event);
      FilterCounts(b, key, event);
    }
  }

  /** A list sorted by distinct sequences is the only sorted list of its events. */
  lemma {:induction false} SortedOnce(a: seq<AuditEvent>, b: seq<AuditEvent>)
    requires multiset(a) == multiset(b) && NewestFirst(b, Order)
    requires forall i, j :: 0 <= i < j < |a| ==> Order(a[i]) > Order(a[j])
    ensures a == b
    decreases |a|
  {
    assert |multiset(a)| == |a| && |multiset(b)| == |b|;
    if a != [] {
      var i := SameMembers(b, a, 0);
      var j := SameMembers(a, b, 0);
      assert i == 0;
      assert a == [a[0]] + a[1..] && b == [a[0]] + b[1..];
      SameTails(a[0], a[1..], b[1..]);
      SortedOnce(a[1..], b[1..]);
    }
  }

  lemma ValidChainIsSorted(hash: Hash, chain: seq<AuditEvent>)
    requires ValidChain(hash, chain)
    ensures forall i, j :: 0 <= i < j < |chain| ==> Order(chain[i]) > Order(chain[j])
  {
    forall i, j | 0 <= i < j < |chain| ensures Order(chain[i]) > Order(chain[j]) {
      assert Linked(hash, chain, i) && Linked(hash, chain, j);
    }
  }

  lemma OneVerdictImplies(hash: Hash, a: seq<AuditEvent>, b: seq<AuditEvent>)
    requires multiset(a) == multiset(b) && Verified(hash, a).valid
    ensures Verified(hash, b).valid
  {
    VerdictMeaning(hash, a);
    VerdictMeaning(hash, b);
    forall key ensures ValidKey(hash, b, key) {
      assert ValidKey(hash, a, key);
      ChainsPermute(a, b, key);
      ValidChainIsSorted(hash, Chain(a, key));
      SortIsNewestFirst(OfKey(b, key), Order);
      SortedOnce(Chain(a, key), Chain(b, key));
    }
  }

  /** The verdict depends only on which events there are: not on their order, nor on how entries interleave. */
  lemma OrderDoesNotMatter(hash: Hash, a: seq<AuditEvent>, b: seq<AuditEvent>)
    requires multiset(a) == multiset(b)
    ensures Verified(hash, a).valid == Verified(hash, b).valid
  {
    if Verified(hash, a).valid { OneVerdictImplies(hash, a, b); }
    if Verified(hash, b).valid { OneVerdictImplies(hash, b, a); }
  }

  // What the hashes bind

  /** The last hash of a valid chain determines its length and every hashed field of every event. */
  lemma {:induction false} LastHashBinds(hash: Hash, a: seq<AuditEvent>, b: seq<AuditEvent>)
    requires Injective(hash) && ValidChain(hash, a) && ValidChain(hash, b)
    requires a != [] && b != [] && a[|a| - 1].eventHash == b[|b| - 1].eventHash
    ensures a == b
    decreases |a|
  {
    var m, n := |a| - 1, |b| - 1;
    assert Linked(hash, a, m) && Linked(hash, b, n);
    assert Hashed(a[m].fields, a[m].previousHash) == Hashed(b[n].fields, b[n].previousHash);
    assert m == n && a[m] == b[n];
    if m > 0 {
      forall i | 0 <= i < m ensures Linked(hash, a[..m], i) && Linked(hash, b[..m], i) {
        assert Linked(hash, a, i) && Linked(hash, b, i);
      }
      LastHashBinds(hash, a[..m], b[..m]);
    }
    assert a == a[..m] + [a[m]] && b == b[..m] + [b[m]];
  }

  ghost predicate OneEntry(events: seq<AuditEvent>, key: Key) {
    forall i :: 0 <= i < |events| ==> KeyOf(events[i]) == key
  }

  lemma {:induction false} OneEntryIsAll(events: seq<AuditEvent>, key: Key)
    requires OneEntry(events, key)
    ensures OfKey(events, key) == events
    ensures forall other :: other != key ==> OfKey(events, other) == []
    decreases |events|
  {
    if events != [] {
      var last := |events| - 1;
      OneEntryIsAll(events[..last], key);
      assert events == events[..last] + [events[last]];
    }
  }

  lemma {:induction false} OneEntryVerdict(hash: Hash, events: seq<AuditEvent>, key: Key)
    requires OneEntry(events, key)
    ensures Verified(hash, events).valid <==> ValidChain(hash, SortNewest(events, Order))
  {
    OneEntryIsAll(events, key);
    VerdictMeaning(hash, events);
    assert ValidKey(hash, events, key) <==> ValidChain(hash, SortNewest(events, Order));
    forall other | other != key ensures ValidKey(hash, events, other) {
      assert OfKey(events, other) == [];
    }
  }

  /**
   Some of the events of a valid chain, in any order, are themselves valid exactly when they are
   its first events: nothing can be dropped but the end.
   */
  lemma OnlyPrefixesAreValid(hash: Hash, chain: seq<AuditEvent>, some: seq<AuditEvent>, key: Key)
    requires ValidChain(hash, chain) && OneEntry(chain, key)
    requires multiset(some) <= multiset(chain)
    ensures |some| <= |chain|
    ensures Verified(hash, some).valid <==> multiset(some) == multiset(chain[..|some|])
  {
    FewerEvents(some, chain);
    forall i | 0 <= i < |some| ensures KeyOf(some[i]) == key {
      var j := SameMembers(some, chain, i);
    }
    OneEntryVerdict(hash, some, key);
    var sorted, n := SortNewest(some, Order), |some|;
    SortPermutes(some, Order);
    SortIsNewestFirst(some, Order);
    if ValidChain(hash, sorted) {
      ValidIsPrefix(hash, chain, sorted);
    } else if multiset(some) == multiset(chain[..n]) {
      PrefixIsValid(hash, chain, n);
      ValidChainIsSorted(hash, chain[..n]);
      SortedOnce(chain[..n], sorted);
    }
  }

  lemma FewerEvents(some: seq<AuditEvent>, all: seq<AuditEvent>)
    requires multiset(some) <= multiset(all)
    ensures |some| <= |all|
  {
    assert multiset(all) == multiset(some) + (multiset(all) - multiset(some));
    assert |multiset(some)| == |some| && |multiset(all)| == |all|;
  }

  lemma ValidIsPrefix(hash: Hash, chain: seq<AuditEvent>, sorted: seq<AuditEvent>)
    requires ValidChain(hash, chain) && ValidChain(hash, sorted)
    requires multiset(sorted) <= multiset(chain) && |sorted| <= |chain|
    ensures sorted == chain[..|sorted|]
  {
    forall i | 0 <= i < |sorted| ensures sorted[i] == chain[i] {
      var j := SameMembers(sorted, chain, i);
      assert Linked(hash, sorted, i) && Linked(hash, chain, j);
    }
  }

  lemma PrefixIsValid(hash: Hash, chain: seq<AuditEvent>, n: nat)
    requires ValidChain(hash, chain) && n <= |chain|
    ensures ValidChain(hash, chain[..n])
  {
    forall i | 0 <= i < n ensures Linked(hash, chain[..n], i) {
      assert Linked(hash, chain, i);
    }
  }

  // Which failures are reported

  /** A failure that the event at an index of its chain gives rise to. */
  ghost predicate Reports(hash: Hash, chain: seq<AuditEvent>, i: nat, failure: Failure)
    requires i < |chain|
  {
    var event := chain[i];
    && failure.eventId == event.fields.id && failure.entryId == event.fields.entryId
    && match failure.reason
       case SequenceMismatch => event.fields.sequence != i + 1
       case PreviousHashMismatch => event.previousHash != (if i == 0 then None else Some(chain[i - 1].eventHash))
       case EventHashMismatch =>
         // hashed with its predecessor's hash, or, where that is missing or empty, with the one it names
         var named := if i > 0 && chain[i - 1].eventHash != "" then Some(chain[i - 1].eventHash) else event.previousHash;
         event.eventHash != hash(Hashed(event.fields, named))
  }

  lemma {:induction false} ChainReports(hash: Hash, chain: seq<AuditEvent>, count: nat, failure: Failure)
    requires count <= |chain|
    ensures failure in ChainFailures(hash, chain, count) <==> exists i :: 0 <= i < count && Reports(hash, chain, i, failure)
    decreases count
  {
    if count > 0 {
      var n := count - 1;
      ChainReports(hash, chain, n, failure);
      EventReports(hash, chain, n, failure);
    }
  }

  lemma EventReports(hash: Hash, chain: seq<AuditEvent>, i: nat, failure: Failure)
    requires i < |chain|
    ensures failure in EventFailures(hash, chain[i], i, HashBefore(chain, i)) <==> Reports(hash, chain, i, failure)
  {
  }

  ghost predicate ReportedOf(hash: Hash, events: seq<AuditEvent>, key: Key, failure: Failure) {
    exists i :: 0 <= i < |Chain(events, key)| && Reports(hash, Chain(events, key), i, failure)
  }

  ghost predicate ReportedByOne(hash: Hash, events: seq<AuditEvent>, keys: seq<Key>, failure: Failure) {
    exists key :: key in keys && ReportedOf(hash, events, key, failure)
  }

  lemma {:induction false} ReportedByLast(hash: Hash, events: seq<AuditEvent>, front: seq<Key>, last: Key,
                                          failure: Failure)
    ensures ReportedByOne(hash, events, front + [last], failure)
       <==> ReportedByOne(hash, events, front, failure) || ReportedOf(hash, events, last, failure)
  {
    assert last in front + [last];
    assert forall key :: key in front ==> key in front + [last];
  }

  lemma {:induction false} FailuresOfLast(hash: Hash, events: seq<AuditEvent>, keys: seq<Key>, failure: Failure)
    requires keys != []
    ensures var front, last := keys[..|keys| - 1], keys[|keys| - 1];
      var earlier := failure in AllFailures(hash, events, front);
      failure in AllFailures(hash, events, keys) <==> earlier || ReportedOf(hash, events, last, failure)
  {
    var chain := Chain(events, keys[|keys| - 1]);
    ChainReports(hash, chain, |chain|, failure);
  }

  lemma {:induction false} AllReports(hash: Hash, events: seq<AuditEvent>, keys: seq<Key>, failure: Failure)
    ensures failure in AllFailures(hash, events, keys) <==> ReportedByOne(hash, events, keys, failure)
    decreases |keys|
  {
    if keys == [] {
      assert !ReportedByOne(hash, events, keys, failure);
    } else {
      var front, last := keys[..|keys| - 1], keys[|keys| - 1];
      assert keys == front + [last];
      AllReports(hash, events, front, failure);
      ReportedByLast(hash, events, front, last, failure);
      FailuresOfLast(hash, events, keys, failure);
    }
  }

  /** The verdict lists exactly the failures of the events of each entry, taken in order of their sequence. */
  lemma {:induction false} FailuresReported(hash: Hash, events: seq<AuditEvent>, failure: Failure)
    ensures failure in Verified(hash, events).failures <==> exists key :: ReportedOf(hash, events, key, failure)
    ensures Verified(hash, events).eventCount == |events|
    ensures forall event :: event in events ==> KeyOf(event) in KeysOf(events)
    ensures Verified(hash, events).entryCount == |KeysOf(events)|
  {
    AllReports(hash, events, KeysOf(events), failure);
    forall key | ReportedOf(hash, events, key, failure) ensures key in KeysOf(events) { KeysAreAll(events, key); }
    forall event | event in events ensures KeyOf(event) in KeysOf(events) { EventHasKey(events, event); }
  }

  lemma {:induction false} EventHasKey(events: seq<AuditEvent>, event: AuditEvent)
    requires event in events
    ensures KeyOf(event) in KeysOf(events)
    decreases |events|
  {
    var last := |events| - 1;
    if event != events[last] {
      assert event in events[..last];
      EventHasKey(events[..last], event);
    }
  }
}
