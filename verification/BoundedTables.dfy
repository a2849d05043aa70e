/** Tables of records kept newest first and cut at a maximum, and sums over them. */
module BoundedTables {
  datatype Bounded<T> = Bounded(values: seq<T>, truncated: bool)

  /** Puts a value behind all that are at least as new: a stable insertion. */
  function InsertNewest<T>(value: T, sorted: seq<T>, time: T -> int): (inserted: seq<T>)
    ensures |inserted| == |sorted| + 1
  {
    if sorted == [] then [value]
    else if time(sorted[0]) >= time(value) then [sorted[0]] + InsertNewest(value, sorted[1..], time)
    else [value] + sorted
  }

  /** The stable sort by descending time. */
  function SortNewest<T>(values: seq<T>, time: T -> int): (sorted: seq<T>)
    ensures |sorted| == |values|
  {
    if values == [] then []
    else
      var last := |values| - 1;
      InsertNewest(values[last], SortNewest(values[..last], time), time)
  }

  function BoundedNewest<T>(values: seq<T>, maximum: nat, time: T -> int): (bounded: Bounded<T>)
    ensures |bounded.values| <= maximum
  {
    if |values| <= maximum then Bounded(values, false) else Bounded(SortNewest(values, time)[..maximum], true)
  }

  // What the sort does

  lemma {:induction false} InsertPermutes<T>(value: T, sorted: seq<T>, time: T -> int)
    ensures multiset(InsertNewest(value, sorted, time)) == multiset(sorted) + multiset{value}
    decreases |sorted|
  {
    if sorted != [] {
      assert sorted == [sorted[0]] + sorted[1..];
      InsertPermutes(value, sorted[1..], time);
    }
  }

  lemma {:induction false} SortPermutes<T>(values: seq<T>, time: T -> int)
    ensures multiset(SortNewest(values, time)) == multiset(values)
    decreases |values|
  {
    if values != [] {
      var last := |values| - 1;
      assert values == values[..last] + [values[last]];
      SortPermutes(values[..last], time);
      InsertPermutes(values[last], SortNewest(values[..last], time), time);
    }
  }

  ghost predicate NewestFirst<T>(values: seq<T>, time: T -> int) {
    forall i, j :: 0 <= i < j < |values| ==> time(values[i]) >= time(values[j])
  }

  lemma {:induction false} InsertKeepsOrder<T>(value: T, sorted: seq<T>, time: T -> int)
    requires NewestFirst(sorted, time)
    ensures NewestFirst(InsertNewest(value, sorted, time), time)
    decreases |sorted|
  {
    if sorted != [] && time(sorted[0]) >= time(value) {
      InsertKeepsOrder(value, sorted[1..], time);
      InsertPermutes(value, sorted[1..], time);
      var rest := InsertNewest(value, sorted[1..], time);
      forall j | 0 <= j < |rest| ensures time(sorted[0]) >= time(rest[j]) {
        assert rest[j] in multiset(sorted[1..]) + multiset{value};
      }
    }
  }

  lemma {:induction false} SortIsNewestFirst<T>(values: seq<T>, time: T -> int)
    ensures NewestFirst(SortNewest(values, time), time)
    decreases |values|
  {
    if values != [] {
      var last := |values| - 1;
      SortIsNewestFirst(values[..last], time);
      InsertKeepsOrder(values[last], SortNewest(values[..last], time), time);
    }
  }

  /** The values of one time, in the order they stand. */
  function AtTime<T>(values: seq<T>, time: T -> int, t: int): seq<T> {
    if values == [] then []
    else (if time(values[0]) == t then [values[0]] else []) + AtTime(values[1..], time, t)
  }

  lemma {:induction false} AtTimeConcat<T>(a: seq<T>, b: seq<T>, time: T -> int, t: int)
    ensures AtTime(a + b, time, t) == AtTime(a, time, t) + AtTime(b, time, t)
    decreases |a|
  {
    if a == [] {
      assert a + b == b;
    } else {
      var all, head := a + b, if time(a[0]) == t then [a[0]] else [];
      assert all[0] == a[0] && all[1..] == a[1..] + b;
      AtTimeConcat(a[1..], b, time, t);
      assert AtTime(all, time, t) == head + (AtTime(a[1..], time, t) + AtTime(b, time, t));
    }
  }

  lemma {:induction false} OlderHaveOtherTimes<T>(values: seq<T>, time: T -> int, t: int)
    requires forall i :: 0 <= i < |values| ==> time(values[i]) != t
    ensures AtTime(values, time, t) == []
    decreases |values|
  {
    if values != [] { OlderHaveOtherTimes(values[1..], time, t); }
  }

  lemma {:induction false} AtTimeHead<T>(head: T, tail: seq<T>, time: T -> int, t: int)
    ensures AtTime([head] + tail, time, t) == (if time(head) == t then [head] else []) + AtTime(tail, time, t)
  {
    assert ([head] + tail)[1..] == tail;
  }

  lemma {:induction false} InsertIsStable<T>(value: T, sorted: seq<T>, time: T -> int, t: int)
    requires NewestFirst(sorted, time)
    ensures AtTime(InsertNewest(value, sorted, time), time, t) == AtTime(sorted + [value], time, t)
    decreases |sorted|
  {
    if sorted != [] && time(sorted[0]) >= time(value) {
      InsertIsStable(value, sorted[1..], time, t);
      AtTimeHead(sorted[0], InsertNewest(value, sorted[1..], time), time, t);
      AtTimeHead(sorted[0], sorted[1..] + [value], time, t);
      assert sorted + [value] == [sorted[0]] + (sorted[1..] + [value]);
    } else {
      if time(value) == t { OlderHaveOtherTimes(sorted, time, t); }
      AtTimeConcat(sorted, [value], time, t);
      AtTimeHead(value, sorted, time, t);
      AtTimeHead(value, [], time, t);
      assert InsertNewest(value, sorted, time) == [value] + sorted && [value] + [] == [value];
    }
  }

  /** Values of equal times keep their order: with the order by time, this fixes the sorted list. */
  lemma {:induction false} SortIsStable<T>(values: seq<T>, time: T -> int, t: int)
    ensures AtTime(SortNewest(values, time), time, t) == AtTime(values, time, t)
    decreases |values|
  {
    if values != [] {
      var last := |values| - 1;
      var before := SortNewest(values[..last], time);
      SortIsStable(values[..last], time, t);
      SortIsNewestFirst(values[..last], time);
      InsertIsStable(values[last], before, time, t);
      AtTimeConcat(before, [values[last]], time, t);
      AtTimeConcat(values[..last], [values[last]], time, t);
      assert values == values[..last] + [values[last]];
    }
  }

  /** Nothing dropped is newer than anything kept, and what is kept and dropped is what was given. */
  lemma NewestAreKept<T>(values: seq<T>, maximum: nat, time: T -> int) returns (dropped: seq<T>)
    ensures var bounded := BoundedNewest(values, maximum, time);
      && multiset(bounded.values) + multiset(dropped) == multiset(values)
      && (bounded.truncated <==> |values| > maximum)
      && (bounded.truncated ==> |bounded.values| == maximum)
      && forall i, j :: 0 <= i < |bounded.values| && 0 <= j < |dropped| ==> time(bounded.values[i]) >= time(dropped[j])
  {
    dropped := [];
    if |values| > maximum {
      var sorted := SortNewest(values, time);
      SortIsNewestFirst(values, time);
      SortPermutes(values, time);
      dropped := sorted[maximum..];
      assert sorted == sorted[..maximum] + dropped;
    }
  }

  lemma SameTails<T>(x: T, a: seq<T>, b: seq<T>)
    requires multiset([x] + a) == multiset([x] + b)
    ensures multiset(a) == multiset(b)
  {
    assert multiset(a) == multiset([x] + a) - multiset{x};
    assert multiset(b) == multiset([x] + b) - multiset{x};
  }

  lemma SameMembers<T>(a: seq<T>, b: seq<T>, i: nat) returns (j: nat)
    requires multiset(a) <= multiset(b) && i < |a|
    ensures j < |b| && b[j] == a[i]
  {
    assert a[i] in multiset(b);
    j :| 0 <= j < |b| && b[j] == a[i];
  }

  // Sums

  function Sum<T>(values: seq<T>, f: T -> nat): nat {
    if values == [] then 0 else f(values[0]) + Sum(values[1..], f)
  }

  lemma {:induction false} SumConcat<T>(a: seq<T>, b: seq<T>, f: T -> nat)
    ensures Sum(a + b, f) == Sum(a, f) + Sum(b, f)
    decreases |a|
  {
    if a == [] {
      assert a + b == b;
    } else {
      assert (a + b)[0] == a[0] && (a + b)[1..] == a[1..] + b;
      SumConcat(a[1..], b, f);
    }
  }

  lemma {:induction false} SumAppend<T>(values: seq<T>, value: T, f: T -> nat)
    ensures Sum(values + [value], f) == Sum(values, f) + f(value)
  {
    SumConcat(values, [value], f);
    assert [value][1..] == [];
  }

  lemma {:induction false} SumUpdate<T>(values: seq<T>, i: nat, value: T, f: T -> nat)
    requires i < |values|
    ensures Sum(values[i := value], f) == Sum(values, f) - f(values[i]) + f(value)
    ensures f(values[i]) <= Sum(values, f)
    decreases |values|
  {
    if i == 0 {
      assert values[i := value][1..] == values[1..];
    } else {
      assert values[i := value][1..] == values[1..][i - 1 := value];
      SumUpdate(values[1..], i - 1, value, f);
    }
  }

  lemma {:induction false} SumInsert<T>(value: T, sorted: seq<T>, time: T -> int, f: T -> nat)
    ensures Sum(InsertNewest(value, sorted, time), f) == f(value) + Sum(sorted, f)
    decreases |sorted|
  {
    if sorted != [] && time(sorted[0]) >= time(value) {
      SumInsert(value, sorted[1..], time, f);
      var rest := InsertNewest(value, sorted[1..], time);
      assert ([sorted[0]] + rest)[1..] == rest;
    } else {
      assert ([value] + sorted)[1..] == sorted;
    }
  }

  lemma {:induction false} SumSort<T>(values: seq<T>, time: T -> int, f: T -> nat)
    ensures Sum(SortNewest(values, time), f) == Sum(values, f)
    decreases |values|
  {
    if values != [] {
      var last := |values| - 1;
      SumSort(values[..last], time, f);
      SumInsert(values[last], SortNewest(values[..last], time), time, f);
      SumAppend(values[..last], values[last], f);
      assert values == values[..last] + [values[last]];
    }
  }

  /** A bounded table sums to no more than the table, and to as much when nothing was dropped. */
  lemma {:induction false} SumBounded<T>(values: seq<T>, maximum: nat, time: T -> int, f: T -> nat)
    ensures var bounded := BoundedNewest(values, maximum, time);
      Sum(bounded.values, f) <= Sum(values, f) && (!bounded.truncated ==> Sum(bounded.values, f) == Sum(values, f))
  {
    if |values| > maximum {
      var sorted := SortNewest(values, time);
      SumSort(values, time, f);
      SumConcat(sorted[..maximum], sorted[maximum..], f);
      assert sorted == sorted[..maximum] + sorted[maximum..];
    }
  }

  // Keys

  function Holds<T, K(==)>(key: T -> K, k: K): T -> nat {
    value => if key(value) == k then 1 else 0
  }

  /** No key stands twice. */
  ghost predicate UniqueKeys<T, K(!new)>(values: seq<T>, key: T -> K) {
    forall k :: Sum(values, Holds(key, k)) <= 1
  }

  function IndexOfKey<T, K(==)>(values: seq<T>, key: T -> K, k: K): (i: nat)
    ensures i <= |values|
    ensures i < |values| ==> key(values[i]) == k
    ensures forall j :: 0 <= j < i ==> key(values[j]) != k
  {
    if values == [] || key(values[0]) == k then 0 else 1 + IndexOfKey(values[1..], key, k)
  }

  lemma {:induction false} AbsentKey<T, K>(values: seq<T>, key: T -> K, k: K)
    requires forall j :: 0 <= j < |values| ==> key(values[j]) != k
    ensures Sum(values, Holds(key, k)) == 0
    decreases |values|
  {
    if values != [] { AbsentKey(values[1..], key, k); }
  }

  /** The found record replaced, or a new one at the end. */
  function Upsert<T, K(==)>(values: seq<T>, key: T -> K, k: K, record: T): (upserted: seq<T>) {
    var i := IndexOfKey(values, key, k);
    if i < |values| then values[i := record] else values + [record]
  }

  lemma UpsertKeepsUnique<T, K(!new)>(values: seq<T>, key: T -> K, k: K, record: T)
    requires UniqueKeys(values, key) && key(record) == k
    ensures UniqueKeys(Upsert(values, key, k, record), key)
  {
    var i := IndexOfKey(values, key, k);
    forall other ensures Sum(Upsert(values, key, k, record), Holds(key, other)) <= 1 {
      if i < |values| {
        SumUpdate(values, i, record, Holds(key, other));
      } else {
        SumAppend(values, record, Holds(key, other));
        if other == k { AbsentKey(values, key, k); }
      }
    }
  }

  lemma BoundKeepsUnique<T, K(!new)>(values: seq<T>, maximum: nat, time: T -> int, key: T -> K)
    requires UniqueKeys(values, key)
    ensures UniqueKeys(BoundedNewest(values, maximum, time).values, key)
  {
    forall k ensures Sum(BoundedNewest(values, maximum, time).values, Holds(key, k)) <= 1 {
      SumBounded(values, maximum, time, Holds(key, k));
    }
  }

  /** Unique keys, said by positions. */
  lemma {:induction false} UniqueByIndex<T, K(!new)>(values: seq<T>, key: T -> K)
    requires UniqueKeys(values, key)
    ensures forall i, j :: 0 <= i < j < |values| ==> key(values[i]) != key(values[j])
  {
    forall i, j | 0 <= i < j < |values| ensures key(values[i]) != key(values[j]) {
      var k := key(values[i]);
      assert values == values[..j] + values[j..];
      SumConcat(values[..j], values[j..], Holds(key, k));
      SumUpdate(values[..j], i, values[i], Holds(key, k));
      assert values[j..][0] == values[j];
      assert Sum(values, Holds(key, k)) <= 1;
    }
  }
}
