/** Multipart uploads: which bytes a list of recorded parts stands for, and cutting a body into parts. */
module AssetUploads {
  import opened Wrappers
  import opened BoundedTables

  type Bytes = seq<bv8>
  type Digest = Bytes -> string

  datatype Part = Part(number: int, etag: string, size: nat)
  datatype Upload = Upload(number: int, body: Bytes)

  function PartOf(digest: Digest, number: int, body: Bytes): Part {
    Part(number, digest(body), |body|)
  }

  /** Descending by this is ascending by number. */
  function Order(part: Part): int { -part.number }

  function WithoutNumber(parts: seq<Part>, number: int): (kept: seq<Part>)
    ensures |kept| <= |parts|
  {
    if parts == [] then []
    else (if parts[0].number == number then [] else [parts[0]]) + WithoutNumber(parts[1..], number)
  }

  /** A new part takes the place of an earlier one of its number. */
  function Recorded(parts: seq<Part>, part: Part): seq<Part> {
    SortNewest(WithoutNumber(parts, part.number) + [part], Order)
  }

  function RecordedAll(digest: Digest, uploads: seq<Upload>): seq<Part> {
    if uploads == [] then []
    else
      var last := |uploads| - 1;
      Recorded(RecordedAll(digest, uploads[..last]), PartOf(digest, uploads[last].number, uploads[last].body))
  }

  function BodiesOf(uploads: seq<Upload>): map<int, Bytes> {
    if uploads == [] then map[]
    else
      var last := |uploads| - 1;
      BodiesOf(uploads[..last])[uploads[last].number := uploads[last].body]
  }

  function TotalSize(parts: seq<Part>): nat {
    if parts == [] then 0 else parts[0].size + TotalSize(parts[1..])
  }

  /** The recorded bodies joined in the order of the list. */
  function Joined(parts: seq<Part>, bodies: map<int, Bytes>): Bytes
    requires forall i :: 0 <= i < |parts| ==> parts[i].number in bodies
  {
    if parts == [] then [] else bodies[parts[0].number] + Joined(parts[1..], bodies)
  }

  /** The last body sent for a number. */
  function LastBody(uploads: seq<Upload>, number: int): Option<Bytes> {
    if uploads == [] then None
    else
      var last := |uploads| - 1;
      if uploads[last].number == number then Some(uploads[last].body) else LastBody(uploads[..last], number)
  }

  /** What an upload means: for each number up to a limit, in order, the last body sent for it. */
  function Assembled(uploads: seq<Upload>, limit: nat): Bytes {
    if limit == 0 then []
    else
      var body := LastBody(uploads, limit);
      Assembled(uploads, limit - 1) + if body.Some? then body.value else []
  }

  // Recorded parts

  ghost predicate Ascending(parts: seq<Part>) {
    forall i, j :: 0 <= i < j < |parts| ==> parts[i].number < parts[j].number
  }

  ghost predicate HasNumber(parts: seq<Part>, number: int) {
    exists i :: 0 <= i < |parts| && parts[i].number == number
  }

  /** The list holds one part for each body, described truly, in the order of the numbers. */
  ghost predicate Describes(digest: Digest, parts: seq<Part>, bodies: map<int, Bytes>) {
    && Ascending(parts)
    && (forall i :: 0 <= i < |parts| ==>
          parts[i].number in bodies && parts[i] == PartOf(digest, parts[i].number, bodies[parts[i].number]))
    && (forall number :: number in bodies ==> HasNumber(parts, number))
  }

  lemma {:induction false} SortedStays(parts: seq<Part>)
    requires Ascending(parts)
    ensures SortNewest(parts, Order) == parts
    decreases |parts|
  {
    if parts != [] {
      var last := |parts| - 1;
      SortedStays(parts[..last]);
      InsertLast(parts[last], parts[..last]);
      assert parts == parts[..last] + [parts[last]];
    }
  }

  lemma {:induction false} InsertLast(part: Part, sorted: seq<Part>)
    requires forall i :: 0 <= i < |sorted| ==> sorted[i].number <= part.number
    ensures InsertNewest(part, sorted, Order) == sorted + [part]
    decreases |sorted|
  {
    if sorted != [] { InsertLast(part, sorted[1..]); }
  }

  lemma {:induction false} WithoutIsAscending(parts: seq<Part>, number: int)
    requires Ascending(parts)
    ensures Ascending(WithoutNumber(parts, number))
    ensures forall part :: part in WithoutNumber(parts, number) <==> part in parts && part.number != number
    decreases |parts|
  {
    if parts != [] {
      WithoutIsAscending(parts[1..], number);
      var rest := WithoutNumber(parts[1..], number);
      assert parts == [parts[0]] + parts[1..];
      forall j | 0 <= j < |rest| ensures parts[0].number < rest[j].number {
        assert rest[j] in parts[1..];
      }
    }
  }

  lemma {:induction false} InsertIsAscending(part: Part, sorted: seq<Part>)
    requires Ascending(sorted) && forall i :: 0 <= i < |sorted| ==> sorted[i].number != part.number
    ensures Ascending(InsertNewest(part, sorted, Order))
    ensures forall other :: other in InsertNewest(part, sorted, Order) <==> other in sorted || other == part
    decreases |sorted|
  {
    if sorted != [] && sorted[0].number <= part.number {
      InsertIsAscending(part, sorted[1..]);
      var rest := InsertNewest(part, sorted[1..], Order);
      assert sorted == [sorted[0]] + sorted[1..];
      forall j | 0 <= j < |rest| ensures sorted[0].number < rest[j].number {
        assert rest[j] in rest;
      }
    }
  }

  /** The recorded list: in order, the new part, and every earlier part of another number. */
  lemma RecordedParts(parts: seq<Part>, part: Part)
    requires Ascending(parts)
    ensures Ascending(Recorded(parts, part))
    ensures forall other :: other in Recorded(parts, part) <==>
      (other == part || (other in parts && other.number != part.number))
  {
    var kept := WithoutNumber(parts, part.number);
    WithoutIsAscending(parts, part.number);
    SortedStays(kept);
    assert (kept + [part])[..|kept|] == kept;
    forall i | 0 <= i < |kept| ensures kept[i].number != part.number { assert kept[i] in kept; }
    InsertIsAscending(part, kept);
    assert Recorded(parts, part) == InsertNewest(part, kept, Order);
  }

  lemma HasPart(parts: seq<Part>, part: Part)
    requires part in parts
    ensures HasNumber(parts, part.number)
  {
    var i :| 0 <= i < |parts| && parts[i] == part;
  }

  /** Recording a part describes the bodies with the part's put in. */
  lemma RecordKeeps(digest: Digest, parts: seq<Part>, bodies: map<int, Bytes>, number: int, body: Bytes)
    requires Describes(digest, parts, bodies)
    ensures Describes(digest, Recorded(parts, PartOf(digest, number, body)), bodies[number := body])
  {
    var part := PartOf(digest, number, body);
    var after, now := Recorded(parts, part), bodies[number := body];
    RecordedParts(parts, part);
    forall i | 0 <= i < |after|
      ensures after[i].number in now && after[i] == PartOf(digest, after[i].number, now[after[i].number])
    {
      assert after[i] in after;
    }
    forall other | other in now ensures HasNumber(after, other) {
      if other == number {
        HasPart(after, part);
      } else {
        var m :| 0 <= m < |parts| && parts[m].number == other;
        assert parts[m] in parts;
        HasPart(after, parts[m]);
      }
    }
  }

  lemma {:induction false} RecordsDescribe(digest: Digest, uploads: seq<Upload>)
    ensures Describes(digest, RecordedAll(digest, uploads), BodiesOf(uploads))
    decreases |uploads|
  {
    if uploads != [] {
      var last := |uploads| - 1;
      RecordsDescribe(digest, uploads[..last]);
      RecordKeeps(digest, RecordedAll(digest, uploads[..last]), BodiesOf(uploads[..last]), uploads[last].number,
                  uploads[last].body);
    }
  }

  // Joining

  lemma {:induction false} JoinedConcat(a: seq<Part>, b: seq<Part>, bodies: map<int, Bytes>)
    requires forall i :: 0 <= i < |a| ==> a[i].number in bodies
    requires forall i :: 0 <= i < |b| ==> b[i].number in bodies
    ensures forall i :: 0 <= i < |a + b| ==> (a + b)[i].number in bodies
    ensures Joined(a + b, bodies) == Joined(a, bodies) + Joined(b, bodies)
    decreases |a|
  {
    if a == [] {
      assert a + b == b;
    } else {
      assert (a + b)[0] == a[0] && (a + b)[1..] == a[1..] + b;
      JoinedConcat(a[1..], b, bodies);
    }
  }

  lemma {:induction false} JoinedSize(digest: Digest, parts: seq<Part>, bodies: map<int, Bytes>)
    requires forall i :: 0 <= i < |parts| ==>
      parts[i].number in bodies && parts[i] == PartOf(digest, parts[i].number, bodies[parts[i].number])
    ensures |Joined(parts, bodies)| == TotalSize(parts)
    decreases |parts|
  {
    if parts != [] { JoinedSize(digest, parts[1..], bodies); }
  }

  /** Every listed part stands for the last body of its number, and every number not listed for none. */
  ghost predicate Stands(parts: seq<Part>, bodies: map<int, Bytes>, uploads: seq<Upload>, limit: nat) {
    && Ascending(parts)
    && (forall i :: 0 <= i < |parts| ==>
          && 1 <= parts[i].number <= limit && parts[i].number in bodies
          && LastBody(uploads, parts[i].number) == Some(bodies[parts[i].number]))
    && (forall n :: 1 <= n <= limit ==> (!HasNumber(parts, n) ==> LastBody(uploads, n) == None))
  }

  lemma FrontStands(parts: seq<Part>, bodies: map<int, Bytes>, uploads: seq<Upload>, limit: nat)
    requires Stands(parts, bodies, uploads, limit) && parts != [] && parts[|parts| - 1].number == limit
    ensures Stands(parts[..|parts| - 1], bodies, uploads, limit - 1)
  {
    var front := parts[..|parts| - 1];
    forall n | 1 <= n < limit && HasNumber(parts, n) ensures HasNumber(front, n) {
      var j :| 0 <= j < |parts| && parts[j].number == n;
      assert front[j].number == n;
    }
  }

  lemma NoneAtLimit(parts: seq<Part>, bodies: map<int, Bytes>, uploads: seq<Upload>, limit: nat)
    requires Stands(parts, bodies, uploads, limit) && limit > 0 && (parts == [] || parts[|parts| - 1].number != limit)
    ensures Stands(parts, bodies, uploads, limit - 1) && LastBody(uploads, limit) == None
  {
    forall i | 0 <= i < |parts| ensures parts[i].number < limit {
      assert i < |parts| - 1 ==> parts[i].number < parts[|parts| - 1].number;
    }
    assert !HasNumber(parts, limit);
  }

  /** The parts of numbers up to a limit join to what was assembled up to it. */
  lemma {:induction false} JoinedLast(front: seq<Part>, last: Part, bodies: map<int, Bytes>)
    requires forall i :: 0 <= i < |front| ==> front[i].number in bodies
    requires last.number in bodies
    ensures forall i :: 0 <= i < |front + [last]| ==> (front + [last])[i].number in bodies
    ensures Joined(front + [last], bodies) == Joined(front, bodies) + bodies[last.number]
  {
    JoinedConcat(front, [last], bodies);
    OneJoined(last, bodies);
  }

  lemma {:induction false} JoinedIsAssembled(parts: seq<Part>, bodies: map<int, Bytes>, uploads: seq<Upload>, limit: nat)
    requires Stands(parts, bodies, uploads, limit)
    ensures Joined(parts, bodies) == Assembled(uploads, limit)
    decreases limit
  {
    if limit > 0 {
      if parts != [] && parts[|parts| - 1].number == limit {
        var front, last := parts[..|parts| - 1], parts[|parts| - 1];
        FrontStands(parts, bodies, uploads, limit);
        JoinedIsAssembled(front, bodies, uploads, limit - 1);
        assert parts == front + [last];
        JoinedLast(front, last, bodies);
        assert Assembled(uploads, limit) == Assembled(uploads, limit - 1) + bodies[last.number];
      } else {
        NoneAtLimit(parts, bodies, uploads, limit);
        JoinedIsAssembled(parts, bodies, uploads, limit - 1);
      }
    }
  }

  lemma {:induction false} OneJoined(part: Part, bodies: map<int, Bytes>)
    requires part.number in bodies
    ensures Joined([part], bodies) == bodies[part.number]
  {
    assert [part][1..] == [];
  }

  lemma {:induction false} BodiesAreLast(uploads: seq<Upload>, number: int)
    ensures LastBody(uploads, number) == if number in BodiesOf(uploads) then Some(BodiesOf(uploads)[number]) else None
    decreases |uploads|
  {
    if uploads != [] { BodiesAreLast(uploads[..|uploads| - 1], number); }
  }

  /** A list that describes the last bodies sent joins to what was assembled. */
  lemma {:induction false} DescribedIsAssembled(digest: Digest, parts: seq<Part>, bodies: map<int, Bytes>,
                                                uploads: seq<Upload>, limit: nat)
    requires Describes(digest, parts, bodies) && bodies == BodiesOf(uploads)
    requires forall i :: 0 <= i < |uploads| ==> 1 <= uploads[i].number <= limit
    ensures Joined(parts, bodies) == Assembled(uploads, limit)
    ensures |Assembled(uploads, limit)| == TotalSize(parts)
  {
    NumbersInRange(uploads, limit);
    forall n ensures LastBody(uploads, n) == if n in bodies then Some(bodies[n]) else None { BodiesAreLast(uploads, n); }
    forall n | 1 <= n <= limit && !HasNumber(parts, n) ensures LastBody(uploads, n) == None {
      assert n !in bodies;
    }
    JoinedIsAssembled(parts, bodies, uploads, limit);
    JoinedSize(digest, parts, bodies);
  }

  /**
   Reassembly: after any uploads and replacements, in any order, the recorded parts join to the
   last bodies sent, by number, and their sizes sum to its size.
   */
  lemma {:induction false} Reassembly(digest: Digest, uploads: seq<Upload>, limit: nat)
    requires forall i :: 0 <= i < |uploads| ==> 1 <= uploads[i].number <= limit
    ensures var parts, bodies := RecordedAll(digest, uploads), BodiesOf(uploads);
      && Describes(digest, parts, bodies)
      && Joined(parts, bodies) == Assembled(uploads, limit)
      && |Assembled(uploads, limit)| == TotalSize(parts)
  {
    RecordsDescribe(digest, uploads);
    DescribedIsAssembled(digest, RecordedAll(digest, uploads), BodiesOf(uploads), uploads, limit);
  }

  lemma {:induction false} NumbersInRange(uploads: seq<Upload>, limit: nat)
    requires forall i :: 0 <= i < |uploads| ==> 1 <= uploads[i].number <= limit
    ensures forall n :: n in BodiesOf(uploads) ==> 1 <= n <= limit
    decreases |uploads|
  {
    if uploads != [] { NumbersInRange(uploads[..|uploads| - 1], limit); }
  }

  // Cutting a body into parts

  function Chunk(body: Bytes, offset: nat, size: nat): (chunk: Bytes)
    requires offset < |body| && size > 0
    ensures 1 <= |chunk| <= size
  {
    if offset + size <= |body| then body[offset..offset + size] else body[offset..]
  }

  /** The parts of a body from an offset on, numbered onwards. */
  function Chunks(body: Bytes, offset: nat, size: nat, number: int): seq<Upload>
    requires size > 0
    decreases |body| - offset
  {
    if offset >= |body| then []
    else [Upload(number, Chunk(body, offset, size))] + Chunks(body, offset + size, size, number + 1)
  }

  function PartsOf(digest: Digest, uploads: seq<Upload>): (parts: seq<Part>)
    ensures |parts| == |uploads|
    ensures forall i :: 0 <= i < |uploads| ==> parts[i] == PartOf(digest, uploads[i].number, uploads[i].body)
  {
    seq(|uploads|, i requires 0 <= i < |uploads| => PartOf(digest, uploads[i].number, uploads[i].body))
  }

  /** Uploads stand under their numbers in a map of bodies. */
  ghost predicate StoredIn(uploads: seq<Upload>, bodies: map<int, Bytes>) {
    forall i :: 0 <= i < |uploads| ==> uploads[i].number in bodies && bodies[uploads[i].number] == uploads[i].body
  }

  /** Numbered consecutively, each with at least one byte and at most a part's size. */
  ghost predicate Numbered(uploads: seq<Upload>, number: int, size: nat) {
    forall i :: 0 <= i < |uploads| ==> uploads[i].number == number + i && 1 <= |uploads[i].body| <= size
  }

  lemma NumberedOn(first: Upload, rest: seq<Upload>, number: int, size: nat)
    requires first.number == number && 1 <= |first.body| <= size && Numbered(rest, number + 1, size)
    ensures Numbered([first] + rest, number, size)
  {
    var uploads := [first] + rest;
    forall i | 0 <= i < |uploads| ensures uploads[i].number == number + i && 1 <= |uploads[i].body| <= size {
      if i > 0 { assert uploads[i] == rest[i - 1]; }
    }
  }

  lemma {:induction false} ChunkNumbers(body: Bytes, offset: nat, size: nat, number: int)
    requires size > 0
    ensures Numbered(Chunks(body, offset, size, number), number, size)
    decreases |body| - offset
  {
    if offset < |body| {
      ChunkNumbers(body, offset + size, size, number + 1);
      NumberedOn(Upload(number, Chunk(body, offset, size)), Chunks(body, offset + size, size, number + 1), number, size);
    }
  }

  /** The chunks, stored under their numbers, join to the body from the offset on. */
  lemma {:induction false} ChunksRejoin(digest: Digest, body: Bytes, offset: nat, size: nat, number: int,
                                        bodies: map<int, Bytes>)
    requires size > 0 && offset <= |body| && StoredIn(Chunks(body, offset, size, number), bodies)
    ensures Joined(PartsOf(digest, Chunks(body, offset, size, number)), bodies) == body[offset..]
    decreases |body| - offset
  {
    var uploads := Chunks(body, offset, size, number);
    if offset < |body| {
      var next := if offset + size <= |body| then offset + size else |body|;
      var rest := Chunks(body, next, size, number + 1);
      assert rest == Chunks(body, offset + size, size, number + 1);
      var chunk := Chunk(body, offset, size);
      assert uploads == [Upload(number, chunk)] + rest;
      StoredTail(uploads, bodies);
      assert uploads[1..] == rest;
      ChunksRejoin(digest, body, next, size, number + 1, bodies);
      assert PartsOf(digest, uploads)[1..] == PartsOf(digest, rest);
      assert body[offset..] == chunk + body[next..];
    }
  }

  lemma StoredTail(uploads: seq<Upload>, bodies: map<int, Bytes>)
    requires StoredIn(uploads, bodies) && uploads != []
    ensures StoredIn(uploads[1..], bodies)
    ensures uploads[0].number in bodies && bodies[uploads[0].number] == uploads[0].body
  {
    forall i | 0 <= i < |uploads| - 1
      ensures uploads[1..][i].number in bodies && bodies[uploads[1..][i].number] == uploads[1..][i].body
    {
      assert uploads[1..][i] == uploads[i + 1];
    }
  }
}
