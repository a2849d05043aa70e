/** The asset service over its storage: uploads, completion, updates, delivery and erasure, one call at a time. */
module AssetService {
  import opened Wrappers
  import opened BoundedTables
  import opened AssetUploads
  import opened AssetRecords
  import opened AssetStorage

  datatype Pending = Pending(
    scope: string, storageId: string, declaredSize: nat, partSize: nat, expiresAt: int,
    parts: seq<Part>, bodies: map<int, Bytes>)
  datatype Inspection = Inspection(sanitized: bool, body: Bytes, mediaType: string)
  datatype Scan = Clean | Infected | Failed
  datatype AssetKey = AssetKey(scope: string, id: string)

  const DAY := 86_400_000

  function WithPart(digest: Digest, pending: Pending, number: int, body: Bytes): Pending {
    pending.(parts := Recorded(pending.parts, PartOf(digest, number, body)), bodies := pending.bodies[number := body])
  }

  /** A pending upload records exactly what was sent, and the storage holds the same bodies. */
  ghost predicate InStep(digest: Digest, pending: Pending, sent: seq<Upload>, maximumParts: nat,
                         stored: map<string, MemoryUpload>) {
    && (forall i :: 0 <= i < |sent| ==> 1 <= sent[i].number <= maximumParts)
    && Describes(digest, pending.parts, pending.bodies)
    && pending.bodies == BodiesOf(sent)
    && pending.storageId in stored
    && stored[pending.storageId] == MemoryUpload(pending.scope, pending.bodies)
  }

  ghost predicate AssetsOk(assets: map<AssetKey, Asset>, objects: map<string, Stored>) {
    && (forall k :: k in assets ==> Sound(assets[k]) && assets[k].scope == k.scope && assets[k].id == k.id)
    && (forall k, l :: k in assets && l in assets && k != l ==> Keys(assets[k]) !! Keys(assets[l]))
    && (forall k, key :: k in assets && key in Keys(assets[k]) && key in objects ==> objects[key].scope == k.scope)
  }

  ghost predicate UploadsOk(digest: Digest, uploads: map<string, Pending>, sent: map<string, seq<Upload>>, maximumParts: nat,
                            stored: map<string, MemoryUpload>) {
    && (forall id :: id in uploads ==> id in sent && InStep(digest, uploads[id], sent[id], maximumParts, stored))
    && (forall a, b :: a in uploads && b in uploads && a != b ==> uploads[a].storageId != uploads[b].storageId)
  }

  lemma InStepSends(digest: Digest, pending: Pending, sent: seq<Upload>, maximumParts: nat, stored: map<string, MemoryUpload>,
                    number: int, body: Bytes)
    requires InStep(digest, pending, sent, maximumParts, stored) && 1 <= number <= maximumParts
    ensures InStep(digest,
                   WithPart(digest, pending, number, body),
                   sent + [Upload(number, body)], maximumParts,
                   stored[pending.storageId := MemoryUpload(pending.scope, pending.bodies[number := body])])
  {
    assert (sent + [Upload(number, body)])[..|sent|] == sent;
    RecordKeeps(digest, pending.parts, pending.bodies, number, body);
  }

  /** Another upload in the storage changes nothing for a pending one. */
  lemma StaysInStep(digest: Digest, pending: Pending, sent: seq<Upload>, maximumParts: nat, stored: map<string, MemoryUpload>,
                    changed: map<string, MemoryUpload>)
    requires InStep(digest, pending, sent, maximumParts, stored)
    requires pending.storageId in changed && changed[pending.storageId] == stored[pending.storageId]
    ensures InStep(digest, pending, sent, maximumParts, changed)
  {
  }

  lemma HasStored(digest: Digest, pending: Pending, sent: seq<Upload>, maximumParts: nat, stored: map<string, MemoryUpload>)
    requires InStep(digest, pending, sent, maximumParts, stored)
    ensures pending.storageId in stored && stored[pending.storageId] == MemoryUpload(pending.scope, pending.bodies)
  {
  }

  lemma OthersStay(digest: Digest, uploads: map<string, Pending>, sent: map<string, seq<Upload>>, maximumParts: nat,
                   stored: map<string, MemoryUpload>, changed: map<string, MemoryUpload>, except: string)
    requires UploadsOk(digest, uploads, sent, maximumParts, stored)
    requires forall other :: other in uploads && other != except ==>
      uploads[other].storageId in changed && changed[uploads[other].storageId] == stored[uploads[other].storageId]
    ensures forall other :: other in uploads && other != except ==>
      InStep(digest, uploads[other], sent[other], maximumParts, changed)
  {
    forall other | other in uploads && other != except
      ensures InStep(digest, uploads[other], sent[other], maximumParts, changed)
    {
      StaysInStep(digest, uploads[other], sent[other], maximumParts, stored, changed);
    }
  }

  lemma StartKeeps(digest: Digest, uploads: map<string, Pending>, sent: map<string, seq<Upload>>, maximumParts: nat,
                   stored: map<string, MemoryUpload>, id: string, pending: Pending)
    requires UploadsOk(digest, uploads, sent, maximumParts, stored)
    requires id !in uploads && pending.storageId !in stored && pending.parts == [] && pending.bodies == map[]
    ensures UploadsOk(digest, uploads[id := pending], sent[id := []], maximumParts,
                      stored[pending.storageId := MemoryUpload(pending.scope, map[])])
  {
    var now := stored[pending.storageId := MemoryUpload(pending.scope, map[])];
    OthersStay(digest, uploads, sent, maximumParts, stored, now, id);
    assert InStep(digest, pending, [], maximumParts, now);
  }

  lemma SendKeeps(digest: Digest, uploads: map<string, Pending>, sent: map<string, seq<Upload>>, maximumParts: nat,
                  stored: map<string, MemoryUpload>, id: string, number: int, body: Bytes)
    requires UploadsOk(digest, uploads, sent, maximumParts, stored) && id in uploads && 1 <= number <= maximumParts
    ensures var pending := uploads[id];
      var after := WithPart(digest, pending, number, body);
      UploadsOk(digest, uploads[id := after], sent[id := sent[id] + [Upload(number, body)]], maximumParts,
                stored[pending.storageId := MemoryUpload(pending.scope, after.bodies)])
  {
    var pending := uploads[id];
    assert InStep(digest, pending, sent[id], maximumParts, stored);
    InStepSends(digest, pending, sent[id], maximumParts, stored, number, body);
    var after := WithPart(digest, pending, number, body);
    ReplaceKeepsUploads(digest, uploads, sent, maximumParts, stored, id, after, sent[id] + [Upload(number, body)],
                        stored[pending.storageId := MemoryUpload(pending.scope, after.bodies)]);
  }

  lemma ReplaceKeepsUploads(digest: Digest, uploads: map<string, Pending>, sent: map<string, seq<Upload>>, maximumParts: nat,
                            stored: map<string, MemoryUpload>, id: string, after: Pending, more: seq<Upload>,
                            changed: map<string, MemoryUpload>)
    requires UploadsOk(digest, uploads, sent, maximumParts, stored) && id in uploads
    requires after.storageId == uploads[id].storageId && InStep(digest, after, more, maximumParts, changed)
    requires forall key :: key in stored && key != after.storageId ==> key in changed && changed[key] == stored[key]
    ensures UploadsOk(digest, uploads[id := after], sent[id := more], maximumParts, changed)
  {
    forall other | other in uploads && other != id
      ensures InStep(digest, uploads[other], sent[other], maximumParts, changed)
    {
      assert InStep(digest, uploads[other], sent[other], maximumParts, stored);
      StaysInStep(digest, uploads[other], sent[other], maximumParts, stored, changed);
    }
  }

  /** What is recorded is found in the storage part by part, and joins to what was assembled. */
  lemma {:induction false} RecordedMatch(digest: Digest, pending: Pending, sent: seq<Upload>, maximumParts: nat,
                                         stored: map<string, MemoryUpload>)
    requires InStep(digest, pending, sent, maximumParts, stored)
    ensures SortNewest(pending.parts, Order) == pending.parts
    ensures Matches(digest, pending.parts, pending.bodies)
    ensures Joined(pending.parts, pending.bodies) == Assembled(sent, maximumParts)
    ensures |Assembled(sent, maximumParts)| == TotalSize(pending.parts)
  {
    DescribedIsAssembled(digest, pending.parts, pending.bodies, sent, maximumParts);
    SortedStays(pending.parts);
  }

  lemma FinishKeeps(digest: Digest, uploads: map<string, Pending>, sent: map<string, seq<Upload>>, maximumParts: nat,
                    stored: map<string, MemoryUpload>, id: string)
    requires UploadsOk(digest, uploads, sent, maximumParts, stored) && id in uploads
    ensures UploadsOk(digest, uploads - {id}, sent, maximumParts, stored - {uploads[id].storageId})
  {
    OthersStay(digest, uploads, sent, maximumParts, stored, stored - {uploads[id].storageId}, id);
  }

  lemma AddKeeps(assets: map<AssetKey, Asset>, objects: map<string, Stored>, asset: Asset, body: Bytes,
                 image: bool, revisionId: string, file: Object, metadata: string, security: Security,
                 actorId: string, now: int)
    requires AssetsOk(assets, objects)
    requires asset == Created(asset.scope, asset.id, image, revisionId, file, metadata, security, actorId, now)
    requires AssetKey(asset.scope, asset.id) !in assets
    requires file.key !in objects && forall k :: k in assets ==> file.key !in Keys(assets[k])
    ensures AssetsOk(assets[AssetKey(asset.scope, asset.id) := asset], objects[file.key := Stored(asset.scope, body)])
  {
    CreatedKeys(asset.scope, asset.id, image, revisionId, file, metadata, security, actorId, now);
    var now' := assets[AssetKey(asset.scope, asset.id) := asset];
    forall k, l | k in now' && l in now' && k != l ensures Keys(now'[k]) !! Keys(now'[l]) {
    }
  }

  lemma CreatedKeys(scope: string, id: string, image: bool, revisionId: string, file: Object, metadata: string,
                    security: Security, actorId: string, now: int)
    ensures var asset := Created(scope, id, image, revisionId, file, metadata, security, actorId, now);
      Sound(asset) && Keys(asset) == {file.key}
  {
    var asset := Created(scope, id, image, revisionId, file, metadata, security, actorId, now);
    assert asset.revisions[0].original.key in Keys(asset);
  }

  lemma UpdatedKeys(asset: Asset, revisionId: string, changes: Changes, actorId: string, now: int)
    requires Sound(asset) && NewId(asset, revisionId)
    ensures Updated(asset, revisionId, changes, actorId, now).Ok?
    ensures Keys(Updated(asset, revisionId, changes, actorId, now).value) == Keys(asset)
  {
    UpdateKeeps(asset, revisionId, changes, actorId, now);
    var after := Updated(asset, revisionId, changes, actorId, now).value;
    assert after.revisions[0] == asset.revisions[0];
    forall key ensures key in Keys(after) <==> key in Keys(asset) {
      assert forall i :: 0 <= i < |after.revisions| ==> after.revisions[i].original == asset.revisions[0].original;
    }
  }

  lemma RenderedKeys(asset: Asset, rendition: Rendition)
    requires Sound(asset) && Rendered(asset, rendition).Ok?
    ensures Sound(Rendered(asset, rendition).value)
    ensures Keys(Rendered(asset, rendition).value) <= Keys(asset) + {rendition.file.key}
  {
  }

  /** A record replaced by a sound one that refers to no other asset's objects. */
  lemma ReplaceKeeps(assets: map<AssetKey, Asset>, objects: map<string, Stored>, k: AssetKey, asset: Asset)
    requires AssetsOk(assets, objects) && k in assets
    requires Sound(asset) && asset.scope == k.scope && asset.id == k.id
    requires forall l :: l in assets && l != k ==> Keys(assets[l]) !! Keys(asset)
    requires forall key :: key in Keys(asset) && key in objects ==> objects[key].scope == k.scope
    ensures AssetsOk(assets[k := asset], objects)
  {
    KeysStayApart(assets, k, asset);
    var now := assets[k := asset];
    forall l | l in now ensures Sound(now[l]) && now[l].scope == l.scope && now[l].id == l.id {
    }
    forall l, key | l in now && key in Keys(now[l]) && key in objects ensures objects[key].scope == l.scope {
      if l != k { assert key in Keys(assets[l]); }
    }
  }

  lemma KeysStayApart(assets: map<AssetKey, Asset>, k: AssetKey, asset: Asset)
    requires forall l, m :: l in assets && m in assets && l != m ==> Keys(assets[l]) !! Keys(assets[m])
    requires forall l :: l in assets && l != k ==> Keys(assets[l]) !! Keys(asset)
    ensures var now := assets[k := asset];
      forall l, m :: l in now && m in now && l != m ==> Keys(now[l]) !! Keys(now[m])
  {
  }

  lemma EraseKeeps(assets: map<AssetKey, Asset>, objects: map<string, Stored>, k: AssetKey)
    requires AssetsOk(assets, objects) && k in assets
    ensures var left := objects - Keys(assets[k]);
      && AssetsOk(assets - {k}, left)
      && (forall key :: key in Keys(assets[k]) && key in objects ==> objects[key].scope == k.scope)
      && forall l, key :: l in assets && l != k && key in Keys(assets[l]) ==> (key in left <==> key in objects)
  {
  }

  method DeleteAll(storage: InMemoryAssetStorage, scope: string, keys: set<string>)
    requires forall key :: key in keys && key in storage.objects ==> storage.objects[key].scope == scope
    modifies storage`objects
    ensures storage.objects == old(storage.objects) - keys
  {
    var left := keys;
    while left != {}
      invariant left <= keys
      invariant storage.objects == old(storage.objects) - (keys - left)
      decreases |left|
    {
      var key :| key in left;
      var _ := storage.DeleteObject(scope, key);
      assert keys - (left - {key}) == (keys - left) + {key};
      left := left - {key};
    }
  }

  /** The uploads so far: the first chunks of the body, stored under their numbers. */
  ghost predicate Progress(digest: Digest, all: seq<Upload>, parts: seq<Part>, bodies: map<int, Bytes>) {
    && |parts| <= |all|
    && parts == PartsOf(digest, all[..|parts|])
    && StoredIn(all[..|parts|], bodies)
  }

  lemma ProgressStep(digest: Digest, all: seq<Upload>, size: nat, parts: seq<Part>, bodies: map<int, Bytes>)
    requires Progress(digest, all, parts, bodies) && |parts| < |all| && Numbered(all, 1, size)
    ensures var next := all[|parts|];
      Progress(digest, all, parts + [PartOf(digest, next.number, next.body)], bodies[next.number := next.body])
  {
    StoredNext(all, size, |parts|, bodies);
  }

  method UploadChunks(storage: InMemoryAssetStorage, scope: string, body: Bytes, uploadId: string) returns (parts: seq<Part>)
    requires storage.partSize > 0 && uploadId in storage.uploads && storage.uploads[uploadId].scope == scope
    modifies storage`uploads
    ensures var all := Chunks(body, 0, storage.partSize, 1);
      && uploadId in storage.uploads && storage.uploads[uploadId].scope == scope
      && storage.uploads == old(storage.uploads)[uploadId := storage.uploads[uploadId]]
      && parts == PartsOf(storage.digest, all) && StoredIn(all, storage.uploads[uploadId].parts)
  {
    ghost var all := Chunks(body, 0, storage.partSize, 1);
    ChunkNumbers(body, 0, storage.partSize, 1);
    parts := [];
    var offset, partNumber := 0, 1;
    while offset < |body|
      invariant partNumber == |parts| + 1
      invariant uploadId in storage.uploads && storage.uploads[uploadId].scope == scope
      invariant storage.uploads == old(storage.uploads)[uploadId := storage.uploads[uploadId]]
      invariant Progress(storage.digest, all, parts, storage.uploads[uploadId].parts)
      invariant all[|parts|..] == Chunks(body, offset, storage.partSize, partNumber)
    {
      assert all[|parts|] == Upload(partNumber, Chunk(body, offset, storage.partSize));
      ProgressStep(storage.digest, all, storage.partSize, parts, storage.uploads[uploadId].parts);
      assert all[|parts|..][1..] == all[|parts| + 1..];
      var result := storage.UploadPart(scope, uploadId, partNumber, Chunk(body, offset, storage.partSize));
      parts := parts + [result.value];
      offset, partNumber := offset + storage.partSize, partNumber + 1;
    }
    assert all[..|parts|] == all;
  }

  /** Cuts a sanitized body into parts of the storage's size and completes them as one object. */
  method StoreSanitized(storage: InMemoryAssetStorage, scope: string, body: Bytes, uploadId: string, objectKey: string)
    returns (file: Object)
    requires storage.partSize > 0 && uploadId !in storage.uploads && objectKey !in storage.objects
    modifies storage
    ensures file == Object(objectKey, |body|, storage.digest(body))
    ensures storage.objects == old(storage.objects)[objectKey := Stored(scope, body)]
    ensures storage.uploads == old(storage.uploads)
  {
    storage.StartMultipart(scope, uploadId);
    var parts := UploadChunks(storage, scope, body, uploadId);
    ChunksComplete(storage.digest, body, storage.partSize, storage.uploads[uploadId].parts);
    PutAndDrop(old(storage.uploads), uploadId, storage.uploads[uploadId]);
    file := CompleteAs(storage, scope, uploadId, parts, objectKey, body);
  }

  lemma PutAndDrop<K, V>(m: map<K, V>, k: K, v: V)
    requires k !in m
    ensures m[k := v] - {k} == m
  {
  }

  /** Completes an upload whose listed parts join to a known body. */
  method CompleteAs(storage: InMemoryAssetStorage, scope: string, uploadId: string, parts: seq<Part>, objectKey: string,
                    ghost body: Bytes) returns (file: Object)
    requires objectKey !in storage.objects && uploadId in storage.uploads && storage.uploads[uploadId].scope == scope
    requires Matches(storage.digest, SortNewest(parts, Order), storage.uploads[uploadId].parts)
    requires Joined(SortNewest(parts, Order), storage.uploads[uploadId].parts) == body
    modifies storage
    ensures file == Object(objectKey, |body|, storage.digest(body))
    ensures storage.objects == old(storage.objects)[objectKey := Stored(scope, body)]
    ensures storage.uploads == old(storage.uploads) - {uploadId}
  {
    var completed := storage.CompleteMultipart(scope, uploadId, parts, objectKey);
    file := completed.value;
  }

  /** Stores the body of a pending upload: the sanitized one in fresh parts, or the parts as they were sent. */
  method StoreBody(storage: InMemoryAssetStorage, pending: Pending, submitted: seq<Part>, sanitized: Option<Bytes>,
                   sanitizedId: string, objectKey: string, ghost sent: Bytes) returns (file: Object)
    requires storage.partSize > 0 && sanitizedId !in storage.uploads && objectKey !in storage.objects
    requires pending.storageId in storage.uploads
      && storage.uploads[pending.storageId] == MemoryUpload(pending.scope, pending.bodies)
    requires SortNewest(submitted, Order) == submitted && Matches(storage.digest, submitted, pending.bodies)
    requires Joined(submitted, pending.bodies) == sent
    modifies storage
    ensures var kept := if sanitized.Some? then sanitized.value else sent;
      && file == Object(objectKey, |kept|, storage.digest(kept))
      && storage.objects == old(storage.objects)[objectKey := Stored(pending.scope, kept)]
    ensures storage.uploads == old(storage.uploads) - {pending.storageId}
  {
    if sanitized.Some? {
      var aborted := storage.AbortMultipart(pending.scope, pending.storageId);
      file := StoreSanitized(storage, pending.scope, sanitized.value, sanitizedId, objectKey);
    } else {
      file := CompleteAs(storage, pending.scope, pending.storageId, submitted, objectKey, sent);
    }
  }

  lemma StoredNext(all: seq<Upload>, size: nat, k: nat, bodies: map<int, Bytes>)
    requires k < |all| && Numbered(all, 1, size)
    requires StoredIn(all[..k], bodies)
    ensures StoredIn(all[..k + 1], bodies[all[k].number := all[k].body])
  {
    forall i | 0 <= i < k ensures all[i].number != all[k].number { }
  }

  /** The chunks of a body, once stored, complete to the body. */
  lemma {:induction false} ChunksComplete(digest: Digest, body: Bytes, size: nat, bodies: map<int, Bytes>)
    requires size > 0 && StoredIn(Chunks(body, 0, size, 1), bodies)
    ensures var parts := PartsOf(digest, Chunks(body, 0, size, 1));
      SortNewest(parts, Order) == parts && Matches(digest, parts, bodies) && Joined(parts, bodies) == body
  {
    ChunkNumbers(body, 0, size, 1);
    ChunksRejoin(digest, body, 0, size, 1, bodies);
    SortedStays(PartsOf(digest, Chunks(body, 0, size, 1)));
  }

  /** Without a scanner nothing is quarantined; with one, whatever it does not call clean. */
  function Verified(scan: Option<Bytes -> Scan>, body: Bytes): bool {
    scan.None? || scan.value(body) == Clean
  }

  function Kept(inspection: Inspection, verified: bool, body: Bytes): Bytes {
    if verified && inspection.sanitized then inspection.body else body
  }

  function SecurityOf(inspection: Inspection, verified: bool): Security {
    Security(verified, verified && inspection.sanitized, inspection.mediaType)
  }

  class AssetService {
    const storage: InMemoryAssetStorage
    const maximumParts: nat
    const maximumPartBody: nat
    var uploads: map<string, Pending>
    var assets: map<AssetKey, Asset>
    ghost var sent: map<string, seq<Upload>>

    ghost predicate Valid()
      reads this, storage
    {
      && storage.partSize > 0
      && UploadsOk(storage.digest, uploads, sent, maximumParts, storage.uploads)
      && AssetsOk(assets, storage.objects)
    }

    constructor (storage: InMemoryAssetStorage, maximumParts: nat, maximumPartBody: nat)
      requires storage.partSize > 0
      ensures Valid() && uploads == map[] && assets == map[]
      ensures this.storage == storage && this.maximumParts == maximumParts && this.maximumPartBody == maximumPartBody
    {
      this.storage, this.maximumParts, this.maximumPartBody := storage, maximumParts, maximumPartBody;
      uploads, assets, sent := map[], map[], map[];
    }

    /** `id` and `storageId` are drawn at random. */
    method StartUpload(scope: string, size: nat, id: string, storageId: string, now: int)
      requires Valid() && id !in uploads && storageId !in storage.uploads
      modifies this, storage
      ensures Valid() && sent == old(sent)[id := []] && assets == old(assets) && storage.objects == old(storage.objects)
      ensures uploads == old(uploads)[id := Pending(scope, storageId, size, storage.partSize, now + DAY, [], map[])]
    {
      StartKeeps(storage.digest, uploads, sent, maximumParts, storage.uploads, id,
                 Pending(scope, storageId, size, storage.partSize, now + DAY, [], map[]));
      storage.StartMultipart(scope, storageId);
      uploads := uploads[id := Pending(scope, storageId, size, storage.partSize, now + DAY, [], map[])];
      sent := sent[id := []];
    }

    /** Sends the part to the storage and records it; the storage refuses numbers below one and empty bodies. */
    method RecordPart(id: string, number: int, body: Bytes) returns (result: Result<Part>)
      requires Valid() && id in uploads && number <= maximumParts
      modifies this, storage
      ensures Valid() && assets == old(assets) && storage.objects == old(storage.objects)
      ensures result.Ok? <==> number >= 1 && body != []
      ensures result.Ok? ==> result.value == PartOf(storage.digest, number, body)
      ensures uploads == if result.Ok? then old(uploads)[id := WithPart(storage.digest, old(uploads)[id], number, body)]
                         else old(uploads)
      ensures sent == if result.Ok? then old(sent)[id := old(sent)[id] + [Upload(number, body)]] else old(sent)
    {
      var pending := uploads[id];
      HasStored(storage.digest, pending, sent[id], maximumParts, storage.uploads);
      result := storage.UploadPart(pending.scope, pending.storageId, number, body);
      if result.Ok? {
        SendKeeps(storage.digest, uploads, sent, maximumParts, old(storage.uploads), id, number, body);
        pending := pending.(parts := Recorded(pending.parts, result.value), bodies := pending.bodies[number := body]);
        assert pending == WithPart(storage.digest, uploads[id], number, body);
        uploads := uploads[id := pending];
        sent := sent[id := sent[id] + [Upload(number, body)]];
      }
    }

    /** Records the part in place of an earlier one of its number, or leaves everything as it was. */
    method UploadPart(scope: string, id: string, number: int, body: Bytes, now: int) returns (result: Result<Part>)
      requires Valid()
      modifies this, storage
      ensures Valid() && assets == old(assets) && storage.objects == old(storage.objects)
      ensures result.Ok? <==>
        && id in old(uploads) && old(uploads)[id].scope == scope && now < old(uploads)[id].expiresAt
        && 1 <= number <= maximumParts && 1 <= |body| <= old(uploads)[id].partSize && |body| <= maximumPartBody
      ensures result.Ok? ==> result.value == PartOf(storage.digest, number, body)
      ensures uploads == if result.Ok? then old(uploads)[id := WithPart(storage.digest, old(uploads)[id], number, body)]
                         else old(uploads)
      ensures sent == if result.Ok? then old(sent)[id := old(sent)[id] + [Upload(number, body)]] else old(sent)
    {
      if id !in uploads { return Err(NotFound); }
      var pending := uploads[id];
      if pending.scope != scope { return Err(NotFound); }
      if pending.expiresAt <= now { return Err(Expired); }
      if number > maximumParts || |body| > pending.partSize || |body| > maximumPartBody { return Err(PartLimit); }
      result := RecordPart(id, number, body);
    }

    /** The checks of a completion: the body all recorded parts join to. */
    method Recover(scope: string, id: string, submitted: seq<Part>) returns (result: Result<Bytes>)
      requires Valid()
      ensures result.Ok? <==>
        && id in uploads && uploads[id].scope == scope && SortNewest(submitted, Order) == uploads[id].parts
        && TotalSize(uploads[id].parts) == uploads[id].declaredSize
      ensures result.Ok? ==>
        && id in uploads && uploads[id].scope == scope
        && InStep(storage.digest, uploads[id], sent[id], maximumParts, storage.uploads)
        && SortNewest(submitted, Order) == uploads[id].parts
        && Matches(storage.digest, uploads[id].parts, uploads[id].bodies)
        && Joined(uploads[id].parts, uploads[id].bodies) == result.value
        && result.value == Assembled(sent[id], maximumParts) && |result.value| == uploads[id].declaredSize
        && SortNewest(uploads[id].parts, Order) == uploads[id].parts
    {
      if id !in uploads { return Err(NotFound); }
      var pending := uploads[id];
      if pending.scope != scope { return Err(NotFound); }
      if SortNewest(submitted, Order) != pending.parts { return Err(PartMismatch); }
      RecordedMatch(storage.digest, pending, sent[id], maximumParts, storage.uploads);
      if TotalSize(pending.parts) != pending.declaredSize { return Err(SizeMismatch); }
      var gathered := Gather(storage.digest, pending.parts, pending.bodies);
      return Ok(gathered.value);
    }

    /** Stores the body of a pending upload and forgets the upload. */
    method Settle(id: string, kept: Option<Bytes>, sanitizedId: string, objectKey: string, ghost body: Bytes)
      returns (file: Object)
      requires Valid() && id in uploads && sanitizedId !in storage.uploads && objectKey !in storage.objects
      requires SortNewest(uploads[id].parts, Order) == uploads[id].parts
      requires Matches(storage.digest, uploads[id].parts, uploads[id].bodies)
      requires Joined(uploads[id].parts, uploads[id].bodies) == body
      modifies this`uploads, storage
      ensures UploadsOk(storage.digest, uploads, sent, maximumParts, storage.uploads)
      ensures uploads == old(uploads) - {id}
      ensures var stored := if kept.Some? then kept.value else body;
        && file == Object(objectKey, |stored|, storage.digest(stored))
        && storage.objects == old(storage.objects)[objectKey := Stored(old(uploads)[id].scope, stored)]
    {
      var pending := uploads[id];
      assert InStep(storage.digest, pending, sent[id], maximumParts, storage.uploads);
      FinishKeeps(storage.digest, uploads, sent, maximumParts, storage.uploads, id);
      file := StoreBody(storage, pending, pending.parts, kept, sanitizedId, objectKey, body);
      uploads := uploads - {id};
    }

    /** Saves the record of a new asset over an object just stored for it. */
    method Register(scope: string, assetId: string, image: bool, revisionId: string, file: Object, metadata: string,
                    security: Security, actorId: string, now: int, ghost objects: map<string, Stored>, ghost body: Bytes)
      returns (asset: Asset)
      requires AssetsOk(assets, objects) && AssetKey(scope, assetId) !in assets
      requires file.key !in objects && forall k :: k in assets ==> file.key !in Keys(assets[k])
      modifies this`assets
      ensures AssetsOk(assets, objects[file.key := Stored(scope, body)])
      ensures asset == Created(scope, assetId, image, revisionId, file, metadata, security, actorId, now)
      ensures assets == old(assets)[AssetKey(scope, assetId) := asset]
    {
      asset := Created(scope, assetId, image, revisionId, file, metadata, security, actorId, now);
      AddKeeps(assets, objects, asset, body, image, revisionId, file, metadata, security, actorId, now);
      assets := assets[AssetKey(scope, assetId) := asset];
    }

    /**
     Completion: the object stored is the concatenation, by number, of the last bytes sent for each
     part, of the declared size; or, for a verified body that the inspector sanitized, exactly the
     sanitized body. A failed completion leaves uploads, objects and assets as they were.
     */
    method CompleteUpload(scope: string, id: string, submitted: seq<Part>, image: bool, metadata: string,
                          actorId: string, now: int,
                          inspect: Bytes -> Option<Inspection>, scan: Option<Bytes -> Scan>,
                          assetId: string, revisionId: string, objectKey: string, sanitizedId: string)
      returns (result: Result<Asset>)
      requires Valid()
      requires AssetKey(scope, assetId) !in assets && sanitizedId !in storage.uploads
      requires objectKey !in storage.objects && forall k :: k in assets ==> objectKey !in Keys(assets[k])
      modifies this, storage
      ensures Valid() && sent == old(sent)
      ensures result.Ok? <==>
        && id in old(uploads) && old(uploads)[id].scope == scope
        && SortNewest(submitted, Order) == old(uploads)[id].parts
        && TotalSize(old(uploads)[id].parts) == old(uploads)[id].declaredSize
        && id in old(sent) && inspect(Assembled(old(sent)[id], maximumParts)).Some?
      ensures result.Ok? ==>
        && id in old(uploads) && id in old(sent)
        && var body := Assembled(old(sent)[id], maximumParts);
        && |body| == old(uploads)[id].declaredSize
        && inspect(body).Some?
        // whatever a scanner there is does not call clean is quarantined, and kept as it was sent
        && var inspection, clean := inspect(body).value, scan.None? || scan.value(body).Clean?;
        && var kept := if clean && inspection.sanitized then inspection.body else body;
        && storage.objects == old(storage.objects)[objectKey := Stored(scope, kept)]
        && result.value == Asset(scope, assetId, image, revisionId, result.value.revisions, [])
        && result.value.revisions
             == [Revision(revisionId, 1, Object(objectKey, |kept|, storage.digest(kept)), metadata, None,
                          Security(clean, clean && inspection.sanitized, inspection.mediaType), actorId, now)]
        && assets == old(assets)[AssetKey(scope, assetId) := result.value]
        && uploads == old(uploads) - {id}
      ensures result.Err? ==> uploads == old(uploads) && assets == old(assets) && storage.objects == old(storage.objects)
    {
      var recovered := Recover(scope, id, submitted);
      if recovered.Err? { return Err(recovered.error); }
      var body := recovered.value;
      var inspection := inspect(body);
      if inspection.None? { return Err(InspectionFailed); }
      var verified := Verified(scan, body);
      var sanitized := if verified && inspection.value.sanitized then Some(inspection.value.body) else None;
      var file := Settle(id, sanitized, sanitizedId, objectKey, body);
      var asset := Register(scope, assetId, image, revisionId, file, metadata,
                            SecurityOf(inspection.value, verified), actorId, now,
                            old(storage.objects), Kept(inspection.value, verified, body));
      return Ok(asset);
    }

    /** Forgets a pending upload and the parts stored for it; an unknown one is no error. */
    method AbortUpload(scope: string, id: string) returns (result: Result<bool>)
      requires Valid()
      modifies this`uploads, storage`uploads
      ensures Valid()
      ensures result.Err? <==> id in old(uploads) && old(uploads)[id].scope != scope
      ensures uploads == if result.Ok? then old(uploads) - {id} else old(uploads)
      ensures storage.uploads == if result.Ok? && id in old(uploads)
                                 then old(storage.uploads) - {old(uploads)[id].storageId} else old(storage.uploads)
    {
      if id !in uploads { return Ok(false); }
      var pending := uploads[id];
      if pending.scope != scope { return Err(NotFound); }
      assert InStep(storage.digest, pending, sent[id], maximumParts, storage.uploads);
      FinishKeeps(storage.digest, uploads, sent, maximumParts, storage.uploads, id);
      var _ := storage.AbortMultipart(scope, pending.storageId);
      uploads := uploads - {id};
      return Ok(true);
    }

    /** A new revision of the current one, with its object and verdict. */
    method Update(scope: string, id: string, changes: Changes, actorId: string, revisionId: string, now: int)
      returns (result: Result<Asset>)
      requires Valid()
      requires AssetKey(scope, id) in assets ==> NewId(assets[AssetKey(scope, id)], revisionId)
      modifies this`assets
      ensures Valid()
      ensures result.Ok? <==> AssetKey(scope, id) in old(assets)
      ensures result.Ok? ==>
        && Updated(old(assets)[AssetKey(scope, id)], revisionId, changes, actorId, now) == result
        && assets == old(assets)[AssetKey(scope, id) := result.value]
      ensures result.Err? ==> assets == old(assets)
    {
      var k := AssetKey(scope, id);
      if k !in assets { return Err(NotFound); }
      UpdateKeeps(assets[k], revisionId, changes, actorId, now);
      result := Updated(assets[k], revisionId, changes, actorId, now);
      UpdatedKeys(assets[k], revisionId, changes, actorId, now);
      ReplaceKeeps(assets, storage.objects, k, result.value);
      assets := assets[k := result.value];
    }

    /** A rendition the adapter has made under a key of its own; a quarantined asset has none. */
    method CreateRendition(scope: string, id: string, rendition: Rendition) returns (result: Result<Rendition>)
      requires Valid()
      requires forall k :: k in assets && k != AssetKey(scope, id) ==> rendition.file.key !in Keys(assets[k])
      requires rendition.file.key in storage.objects ==> storage.objects[rendition.file.key].scope == scope
      modifies this`assets
      ensures Valid()
      ensures result.Ok? <==> AssetKey(scope, id) in old(assets) && Rendered(old(assets)[AssetKey(scope, id)], rendition).Ok?
      ensures result.Ok? ==>
        var asset := old(assets)[AssetKey(scope, id)];
        && asset.revisions[0].security.verified
        && var earlier := FindRendition(asset.renditions, rendition.presetId);
        && result.value == (if earlier.Some? then earlier.value else rendition)
        && assets == old(assets)[AssetKey(scope, id) := Rendered(asset, rendition).value]
      ensures result.Err? ==> assets == old(assets)
    {
      var k := AssetKey(scope, id);
      if k !in assets { return Err(NotFound); }
      var asset := assets[k];
      FoundAt(asset.revisions, |asset.revisions| - 1);
      var rendered := Rendered(asset, rendition);
      if rendered.Err? { return Err(rendered.error); }
      var existing := FindRendition(asset.renditions, rendition.presetId);
      RenderedKeys(asset, rendition);
      ReplaceKeeps(assets, storage.objects, k, rendered.value);
      assets := assets[k := rendered.value];
      return Ok(if existing.Some? then existing.value else rendition);
    }

    /** Only what was verified when it was completed is ever read. */
    method ReadPrivateObject(scope: string, id: string, revisionId: string) returns (result: Result<Bytes>)
      requires Valid()
      ensures result.Ok? <==>
        && AssetKey(scope, id) in assets
        && var asset := assets[AssetKey(scope, id)];
        && (exists i :: 0 <= i < |asset.revisions| && asset.revisions[i].id == revisionId)
        && asset.revisions[0].security.verified && asset.revisions[0].original.key in storage.objects
      ensures result.Ok? ==>
        && AssetKey(scope, id) in assets
        && var first := assets[AssetKey(scope, id)].revisions[0];
        && first.original.key in storage.objects && result.value == storage.objects[first.original.key].body
    {
      if AssetKey(scope, id) !in assets { return Err(NotFound); }
      var asset := assets[AssetKey(scope, id)];
      DeliverableExactly(asset, Some(revisionId));
      var revision := Deliverable(asset, Some(revisionId));
      if revision.Err? { return Err(revision.error); }
      assert asset.revisions[0].original.key in Keys(asset);
      result := storage.ReadObject(scope, revision.value.original);
    }

    /** Deletes the asset and every object it refers to, and no object another asset refers to. */
    method Erase(scope: string, id: string) returns (erased: nat)
      requires Valid()
      modifies this`assets, storage`objects
      ensures Valid()
      ensures assets == old(assets) - {AssetKey(scope, id)}
      ensures AssetKey(scope, id) !in old(assets) ==> erased == 0 && storage.objects == old(storage.objects)
      ensures AssetKey(scope, id) in old(assets) ==>
        var keys := Keys(old(assets)[AssetKey(scope, id)]);
        erased == |keys| && storage.objects == old(storage.objects) - keys
      ensures forall k, key :: k in assets && key in Keys(assets[k]) ==>
        (key in storage.objects <==> key in old(storage.objects))
    {
      var k := AssetKey(scope, id);
      if k !in assets { return 0; }
      var keys := Keys(assets[k]);
      EraseKeeps(assets, storage.objects, k);
      DeleteAll(storage, scope, keys);
      assets := assets - {k};
      erased := |keys|;
    }
  }
}
