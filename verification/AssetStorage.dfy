/** The in-memory storage adapter: multipart uploads in progress, and stored objects. */
module AssetStorage {
  import opened Wrappers
  import opened BoundedTables
  import opened AssetUploads
  import opened AssetRecords

  datatype MemoryUpload = MemoryUpload(scope: string, parts: map<int, Bytes>)
  datatype Stored = Stored(scope: string, body: Bytes)

  /** Every listed part is stored, with the etag it is listed with. */
  predicate Matches(digest: Digest, parts: seq<Part>, bodies: map<int, Bytes>) {
    forall i :: 0 <= i < |parts| ==> parts[i].number in bodies && digest(bodies[parts[i].number]) == parts[i].etag
  }

  /** Looks every listed part up and joins the bodies; `None` at the first that does not match. */
  method Gather(digest: Digest, parts: seq<Part>, bodies: map<int, Bytes>) returns (body: Option<Bytes>)
    ensures body.Some? <==> Matches(digest, parts, bodies)
    ensures body.Some? ==> body.value == Joined(parts, bodies)
  {
    var joined: Bytes := [];
    for i := 0 to |parts|
      invariant Matches(digest, parts[..i], bodies)
      invariant joined == Joined(parts[..i], bodies)
    {
      var part := parts[i];
      if part.number !in bodies || digest(bodies[part.number]) != part.etag { return None; }
      JoinedConcat(parts[..i], [part], bodies);
      OneJoined(part, bodies);
      assert parts[..i + 1] == parts[..i] + [part];
      joined := joined + bodies[part.number];
    }
    assert parts[..|parts|] == parts;
    body := Some(joined);
  }

  class InMemoryAssetStorage {
    const digest: Digest
    const partSize: nat
    var uploads: map<string, MemoryUpload>
    var objects: map<string, Stored>

    constructor (digest: Digest, partSize: nat)
      requires partSize > 0
      ensures this.digest == digest && this.partSize == partSize && uploads == map[] && objects == map[]
    {
      this.digest, this.partSize, uploads, objects := digest, partSize, map[], map[];
    }

    /** `uploadId` is drawn at random. */
    method StartMultipart(scope: string, uploadId: string)
      requires uploadId !in uploads
      modifies this`uploads
      ensures uploads == old(uploads)[uploadId := MemoryUpload(scope, map[])]
    {
      uploads := uploads[uploadId := MemoryUpload(scope, map[])];
    }

    method UploadPart(scope: string, uploadId: string, number: int, body: Bytes) returns (result: Result<Part>)
      modifies this`uploads
      ensures result.Ok? <==> uploadId in old(uploads) && old(uploads)[uploadId].scope == scope && number >= 1 && body != []
      ensures result.Ok? ==>
        && result.value == PartOf(digest, number, body)
        && uploads == old(uploads)[uploadId := MemoryUpload(scope, old(uploads)[uploadId].parts[number := body])]
      ensures result.Err? ==> uploads == old(uploads)
    {
      if uploadId !in uploads { return Err(NotFound); }
      var upload := uploads[uploadId];
      if upload.scope != scope { return Err(NotFound); }
      if number < 1 || |body| == 0 { return Err(InvalidPart); }
      uploads := uploads[uploadId := upload.(parts := upload.parts[number := body])];
      return Ok(Part(number, digest(body), |body|));
    }

    /** `objectKey` is drawn at random. */
    method CompleteMultipart(scope: string, uploadId: string, parts: seq<Part>, objectKey: string)
      returns (result: Result<Object>)
      requires objectKey !in objects
      modifies this
      ensures result.Ok? <==>
        && uploadId in old(uploads) && old(uploads)[uploadId].scope == scope
        && Matches(digest, SortNewest(parts, Order), old(uploads)[uploadId].parts)
      ensures result.Ok? ==>
        var body := Joined(SortNewest(parts, Order), old(uploads)[uploadId].parts);
        && result.value == Object(objectKey, |body|, digest(body))
        && uploads == old(uploads) - {uploadId}
        && objects == old(objects)[objectKey := Stored(scope, body)]
      ensures result.Err? ==> uploads == old(uploads) && objects == old(objects)
    {
      if uploadId !in uploads { return Err(NotFound); }
      var upload := uploads[uploadId];
      if upload.scope != scope { return Err(NotFound); }
      var gathered := Gather(digest, SortNewest(parts, Order), upload.parts);
      if gathered.None? { return Err(PartMismatch); }
      var body := gathered.value;
      uploads := uploads - {uploadId};
      objects := objects[objectKey := Stored(scope, body)];
      return Ok(Object(objectKey, |body|, digest(body)));
    }

    method ReadObject(scope: string, file: Object) returns (result: Result<Bytes>)
      ensures result.Ok? <==> file.key in objects && objects[file.key].scope == scope
      ensures result.Ok? ==> result.value == objects[file.key].body
    {
      if file.key !in objects { return Err(NotFound); }
      if objects[file.key].scope != scope { return Err(NotFound); }
      return Ok(objects[file.key].body);
    }

    method DeleteObject(scope: string, key: string) returns (result: Result<bool>)
      modifies this`objects
      ensures result.Err? <==> key in old(objects) && old(objects)[key].scope != scope
      ensures objects == if result.Ok? then old(objects) - {key} else old(objects)
    {
      if key !in objects { return Ok(false); }
      if objects[key].scope != scope { return Err(NotFound); }
      objects := objects - {key};
      return Ok(true);
    }

    method AbortMultipart(scope: string, uploadId: string) returns (result: Result<bool>)
      modifies this`uploads
      ensures result.Err? <==> uploadId in old(uploads) && old(uploads)[uploadId].scope != scope
      ensures uploads == if result.Ok? then old(uploads) - {uploadId} else old(uploads)
    {
      if uploadId !in uploads { return Ok(false); }
      if uploads[uploadId].scope != scope { return Err(NotFound); }
      uploads := uploads - {uploadId};
      return Ok(true);
    }
  }
}
