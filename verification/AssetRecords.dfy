/** Asset records: revisions that share one object and one security verdict, and what may be delivered. */
module AssetRecords {
  import opened Wrappers

  datatype Result<T> = Ok(value: T) | Err(error: Error)
  datatype Error =
    | NotFound | Expired | PartLimit | InvalidPart | PartMismatch | SizeMismatch | BodyMissing
    | InspectionFailed | RevisionMissing | NotDeliverable | NotAnImage | Changed

  datatype Object = Object(key: string, size: nat, checksum: string)
  datatype Security = Security(verified: bool, sanitized: bool, detectedMediaType: string)
  datatype Revision = Revision(
    id: string, version: int, original: Object, metadata: string, focalPoint: Option<string>,
    security: Security, actorId: string, createdAt: int)
  datatype Rendition = Rendition(id: string, presetId: string, file: Object)
  datatype Asset = Asset(
    scope: string, id: string, image: bool, currentRevisionId: string, revisions: seq<Revision>, renditions: seq<Rendition>)

  datatype Focal = KeepPoint | ClearPoint | SetPoint(point: string)
  datatype Changes = Changes(metadata: Option<string>, focalPoint: Focal)

  function FindRevision(revisions: seq<Revision>, id: string): Option<Revision> {
    if revisions == [] then None
    else if revisions[0].id == id then Some(revisions[0])
    else FindRevision(revisions[1..], id)
  }

  function FindRendition(renditions: seq<Rendition>, presetId: string): Option<Rendition> {
    if renditions == [] then None
    else if renditions[0].presetId == presetId then Some(renditions[0])
    else FindRendition(renditions[1..], presetId)
  }

  function Created(scope: string, id: string, image: bool, revisionId: string, file: Object, metadata: string,
                   security: Security, actorId: string, now: int): Asset {
    Asset(scope, id, image, revisionId, [Revision(revisionId, 1, file, metadata, None, security, actorId, now)], [])
  }

  function Updated(asset: Asset, revisionId: string, changes: Changes, actorId: string, now: int): Result<Asset> {
    var current := FindRevision(asset.revisions, asset.currentRevisionId);
    if current.None? then Err(RevisionMissing)
    else
      var revision := current.value.(
        id := revisionId,
        version := current.value.version + 1,
        metadata := if changes.metadata.Some? then changes.metadata.value else current.value.metadata,
        focalPoint := (match changes.focalPoint
                       case KeepPoint => current.value.focalPoint
                       case ClearPoint => None
                       case SetPoint(point) => Some(point)),
        actorId := actorId, createdAt := now);
      Ok(asset.(currentRevisionId := revisionId, revisions := asset.revisions + [revision]))
  }

  /** A preset that was rendered before gives the asset back as it is. */
  function Rendered(asset: Asset, rendition: Rendition): Result<Asset> {
    if !asset.image then Err(NotAnImage)
    else
      var current := FindRevision(asset.revisions, asset.currentRevisionId);
      if current.None? then Err(RevisionMissing)
      else if !current.value.security.verified then Err(NotDeliverable)
      else if FindRendition(asset.renditions, rendition.presetId).Some? then Ok(asset)
      else Ok(asset.(renditions := asset.renditions + [rendition]))
  }

  function Deliverable(asset: Asset, revisionId: Option<string>): Result<Revision> {
    var revision := FindRevision(asset.revisions, if revisionId.Some? then revisionId.value else asset.currentRevisionId);
    if revision.None? then Err(NotFound)
    else if !revision.value.security.verified then Err(NotDeliverable)
    else Ok(revision.value)
  }

  // What every asset keeps

  /** Versions 1..n, distinct ids, the current revision last, and one object and verdict for all. */
  ghost predicate Sound(asset: Asset) {
    var revisions := asset.revisions;
    && revisions != []
    && (forall i, j :: 0 <= i < j < |revisions| ==> revisions[i].id != revisions[j].id)
    && (forall i :: 0 <= i < |revisions| ==>
          revisions[i].version == i + 1
          && revisions[i].original == revisions[0].original && revisions[i].security == revisions[0].security)
    && asset.currentRevisionId == revisions[|revisions| - 1].id
  }

  lemma {:induction false} FoundAt(revisions: seq<Revision>, k: nat)
    requires k < |revisions|
    requires forall i, j :: 0 <= i < j < |revisions| ==> revisions[i].id != revisions[j].id
    ensures FindRevision(revisions, revisions[k].id) == Some(revisions[k])
    decreases k
  {
    if k > 0 {
      assert revisions[0].id != revisions[k].id;
      FoundAt(revisions[1..], k - 1);
    }
  }

  lemma {:induction false} FoundIsMember(revisions: seq<Revision>, id: string)
    ensures var found := FindRevision(revisions, id);
      found.Some? ==> found.value.id == id && exists i :: 0 <= i < |revisions| && revisions[i] == found.value
    decreases |revisions|
  {
    if revisions != [] && revisions[0].id != id {
      FoundIsMember(revisions[1..], id);
      var found := FindRevision(revisions[1..], id);
      if found.Some? {
        var i :| 0 <= i < |revisions| - 1 && revisions[1..][i] == found.value;
        assert revisions[i + 1] == found.value;
      }
    }
  }

  ghost predicate NewId(asset: Asset, revisionId: string) {
    forall i :: 0 <= i < |asset.revisions| ==> asset.revisions[i].id != revisionId
  }

  /** An update adds one revision and leaves every earlier one as it was. */
  lemma UpdateKeeps(asset: Asset, revisionId: string, changes: Changes, actorId: string, now: int)
    requires Sound(asset) && NewId(asset, revisionId)
    ensures var updated := Updated(asset, revisionId, changes, actorId, now);
      && updated.Ok? && Sound(updated.value)
      && |updated.value.revisions| == |asset.revisions| + 1
      && asset.revisions <= updated.value.revisions
      && updated.value.currentRevisionId == revisionId
      && updated.value.renditions == asset.renditions
  {
    FoundAt(asset.revisions, |asset.revisions| - 1);
  }

  /**
   The new revision carries the metadata and the focal point asked for, else those of the revision it
   follows, under its own id, actor and time.
   */
  lemma UpdateLaw(asset: Asset, revisionId: string, changes: Changes, actorId: string, now: int)
    requires Sound(asset)
    ensures var updated := Updated(asset, revisionId, changes, actorId, now);
      var last := asset.revisions[|asset.revisions| - 1];
      && updated.Ok?
      && updated.value.(revisions := asset.revisions, currentRevisionId := asset.currentRevisionId) == asset
      && updated.value.currentRevisionId == revisionId
      && |updated.value.revisions| == |asset.revisions| + 1 && asset.revisions <= updated.value.revisions
      && var added := updated.value.revisions[|asset.revisions|];
      && added.id == revisionId && added.version == |asset.revisions| + 1
      && added.original == last.original && added.security == last.security
      && (changes.metadata.None? ==> added.metadata == last.metadata)
      && (changes.metadata.Some? ==> added.metadata == changes.metadata.value)
      && (changes.focalPoint == KeepPoint ==> added.focalPoint == last.focalPoint)
      && (changes.focalPoint == ClearPoint ==> added.focalPoint == None)
      && (changes.focalPoint.SetPoint? ==> added.focalPoint == Some(changes.focalPoint.point))
      && added.actorId == actorId && added.createdAt == now
  {
    FoundAt(asset.revisions, |asset.revisions| - 1);
  }

  lemma {:induction false} FindsRendition(renditions: seq<Rendition>, presetId: string)
    ensures var found := FindRendition(renditions, presetId);
      && (found.Some? ==> found.value in renditions && found.value.presetId == presetId)
      && (found.None? ==> forall r :: r in renditions ==> r.presetId != presetId)
    decreases |renditions|
  {
    if renditions != [] {
      FindsRendition(renditions[1..], presetId);
      assert forall r :: r in renditions ==> r == renditions[0] || r in renditions[1..];
    }
  }

  /** A verified image gains the rendition, once for each preset; nothing else is ever rendered. */
  lemma RenderLaw(asset: Asset, rendition: Rendition)
    requires Sound(asset)
    ensures var rendered := Rendered(asset, rendition);
      && (rendered.Ok? <==> asset.image && asset.revisions[0].security.verified)
      && (rendered.Ok? ==>
            if exists r :: r in asset.renditions && r.presetId == rendition.presetId then rendered.value == asset
            else
              && rendered.value.renditions == asset.renditions + [rendition]
              && rendered.value.(renditions := asset.renditions) == asset)
  {
    FoundAt(asset.revisions, |asset.revisions| - 1);
    FindsRendition(asset.renditions, rendition.presetId);
  }

  /** A revision is delivered exactly when the asset has it and was verified; without an id, the current one. */
  lemma DeliverableExactly(asset: Asset, asked: Option<string>)
    requires Sound(asset)
    ensures var wanted := if asked.Some? then asked.value else asset.currentRevisionId;
      var has := exists i :: 0 <= i < |asset.revisions| && asset.revisions[i].id == wanted;
      && (Deliverable(asset, asked).Ok? <==> has && asset.revisions[0].security.verified)
      && (Deliverable(asset, asked) == Err(NotFound) <==> !has)
      && (Deliverable(asset, asked).Ok? ==>
            Deliverable(asset, asked).value in asset.revisions && Deliverable(asset, asked).value.id == wanted)
      && (asked.None? ==> has)
  {
    var wanted := if asked.Some? then asked.value else asset.currentRevisionId;
    FoundIsMember(asset.revisions, wanted);
    if i :| 0 <= i < |asset.revisions| && asset.revisions[i].id == wanted { FoundAt(asset.revisions, i); }
    assert asset.revisions[|asset.revisions| - 1].id == asset.currentRevisionId;
  }

  datatype Change =
    | Update(revisionId: string, changes: Changes, actorId: string, now: int)
    | Render(rendition: Rendition)

  function Changed(asset: Asset, change: Change): Asset {
    var result := match change
      case Update(revisionId, changes, actorId, now) => Updated(asset, revisionId, changes, actorId, now)
      case Render(rendition) => Rendered(asset, rendition);
    if result.Ok? then result.value else asset
  }

  function ChangedAll(asset: Asset, changes: seq<Change>): Asset
    decreases |changes|
  {
    if changes == [] then asset else ChangedAll(Changed(asset, changes[0]), changes[1..])
  }

  /** Every update and rendition that is not refused takes effect, in turn. */
  lemma {:induction false} RunSteps(asset: Asset, changes: seq<Change>, change: Change)
    ensures ChangedAll(asset, []) == asset
    ensures var before, after := ChangedAll(asset, changes), ChangedAll(asset, changes + [change]);
      match change
      case Update(revisionId, update, actorId, now) =>
        var updated := Updated(before, revisionId, update, actorId, now);
        after == if updated.Ok? then updated.value else before
      case Render(rendition) =>
        var rendered := Rendered(before, rendition);
        after == if rendered.Ok? then rendered.value else before
    decreases |changes|
  {
    if changes == [] {
      assert ([] + [change])[1..] == [] && (changes + [change])[0] == change;
    } else {
      assert (changes + [change])[1..] == changes[1..] + [change];
      RunSteps(Changed(asset, changes[0]), changes[1..], change);
    }
  }

  ghost predicate FreshRevisions(asset: Asset, changes: seq<Change>)
    decreases |changes|
  {
    changes == [] || (
      && (changes[0].Update? ==> NewId(asset, changes[0].revisionId))
      && FreshRevisions(Changed(asset, changes[0]), changes[1..]))
  }

  /** Over any run of updates and renditions: the record stays sound, and its revisions only grow. */
  lemma {:induction false} RunKeeps(asset: Asset, changes: seq<Change>)
    requires Sound(asset) && FreshRevisions(asset, changes)
    ensures Sound(ChangedAll(asset, changes))
    ensures asset.revisions <= ChangedAll(asset, changes).revisions
    decreases |changes|
  {
    if changes != [] {
      if changes[0].Update? {
        UpdateKeeps(asset, changes[0].revisionId, changes[0].changes, changes[0].actorId, changes[0].now);
      }
      RunKeeps(Changed(asset, changes[0]), changes[1..]);
    }
  }

  /**
   An asset created with a verdict keeps it: every later revision that is asked for by an id it has
   is delivered exactly when the first was verified, with the object of the first.
   */
  lemma {:induction false} VerdictIsForever(scope: string, id: string, image: bool, revisionId: string, file: Object,
                                            metadata: string, security: Security, actorId: string, now: int,
                                            changes: seq<Change>, asked: Option<string>)
    requires FreshRevisions(Created(scope, id, image, revisionId, file, metadata, security, actorId, now), changes)
    ensures var asset := ChangedAll(Created(scope, id, image, revisionId, file, metadata, security, actorId, now), changes);
      && (Deliverable(asset, asked).Ok? ==> security.verified && Deliverable(asset, asked).value.original == file)
      && (security.verified ==> Deliverable(asset, None).Ok?)
  {
    var first := Created(scope, id, image, revisionId, file, metadata, security, actorId, now);
    var asset := ChangedAll(first, changes);
    RunKeeps(first, changes);
    assert asset.revisions[0] == first.revisions[0];
    FoundIsMember(asset.revisions, if asked.Some? then asked.value else asset.currentRevisionId);
    FoundAt(asset.revisions, |asset.revisions| - 1);
  }

  // The objects of an asset

  /** The keys of every object an asset refers to. */
  function Keys(asset: Asset): set<string> {
    (set i | 0 <= i < |asset.revisions| :: asset.revisions[i].original.key)
    + (set i | 0 <= i < |asset.renditions| :: asset.renditions[i].file.key)
  }
}
