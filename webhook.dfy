/**
 * The Mux webhook endpoint (`POST /api/videos/webhook`). After the signing
 * secret, the `mux-signature` header and the signature itself are checked,
 * each event type becomes one UPDATE or DELETE on the `videos` table, or an
 * early response that leaves the table as it was.
 */
module Webhook {
  import opened Wrappers
  import opened Videos

  /** The fields of `payload.data` that the handler reads, per event type. */
  datatype Event =
    | AssetCreated(assetId: string, status: string, uploadId: Option<string>)
    | AssetReady(assetId: string, status: string, playbackIds: Option<seq<string>>,
                 uploadId: Option<string>, durationMs: Option<int>)
    | AssetErrored(status: string, uploadId: Option<string>)
    | AssetDeleted(uploadId: Option<string>)
    | TrackReady(trackId: string, status: string, trackAssetId: Option<string>)
    | Unrecognised(eventType: string)

  /** Errors the handler throws rather than returns. */
  datatype Failure =
    | SecretNotSet        // `throw new Error("MUX_WEBHOOK_SECRET is not set.")`
    | SignatureRejected   // `mux.webhooks.verifySignature` throws
    | NoFirstPlaybackId   // `data.playback_ids?.[0].id` on an empty list throws a TypeError

  /** How a request ends. */
  datatype Outcome =
    | Responded(status: nat, body: string)      // a returned `Response`
    | ThrewResponse(status: nat, body: string)  // `throw new Response(...)`
    | Threw(failure: Failure)

  const Received: Outcome := Responded(200, "Webhook received")
  const NoUploadId: Outcome := Responded(400, "No upload id")
  const NoPlaybackId: Outcome := Responded(400, "No playback id")
  const UploadFailed: Outcome := Responded(500, "Failed to upload thumbnail or preview")
  const MissingHeaders: Outcome := ThrewResponse(400, "Missing Mux headers")

  // ---------------------------------------------------------------------
  // Row selectors and the SET clause of each event
  // ---------------------------------------------------------------------

  /** `WHERE videos.muxUploadId = uploadId` */
  function UploadIdIs(uploadId: string): (where: Video -> bool)
    ensures forall v :: where(v) <==> Get(v, MuxUploadId) == Text(uploadId)
  {
    (v: Video) => v.muxUploadId == Some(uploadId)
  }

  /** `WHERE videos.muxAssetId = assetId` */
  function AssetIdIs(assetId: string): (where: Video -> bool)
    ensures forall v :: where(v) <==> Get(v, MuxAssetId) == Text(assetId)
  {
    (v: Video) => v.muxAssetId == Some(assetId)
  }

  /** `video.asset.created` writes the asset id and the status, nothing else. */
  function AssetCreatedRow(v: Video, assetId: string, status: string): (w: Video)
    ensures SameOutside(v, w, {MuxAssetId, MuxStatus})
    ensures w.muxAssetId == Some(assetId) && w.muxStatus == Some(status)
  {
    v.(muxAssetId := Some(assetId), muxStatus := Some(status))
  }

  const ReadyFields: set<Field> :=
    {MuxAssetId, MuxStatus, MuxPlaybackId, ThumbnailUrl, ThumbnailKey, PreviewUrl, PreviewKey, Duration}

  /** `video.asset.ready` writes exactly the eight columns of `ReadyFields`. */
  function AssetReadyRow(v: Video, assetId: string, status: string, playbackId: string,
                         thumbnail: UploadedFile, preview: UploadedFile, duration: int): (w: Video)
    ensures SameOutside(v, w, ReadyFields)
    ensures w.muxAssetId == Some(assetId) && w.muxStatus == Some(status) && w.muxPlaybackId == Some(playbackId)
    ensures w.thumbnailUrl == Some(thumbnail.url) && w.thumbnailKey == Some(thumbnail.key)
    ensures w.previewUrl == Some(preview.url) && w.previewKey == Some(preview.key)
    ensures w.duration == duration
  {
    v.(muxAssetId := Some(assetId), muxStatus := Some(status), muxPlaybackId := Some(playbackId),
       thumbnailUrl := Some(thumbnail.url), thumbnailKey := Some(thumbnail.key),
       previewUrl := Some(preview.url), previewKey := Some(preview.key), duration := duration)
  }

  /** `video.asset.errored` writes only the status. */
  function AssetErroredRow(v: Video, status: string): (w: Video)
    ensures SameOutside(v, w, {MuxStatus}) && w.muxStatus == Some(status)
  {
    v.(muxStatus := Some(status))
  }

  /** `video.asset.track.ready` writes only the track id and the track status. */
  function TrackReadyRow(v: Video, trackId: string, status: string): (w: Video)
    ensures SameOutside(v, w, {MuxTrackId, MuxTrackStatus})
    ensures w.muxTrackId == Some(trackId) && w.muxTrackStatus == Some(status)
  {
    v.(muxTrackId := Some(trackId), muxTrackStatus := Some(status))
  }

  /** Every column any webhook event may write. */
  const WebhookFields: set<Field> := ReadyFields + {MuxTrackId, MuxTrackStatus}

  /**
   * `data.playback_ids?.[0].id`: no list gives `undefined`; an empty list
   * throws, because `?.` guards only the list and not its first element.
   */
  function FirstPlaybackId(playbackIds: Option<seq<string>>): (r: Result<Option<string>, Failure>)
    ensures r.Err? <==> playbackIds == Some([])
    ensures r.Ok? && r.value.Some? <==> playbackIds.Some? && playbackIds.value != []
    ensures r.Ok? && r.value.Some? ==> r.value.value == playbackIds.value[0]
  {
    match playbackIds
    case None => Ok(None)
    case Some(ids) => if ids == [] then Err(NoFirstPlaybackId) else Ok(Some(ids[0]))
  }

  /**
   * `data.duration ? Math.round(data.duration * 1000) : DEFAULT_DURATION`,
   * with the incoming duration already in milliseconds: it is stored unless
   * it is absent or zero.
   */
  function ReadyDuration(durationMs: Option<int>, defaultDuration: int): (d: int)
    ensures durationMs.Some? && durationMs.value != 0 ==> d == durationMs.value
    ensures durationMs.None? || durationMs.value == 0 ==> d == defaultDuration
  {
    if durationMs.Some? && durationMs.value != 0 then durationMs.value else defaultDuration
  }

  // ---------------------------------------------------------------------
  // The handler
  // ---------------------------------------------------------------------

  /** `case "video.asset.created"` */
  method OnAssetCreated(db: VideoTable, assetId: string, status: string, uploadId: Option<string>)
    returns (out: Outcome)
    requires db.Valid()
    modifies db
    ensures db.Valid()
    ensures !Truthy(uploadId) ==> out == NoUploadId && db.rows == old(db.rows)
    ensures Truthy(uploadId) ==> out == Received && |db.rows| == |old(db.rows)|
    ensures Truthy(uploadId) ==>
      forall i :: 0 <= i < |db.rows| ==>
        db.rows[i] == if old(db.rows)[i].muxUploadId == uploadId
                      then AssetCreatedRow(old(db.rows)[i], assetId, status)
                      else old(db.rows)[i]
    ensures ChangedAtMost(old(db.rows), db.rows, {MuxAssetId, MuxStatus})
  {
    if !Truthy(uploadId) {
      Unchanged(db.rows, {MuxAssetId, MuxStatus});
      return NoUploadId;
    }
    var change := (v: Video) => AssetCreatedRow(v, assetId, status);
    UpdateWhereWrites(db.rows, UploadIdIs(uploadId.value), change, {MuxAssetId, MuxStatus});
    UpdateWhereKeepsKey(db.rows, UploadIdIs(uploadId.value), change);
    db.rows := UpdateWhere(db.rows, UploadIdIs(uploadId.value), change);
    out := Received;
  }

  /** `case "video.asset.ready"` */
  method OnAssetReady(db: VideoTable, assetId: string, status: string, playbackIds: Option<seq<string>>,
                      uploadId: Option<string>, durationMs: Option<int>,
                      upload: string -> Option<UploadedFile>, defaultDuration: int)
    returns (out: Outcome)
    requires db.Valid()
    modifies db
    ensures db.Valid()
    ensures out != Received ==> db.rows == old(db.rows)
    ensures FirstPlaybackId(playbackIds).Err? ==> out == Threw(NoFirstPlaybackId)
    ensures FirstPlaybackId(playbackIds).Ok? && !Truthy(FirstPlaybackId(playbackIds).value) ==> out == NoPlaybackId
    ensures var first := FirstPlaybackId(playbackIds);
      first.Ok? && Truthy(first.value) ==>
        var p := first.value.value;
        var thumbnail, preview := upload(ThumbnailSource(p)), upload(PreviewSource(p));
        && (!Truthy(uploadId) ==> out == NoUploadId)
        && (Truthy(uploadId) && (thumbnail.None? || preview.None?) ==> out == UploadFailed)
        && (Truthy(uploadId) && thumbnail.Some? && preview.Some? ==>
              && out == Received
              && |db.rows| == |old(db.rows)|
              && forall i :: 0 <= i < |db.rows| ==>
                   db.rows[i] == if old(db.rows)[i].muxUploadId == uploadId
                                 then AssetReadyRow(old(db.rows)[i], assetId, status, p, thumbnail.value,
                                                    preview.value, ReadyDuration(durationMs, defaultDuration))
                                 else old(db.rows)[i])
    ensures ChangedAtMost(old(db.rows), db.rows, ReadyFields)
  {
    Unchanged(db.rows, ReadyFields);
    var first := FirstPlaybackId(playbackIds);
    if first.Err? {
      return Threw(first.error);
    }
    var playbackId := first.value;
    if !Truthy(playbackId) {
      return NoPlaybackId;
    }
    if !Truthy(uploadId) {
      return NoUploadId;
    }
    var p := playbackId.value;
    var duration := ReadyDuration(durationMs, defaultDuration);
    var thumbnail := upload(ThumbnailSource(p));
    var preview := upload(PreviewSource(p));
    if thumbnail.None? || preview.None? {
      return UploadFailed;
    }
    var change := (v: Video) => AssetReadyRow(v, assetId, status, p, thumbnail.value, preview.value, duration);
    UpdateWhereWrites(db.rows, UploadIdIs(uploadId.value), change, ReadyFields);
    UpdateWhereKeepsKey(db.rows, UploadIdIs(uploadId.value), change);
    db.rows := UpdateWhere(db.rows, UploadIdIs(uploadId.value), change);
    out := Received;
  }

  /** `case "video.asset.errored"` */
  method OnAssetErrored(db: VideoTable, status: string, uploadId: Option<string>) returns (out: Outcome)
    requires db.Valid()
    modifies db
    ensures db.Valid()
    ensures !Truthy(uploadId) ==> out == NoUploadId && db.rows == old(db.rows)
    ensures Truthy(uploadId) ==> out == Received && |db.rows| == |old(db.rows)|
    ensures Truthy(uploadId) ==>
      forall i :: 0 <= i < |db.rows| ==>
        db.rows[i] == if old(db.rows)[i].muxUploadId == uploadId
                      then AssetErroredRow(old(db.rows)[i], status)
                      else old(db.rows)[i]
    ensures ChangedAtMost(old(db.rows), db.rows, {MuxStatus})
  {
    if !Truthy(uploadId) {
      Unchanged(db.rows, {MuxStatus});
      return NoUploadId;
    }
    var change := (v: Video) => AssetErroredRow(v, status);
    UpdateWhereWrites(db.rows, UploadIdIs(uploadId.value), change, {MuxStatus});
    UpdateWhereKeepsKey(db.rows, UploadIdIs(uploadId.value), change);
    db.rows := UpdateWhere(db.rows, UploadIdIs(uploadId.value), change);
    out := Received;
  }

  /** `case "video.asset.deleted"` */
  method OnAssetDeleted(db: VideoTable, uploadId: Option<string>) returns (out: Outcome)
    requires db.Valid()
    modifies db
    ensures db.Valid()
    ensures !Truthy(uploadId) ==> out == NoUploadId && db.rows == old(db.rows)
    ensures Truthy(uploadId) ==> out == Received
    ensures Truthy(uploadId) ==>
      && (forall v :: v in db.rows <==> v in old(db.rows) && v.muxUploadId != uploadId)
      && |db.rows| == |old(db.rows)| - CountWhere(old(db.rows), UploadIdIs(uploadId.value))
    ensures ChangedAtMost(old(db.rows), db.rows, {})
  {
    if !Truthy(uploadId) {
      Unchanged(db.rows, {});
      return NoUploadId;
    }
    DeleteWhereWrites(db.rows, UploadIdIs(uploadId.value), {});
    DeleteWhereKeepsKey(db.rows, UploadIdIs(uploadId.value));
    db.rows := DeleteWhere(db.rows, UploadIdIs(uploadId.value));
    out := Received;
  }

  /** `case "video.asset.track.ready"`: keyed by the asset id, not the upload id. */
  method OnTrackReady(db: VideoTable, trackId: string, status: string, assetId: Option<string>)
    returns (out: Outcome)
    requires db.Valid()
    modifies db
    ensures db.Valid()
    ensures !Truthy(assetId) ==> out == NoUploadId && db.rows == old(db.rows)
    ensures Truthy(assetId) ==> out == Received && |db.rows| == |old(db.rows)|
    ensures Truthy(assetId) ==>
      forall i :: 0 <= i < |db.rows| ==>
        db.rows[i] == if old(db.rows)[i].muxAssetId == assetId
                      then TrackReadyRow(old(db.rows)[i], trackId, status)
                      else old(db.rows)[i]
    ensures ChangedAtMost(old(db.rows), db.rows, {MuxTrackId, MuxTrackStatus})
  {
    if !Truthy(assetId) {
      Unchanged(db.rows, {MuxTrackId, MuxTrackStatus});
      return NoUploadId;
    }
    var change := (v: Video) => TrackReadyRow(v, trackId, status);
    UpdateWhereWrites(db.rows, AssetIdIs(assetId.value), change, {MuxTrackId, MuxTrackStatus});
    UpdateWhereKeepsKey(db.rows, AssetIdIs(assetId.value), change);
    db.rows := UpdateWhere(db.rows, AssetIdIs(assetId.value), change);
    out := Received;
  }

  /** An event that passed the checks changes at most the webhook's own columns. */
  lemma ChangedAtMostWider(before: seq<Video>, after: seq<Video>, fields: set<Field>, wider: set<Field>)
    requires ChangedAtMost(before, after, fields) && fields <= wider
    ensures ChangedAtMost(before, after, wider)
  {
    forall w | w in after ensures exists v :: v in before && SameOutside(v, w, wider) {
      var v :| v in before && SameOutside(v, w, fields);
      assert SameOutside(v, w, wider);
    }
  }

  /**
   * `POST(req)`. The signing secret, the `mux-signature` header and the
   * signature are checked first; `secretSet`, `signature` and
   * `signatureValid` stand for the environment, the header and Mux's
   * verdict. `upload` stands for the file-upload service: the file it
   * stores for a source URL, if any.
   */
  method Post(db: VideoTable, secretSet: bool, signature: Option<string>, signatureValid: bool,
              event: Event, upload: string -> Option<UploadedFile>, defaultDuration: int)
    returns (out: Outcome)
    requires db.Valid()
    modifies db
    ensures db.Valid()
    ensures !secretSet ==> out == Threw(SecretNotSet)
    ensures secretSet && !Truthy(signature) ==> out == MissingHeaders
    ensures secretSet && Truthy(signature) && !signatureValid ==> out == Threw(SignatureRejected)
    ensures out != Received ==> db.rows == old(db.rows)
    ensures event.Unrecognised? ==> db.rows == old(db.rows)
    ensures event.Unrecognised? && secretSet && Truthy(signature) && signatureValid ==> out == Received
    ensures ChangedAtMost(old(db.rows), db.rows, WebhookFields)
    ensures |db.rows| <= |old(db.rows)|
  {
    Unchanged(db.rows, WebhookFields);
    if !secretSet {
      return Threw(SecretNotSet);
    }
    if !Truthy(signature) {
      return MissingHeaders;
    }
    if !signatureValid {
      return Threw(SignatureRejected);
    }
    ghost var before := db.rows;
    match event {
      case AssetCreated(assetId, status, uploadId) =>
        out := OnAssetCreated(db, assetId, status, uploadId);
        ChangedAtMostWider(before, db.rows, {MuxAssetId, MuxStatus}, WebhookFields);
      case AssetReady(assetId, status, playbackIds, uploadId, durationMs) =>
        out := OnAssetReady(db, assetId, status, playbackIds, uploadId, durationMs, upload, defaultDuration);
        ChangedAtMostWider(before, db.rows, ReadyFields, WebhookFields);
      case AssetErrored(status, uploadId) =>
        out := OnAssetErrored(db, status, uploadId);
        ChangedAtMostWider(before, db.rows, {MuxStatus}, WebhookFields);
      case AssetDeleted(uploadId) =>
        out := OnAssetDeleted(db, uploadId);
        ChangedAtMostWider(before, db.rows, {}, WebhookFields);
      case TrackReady(trackId, status, assetId) =>
        out := OnTrackReady(db, trackId, status, assetId);
        ChangedAtMostWider(before, db.rows, {MuxTrackId, MuxTrackStatus}, WebhookFields);
      case Unrecognised(_) =>
        out := Received;
    }
  }
}
