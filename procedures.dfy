/**
 * The video mutations of the RPC router: `restoreThumbnail`, `remove`,
 * `update` and `create`. Each acts for an authenticated caller, and every
 * read or write of an existing row is filtered by `(id, userId = caller)`.
 */
module VideoProcedures {
  import opened Wrappers
  import opened Videos

  /** The error codes the procedures raise. */
  datatype TrpcError = NotFound | BadRequest | InternalServerError

  /** `and(eq(videos.userId, userId), eq(videos.id, id))` */
  predicate Owns(v: Video, userId: string, id: string)
    ensures Owns(v, userId, id) <==> Get(v, UserId) == Text(userId) && Get(v, Id) == Text(id)
  {
    v.userId == userId && v.id == id
  }

  /** The same filter as a WHERE clause for the table statements. */
  function OwnedBy(userId: string, id: string): (where: Video -> bool)
    ensures forall v :: where(v) <==> Owns(v, userId, id)
  {
    (v: Video) => Owns(v, userId, id)
  }

  /**
   * `SELECT ... WHERE userId AND id LIMIT 1`, and also the first row that an
   * UPDATE or DELETE with that filter hands back through `.returning()`.
   */
  function FindOwned(rows: seq<Video>, userId: string, id: string): (r: Option<Video>)
    ensures r.Some? ==> r.value in rows && Owns(r.value, userId, id)
    ensures r.None? ==> forall v :: v in rows ==> !Owns(v, userId, id)
  {
    if rows == [] then None
    else if Owns(rows[0], userId, id) then Some(rows[0])
    else FindOwned(rows[1..], userId, id)
  }

  /** With a unique key, the row found is the caller's one row with that id. */
  lemma FoundIsOwned(rows: seq<Video>, userId: string, id: string, i: nat)
    requires UniqueIds(rows)
    requires i < |rows| && Owns(rows[i], userId, id)
    ensures FindOwned(rows, userId, id) == Some(rows[i])
  {
    var found := FindOwned(rows, userId, id).value;
    var k :| 0 <= k < |rows| && rows[k] == found;
    assert rows[k].id == rows[i].id;
  }

  /**
   * An UPDATE filtered by `(id, userId)` that keeps both columns changes the
   * caller's one row with that id and no other, and `.returning()` hands
   * back the changed row.
   */
  lemma UpdateOwned(rows: seq<Video>, userId: string, id: string, change: Video -> Video, video: Video)
    requires UniqueIds(rows) && FindOwned(rows, userId, id) == Some(video)
    requires forall v :: change(v).id == v.id && change(v).userId == v.userId
    ensures var r := UpdateWhere(rows, OwnedBy(userId, id), change);
      && |r| == |rows| && UniqueIds(r)
      && (forall i :: 0 <= i < |rows| && !Owns(rows[i], userId, id) ==> r[i] == rows[i])
      && (forall i :: 0 <= i < |rows| && Owns(rows[i], userId, id) ==> r[i] == change(video))
      && FindOwned(r, userId, id) == Some(change(video))
  {
    var r := UpdateWhere(rows, OwnedBy(userId, id), change);
    UpdateWhereKeepsKey(rows, OwnedBy(userId, id), change);
    forall i | 0 <= i < |rows| && Owns(rows[i], userId, id) ensures r[i] == change(video) {
      FoundIsOwned(rows, userId, id, i);
    }
    var k :| 0 <= k < |rows| && rows[k] == video;
    FoundIsOwned(r, userId, id, k);
  }

  /**
   * `db.update(videos).set(...).where(and(eq(userId), eq(id))).returning()`
   * when the caller owns the row `video`: that row becomes `change(video)`,
   * every other row stays as it was, and the changed row is handed back.
   */
  method UpdateOwnedRow(db: VideoTable, userId: string, id: string, change: Video -> Video, ghost video: Video)
    returns (updated: Video)
    requires db.Valid() && FindOwned(db.rows, userId, id) == Some(video)
    requires forall v :: change(v).id == v.id && change(v).userId == v.userId
    modifies db
    ensures db.Valid() && |db.rows| == |old(db.rows)|
    ensures forall i :: 0 <= i < |db.rows| ==>
      db.rows[i] == if Owns(old(db.rows)[i], userId, id) then change(video) else old(db.rows)[i]
    ensures FindOwned(db.rows, userId, id) == Some(updated) && updated == change(video)
  {
    UpdateOwned(db.rows, userId, id, change, video);
    db.rows := UpdateWhere(db.rows, OwnedBy(userId, id), change);
    updated := FindOwned(db.rows, userId, id).value;
  }

  /** An UPDATE that matches no row leaves the table as it was. */
  lemma {:induction false} UpdateNothing(rows: seq<Video>, where: Video -> bool, change: Video -> Video)
    requires forall v :: v in rows ==> !where(v)
    ensures UpdateWhere(rows, where, change) == rows
  {
    var r := UpdateWhere(rows, where, change);
    forall i | 0 <= i < |rows| ensures r[i] == rows[i] {
      assert rows[i] in rows;
    }
  }

  /** A DELETE that matches no row leaves the table as it was. */
  lemma {:induction false} DeleteNothing(rows: seq<Video>, where: Video -> bool)
    requires forall v :: v in rows ==> !where(v)
    ensures DeleteWhere(rows, where) == rows
  {
    if rows != [] {
      assert rows[0] in rows;
      DeleteNothing(rows[1..], where);
    }
  }

  // ---------------------------------------------------------------------
  // restoreThumbnail
  // ---------------------------------------------------------------------

  /** `set({ thumbnailUrl: null, thumbnailKey: null })` */
  function ClearedThumbnail(v: Video): (w: Video)
    ensures SameOutside(v, w, {ThumbnailUrl, ThumbnailKey})
    ensures w.thumbnailUrl.None? && w.thumbnailKey.None?
  {
    v.(thumbnailUrl := None, thumbnailKey := None)
  }

  /** `set({ thumbnailUrl, thumbnailKey })` from an uploaded file. */
  function WithThumbnail(v: Video, file: UploadedFile): (w: Video)
    ensures SameOutside(v, w, {ThumbnailUrl, ThumbnailKey})
    ensures w.thumbnailUrl == Some(file.url) && w.thumbnailKey == Some(file.key)
  {
    v.(thumbnailUrl := Some(file.url), thumbnailKey := Some(file.key))
  }

  /**
   * What `restoreThumbnail` does once it has found the caller's row
   * `existing`: the result it returns and the row it leaves behind. A custom
   * thumbnail is cleared FIRST; the check for a playback id comes after, so
   * a BAD_REQUEST (or a failed upload) leaves the thumbnail cleared. On
   * success the row holds the file stored from Mux's still image for the
   * playback id. `upload` stands for the file-upload service.
   */
  function RestoreEffect(existing: Video, upload: string -> Option<UploadedFile>): (r: (Result<Video, TrpcError>, Video))
    ensures SameOutside(existing, r.1, {ThumbnailUrl, ThumbnailKey})
    ensures r.0 == Err(BadRequest) <==> !Truthy(existing.muxPlaybackId)
    ensures r.0 == Err(InternalServerError) <==>
      Truthy(existing.muxPlaybackId) && upload(ThumbnailSource(existing.muxPlaybackId.value)).None?
    ensures r.0.Ok? <==>
      Truthy(existing.muxPlaybackId) && upload(ThumbnailSource(existing.muxPlaybackId.value)).Some?
    ensures r.0.Err? ==> r.1 == (if Truthy(existing.thumbnailKey) then ClearedThumbnail(existing) else existing)
    ensures r.0.Ok? ==>
      var file := upload(ThumbnailSource(existing.muxPlaybackId.value)).value;
      r.0.value == r.1 && r.1.thumbnailUrl == Some(file.url) && r.1.thumbnailKey == Some(file.key)
  {
    var cleared := if Truthy(existing.thumbnailKey) then ClearedThumbnail(existing) else existing;
    if !Truthy(existing.muxPlaybackId) then (Err(BadRequest), cleared)
    else
      var uploaded := upload(ThumbnailSource(existing.muxPlaybackId.value));
      if uploaded.None? then (Err(InternalServerError), cleared)
      else (Ok(WithThumbnail(cleared, uploaded.value)), WithThumbnail(cleared, uploaded.value))
  }

  /**
   * `restoreThumbnail({ id })`: NOT_FOUND, with nothing changed, unless the
   * caller owns a video with that id; otherwise the caller's row becomes the
   * row `RestoreEffect` describes, whatever the result, and every other row
   * stays as it was.
   */
  method RestoreThumbnail(db: VideoTable, userId: string, id: string, upload: string -> Option<UploadedFile>)
    returns (res: Result<Video, TrpcError>)
    requires db.Valid()
    modifies db
    ensures db.Valid()
    ensures FindOwned(old(db.rows), userId, id).None? ==> res == Err(NotFound) && db.rows == old(db.rows)
    ensures FindOwned(old(db.rows), userId, id).Some? ==>
      var effect := RestoreEffect(FindOwned(old(db.rows), userId, id).value, upload);
      && res == effect.0
      && |db.rows| == |old(db.rows)|
      && forall i :: 0 <= i < |db.rows| ==>
           db.rows[i] == if Owns(old(db.rows)[i], userId, id) then effect.1 else old(db.rows)[i]
  {
    var existing := FindOwned(db.rows, userId, id);
    if existing.None? {
      return Err(NotFound);
    }
    var video := existing.value;
    var cleared := video;
    if Truthy(video.thumbnailKey) {
      // The stored file is deleted from the upload service first; that call is not modelled.
      cleared := UpdateOwnedRow(db, userId, id, ClearedThumbnail, video);
    }
    if !Truthy(video.muxPlaybackId) {
      return Err(BadRequest);
    }
    var uploaded := upload(ThumbnailSource(video.muxPlaybackId.value));
    if uploaded.None? {
      return Err(InternalServerError);
    }
    var file := uploaded.value;
    ghost var before := db.rows;
    var updated := UpdateOwnedRow(db, userId, id, (v: Video) => WithThumbnail(v, file), cleared);
    assert forall i :: 0 <= i < |db.rows| ==> Owns(before[i], userId, id) == Owns(old(db.rows)[i], userId, id);
    res := Ok(updated);
  }

  // ---------------------------------------------------------------------
  // remove
  // ---------------------------------------------------------------------

  /**
   * `remove({ id })`: delete the caller's video with that id and return it,
   * or raise NOT_FOUND with the table unchanged.
   */
  method Remove(db: VideoTable, userId: string, id: string) returns (res: Result<Video, TrpcError>)
    requires db.Valid()
    modifies db
    ensures db.Valid()
    ensures FindOwned(old(db.rows), userId, id).None? <==> res == Err(NotFound)
    ensures res.Err? ==> db.rows == old(db.rows)
    ensures FindOwned(old(db.rows), userId, id).Some? ==> res == Ok(FindOwned(old(db.rows), userId, id).value)
    ensures res.Ok? ==>
      && res.value in old(db.rows) && Owns(res.value, userId, id)
      && (forall v :: v in db.rows <==> v in old(db.rows) && !Owns(v, userId, id))
      && |db.rows| == |old(db.rows)| - 1
  {
    var removed := FindOwned(db.rows, userId, id);
    AtMostOneWithId(db.rows, id, OwnedBy(userId, id));
    DeleteWhereKeepsKey(db.rows, OwnedBy(userId, id));
    if removed.None? {
      DeleteNothing(db.rows, OwnedBy(userId, id));
    }
    db.rows := DeleteWhere(db.rows, OwnedBy(userId, id));
    if removed.None? {
      return Err(NotFound);
    }
    res := Ok(removed.value);
  }

  // ---------------------------------------------------------------------
  // update
  // ---------------------------------------------------------------------

  /** A key of the SET object: `undefined` keys are not written at all. */
  datatype Patch<T> = Keep | Put(value: T)

  function Patched<T>(current: T, p: Patch<T>): (r: T)
    ensures p.Keep? ==> r == current
    ensures p.Put? ==> r == p.value
  {
    if p.Put? then p.value else current
  }

  /** The fields of the `update` input that the procedure reads. */
  datatype VideoUpdate = VideoUpdate(
    id: Option<string>,
    title: Patch<string>,
    description: Patch<Option<string>>,
    categoryId: Patch<Option<string>>,
    visibility: Patch<Visibility>)

  /** The only columns `update` may write. */
  const UpdateFields: set<Field> := {Title, Description, CategoryId, Visibility, UpdatedAt}

  /**
   * The row after `update`: the given metadata, `updatedAt` set to the
   * current time, and no other column touched.
   */
  function UpdatedRow(v: Video, input: VideoUpdate, now: int): (w: Video)
    ensures SameOutside(v, w, UpdateFields)
    ensures w.updatedAt == now
    ensures w.title == (if input.title.Put? then input.title.value else v.title)
    ensures w.description == (if input.description.Put? then input.description.value else v.description)
    ensures w.categoryId == (if input.categoryId.Put? then input.categoryId.value else v.categoryId)
    ensures w.visibility == (if input.visibility.Put? then input.visibility.value else v.visibility)
  {
    v.(title := Patched(v.title, input.title),
       description := Patched(v.description, input.description),
       categoryId := Patched(v.categoryId, input.categoryId),
       visibility := Patched(v.visibility, input.visibility),
       updatedAt := now)
  }

  /**
   * `update(input)`: BAD_REQUEST without an id; otherwise write the
   * metadata of the caller's row with that id and return it, or raise
   * NOT_FOUND when the caller has no such row. `now` is `new Date()`.
   */
  method Update(db: VideoTable, userId: string, input: VideoUpdate, now: int)
    returns (res: Result<Video, TrpcError>)
    requires db.Valid()
    modifies db
    ensures db.Valid()
    ensures !Truthy(input.id) ==> res == Err(BadRequest)
    ensures Truthy(input.id) && FindOwned(old(db.rows), userId, input.id.value).None? ==> res == Err(NotFound)
    ensures res.Err? ==> db.rows == old(db.rows)
    ensures Truthy(input.id) && FindOwned(old(db.rows), userId, input.id.value).Some? ==>
      && res == Ok(UpdatedRow(FindOwned(old(db.rows), userId, input.id.value).value, input, now))
      && |db.rows| == |old(db.rows)|
      && forall i :: 0 <= i < |db.rows| ==>
           db.rows[i] == if Owns(old(db.rows)[i], userId, input.id.value)
                         then UpdatedRow(old(db.rows)[i], input, now)
                         else old(db.rows)[i]
  {
    if !Truthy(input.id) {
      return Err(BadRequest);
    }
    var id := input.id.value;
    var change := (v: Video) => UpdatedRow(v, input, now);
    ghost var existing := FindOwned(db.rows, userId, id);
    if existing.Some? {
      UpdateOwned(db.rows, userId, id, change, existing.value);
    } else {
      UpdateNothing(db.rows, OwnedBy(userId, id), change);
    }
    db.rows := UpdateWhere(db.rows, OwnedBy(userId, id), change);
    var updated := FindOwned(db.rows, userId, id);
    if updated.None? {
      return Err(NotFound);
    }
    res := Ok(updated.value);
  }

  // ---------------------------------------------------------------------
  // create
  // ---------------------------------------------------------------------

  /** What `mux.video.uploads.create` returns: the upload's id and the URL to send the file to. */
  datatype MuxUpload = MuxUpload(id: string, url: string)

  /** The columns `create` sets explicitly; every other one takes its default. */
  const CreateFields: set<Field> := {UserId, Title, MuxStatus, MuxUploadId}

  /**
   * `create()`: insert one row for the caller and return it with the upload
   * URL. `upload` is the direct upload Mux opened; `defaults` is the row the
   * table's column defaults make, whose `id` is the freshly generated key.
   */
  method Create(db: VideoTable, userId: string, upload: MuxUpload, defaults: Video)
    returns (video: Video, url: string)
    requires db.Valid()
    requires forall v :: v in db.rows ==> v.id != defaults.id
    modifies db
    ensures db.Valid()
    ensures db.rows == old(db.rows) + [video]
    ensures video.userId == userId && video.title == "Untitled"
    ensures video.muxStatus == Some("waiting") && video.muxUploadId == Some(upload.id)
    ensures SameOutside(defaults, video, CreateFields)
    ensures url == upload.url
  {
    video := defaults.(userId := userId, title := "Untitled", muxStatus := Some("waiting"),
                       muxUploadId := Some(upload.id));
    assert video.id == defaults.id;
    db.rows := db.rows + [video];
    url := upload.url;
  }
}
