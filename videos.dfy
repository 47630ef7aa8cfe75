/**
 * The `videos` table that the webhook handler and the video procedures both
 * write: one record per video, the column accessor used to say which columns
 * an operation writes, and the table-wide UPDATE ... WHERE and
 * DELETE ... WHERE statements as functions on the sequence of rows.
 */
module Videos {
  import opened Wrappers

  datatype Visibility = Private | Public

  /** One row of the `videos` table; nullable columns are `Option`s. */
  datatype Video = Video(
    id: string,
    userId: string,
    title: string,
    description: Option<string>,
    categoryId: Option<string>,
    visibility: Visibility,
    updatedAt: int,
    muxUploadId: Option<string>,
    muxAssetId: Option<string>,
    muxStatus: Option<string>,
    muxPlaybackId: Option<string>,
    muxTrackId: Option<string>,
    muxTrackStatus: Option<string>,
    thumbnailUrl: Option<string>,
    thumbnailKey: Option<string>,
    previewUrl: Option<string>,
    previewKey: Option<string>,
    duration: int)

  /** The `{ key, url }` that the file-upload service returns for a stored file. */
  datatype UploadedFile = UploadedFile(key: string, url: string)

  /** The columns of the `videos` table. */
  datatype Field =
    | Id | UserId | Title | Description | CategoryId | Visibility | UpdatedAt
    | MuxUploadId | MuxAssetId | MuxStatus | MuxPlaybackId | MuxTrackId | MuxTrackStatus
    | ThumbnailUrl | ThumbnailKey | PreviewUrl | PreviewKey | Duration

  /** The value stored in one column of a row. */
  datatype Cell = Null | Text(text: string) | Number(number: int) | Shown(visibility: Visibility)

  function Nullable(s: Option<string>): Cell
  {
    if s.Some? then Text(s.value) else Null
  }

  /** The value of column `f` in row `v`. */
  function Get(v: Video, f: Field): Cell
  {
    match f
    case Id => Text(v.id)
    case UserId => Text(v.userId)
    case Title => Text(v.title)
    case Description => Nullable(v.description)
    case CategoryId => Nullable(v.categoryId)
    case Visibility => Shown(v.visibility)
    case UpdatedAt => Number(v.updatedAt)
    case MuxUploadId => Nullable(v.muxUploadId)
    case MuxAssetId => Nullable(v.muxAssetId)
    case MuxStatus => Nullable(v.muxStatus)
    case MuxPlaybackId => Nullable(v.muxPlaybackId)
    case MuxTrackId => Nullable(v.muxTrackId)
    case MuxTrackStatus => Nullable(v.muxTrackStatus)
    case ThumbnailUrl => Nullable(v.thumbnailUrl)
    case ThumbnailKey => Nullable(v.thumbnailKey)
    case PreviewUrl => Nullable(v.previewUrl)
    case PreviewKey => Nullable(v.previewKey)
    case Duration => Number(v.duration)
  }

  /** Rows `a` and `b` hold the same value in every column outside `fields`. */
  ghost predicate SameOutside(a: Video, b: Video, fields: set<Field>)
  {
    forall f :: f !in fields ==> Get(a, f) == Get(b, f)
  }

  // ---------------------------------------------------------------------
  // Mux image URLs
  // ---------------------------------------------------------------------

  const MuxImageHost: string := "https://image.mux.com/"

  /** The still image Mux serves for a playback id. */
  function ThumbnailSource(playbackId: string): (url: string)
    ensures |url| == |MuxImageHost| + |playbackId| + 14
    ensures url[..|MuxImageHost|] == MuxImageHost && url[|url| - 14..] == "/thumbnail.jpg"
    ensures url[|MuxImageHost|..|url| - 14] == playbackId
  {
    MuxImageHost + playbackId + "/thumbnail.jpg"
  }

  /** The animated preview Mux serves for a playback id. */
  function PreviewSource(playbackId: string): (url: string)
    ensures |url| == |MuxImageHost| + |playbackId| + 13
    ensures url[..|MuxImageHost|] == MuxImageHost && url[|url| - 13..] == "/animated.gif"
    ensures url[|MuxImageHost|..|url| - 13] == playbackId
  {
    MuxImageHost + playbackId + "/animated.gif"
  }

  // ---------------------------------------------------------------------
  // Table statements
  // ---------------------------------------------------------------------

  /**
   * `UPDATE videos SET ... WHERE where`: every row that satisfies `where` is
   * replaced by `change` of it; every other row, and the order, stay.
   */
  function UpdateWhere(rows: seq<Video>, where: Video -> bool, change: Video -> Video): (r: seq<Video>)
    ensures |r| == |rows|
    ensures forall i :: 0 <= i < |rows| && where(rows[i]) ==> r[i] == change(rows[i])
    ensures forall i :: 0 <= i < |rows| && !where(rows[i]) ==> r[i] == rows[i]
  {
    if rows == [] then []
    else [if where(rows[0]) then change(rows[0]) else rows[0]] + UpdateWhere(rows[1..], where, change)
  }

  /** The number of rows that satisfy `where`. */
  function CountWhere(rows: seq<Video>, where: Video -> bool): (n: nat)
    ensures n <= |rows|
  {
    if rows == [] then 0 else (if where(rows[0]) then 1 else 0) + CountWhere(rows[1..], where)
  }

  /**
   * `DELETE FROM videos WHERE where`: the rows that satisfy `where` are gone,
   * every other row remains, and nothing is added.
   */
  function DeleteWhere(rows: seq<Video>, where: Video -> bool): (r: seq<Video>)
    ensures forall v :: v in r <==> v in rows && !where(v)
    ensures |r| == |rows| - CountWhere(rows, where)
  {
    if rows == [] then []
    else if where(rows[0]) then DeleteWhere(rows[1..], where)
    else [rows[0]] + DeleteWhere(rows[1..], where)
  }

  /** Every row of `after` is some row of `before` changed at most in `fields`. */
  ghost predicate ChangedAtMost(before: seq<Video>, after: seq<Video>, fields: set<Field>)
  {
    forall w :: w in after ==> exists v :: v in before && SameOutside(v, w, fields)
  }

  /** An UPDATE whose SET clause writes only `fields` changes no other column of any row. */
  lemma UpdateWhereWrites(rows: seq<Video>, where: Video -> bool, change: Video -> Video, fields: set<Field>)
    requires forall v :: SameOutside(v, change(v), fields)
    ensures ChangedAtMost(rows, UpdateWhere(rows, where, change), fields)
  {
    var r := UpdateWhere(rows, where, change);
    forall w | w in r ensures exists v :: v in rows && SameOutside(v, w, fields) {
      var i :| 0 <= i < |r| && r[i] == w;
      assert rows[i] in rows && SameOutside(rows[i], w, fields);
    }
  }

  /** A statement that leaves the rows as they were changes no column. */
  lemma Unchanged(rows: seq<Video>, fields: set<Field>)
    ensures ChangedAtMost(rows, rows, fields)
  {
    forall w | w in rows ensures exists v :: v in rows && SameOutside(v, w, fields) {
      assert SameOutside(w, w, fields);
    }
  }

  /** A DELETE changes no column of the rows it keeps. */
  lemma DeleteWhereWrites(rows: seq<Video>, where: Video -> bool, fields: set<Field>)
    ensures ChangedAtMost(rows, DeleteWhere(rows, where), fields)
  {
    var r := DeleteWhere(rows, where);
    forall w | w in r ensures exists v :: v in rows && SameOutside(v, w, fields) {
      assert w in rows && SameOutside(w, w, fields);
    }
  }

  // ---------------------------------------------------------------------
  // The primary key
  // ---------------------------------------------------------------------

  /** `id` is the primary key: no two rows share it. */
  ghost predicate UniqueIds(rows: seq<Video>)
  {
    forall i, j :: 0 <= i < j < |rows| ==> rows[i].id != rows[j].id
  }

  /** An UPDATE that writes no `id` keeps the key unique. */
  lemma UpdateWhereKeepsKey(rows: seq<Video>, where: Video -> bool, change: Video -> Video)
    requires UniqueIds(rows)
    requires forall v :: change(v).id == v.id
    ensures UniqueIds(UpdateWhere(rows, where, change))
  {
  }

  /** A DELETE keeps the key unique. */
  lemma {:induction false} DeleteWhereKeepsKey(rows: seq<Video>, where: Video -> bool)
    requires UniqueIds(rows)
    ensures UniqueIds(DeleteWhere(rows, where))
  {
    if rows != [] {
      assert UniqueIds(rows[1..]) by {
        forall i, j | 0 <= i < j < |rows[1..]| ensures rows[1..][i].id != rows[1..][j].id {
          assert rows[1..][i] == rows[i + 1] && rows[1..][j] == rows[j + 1];
        }
      }
      DeleteWhereKeepsKey(rows[1..], where);
      if !where(rows[0]) {
        var tail := DeleteWhere(rows[1..], where);
        var r := [rows[0]] + tail;
        forall i, j | 0 <= i < j < |r| ensures r[i].id != r[j].id {
          if i == 0 {
            assert r[j] == tail[j - 1] && tail[j - 1] in rows[1..];
            var k :| 0 <= k < |rows[1..]| && rows[1..][k] == r[j];
            assert rows[k + 1] == r[j];
          } else {
            assert r[i] == tail[i - 1] && r[j] == tail[j - 1];
          }
        }
      }
    }
  }

  /** With a unique key, at most one row has a given `id`. */
  lemma {:induction false} AtMostOneWithId(rows: seq<Video>, id: string, where: Video -> bool)
    requires UniqueIds(rows)
    requires forall v :: where(v) ==> v.id == id
    ensures CountWhere(rows, where) <= 1
    ensures CountWhere(rows, where) == 1 <==> exists v :: v in rows && where(v)
  {
    if rows != [] {
      assert UniqueIds(rows[1..]) by {
        forall i, j | 0 <= i < j < |rows[1..]| ensures rows[1..][i].id != rows[1..][j].id {
          assert rows[1..][i] == rows[i + 1] && rows[1..][j] == rows[j + 1];
        }
      }
      AtMostOneWithId(rows[1..], id, where);
      if where(rows[0]) {
        forall v | v in rows[1..] ensures !where(v) {
          var k :| 0 <= k < |rows[1..]| && rows[1..][k] == v;
          assert rows[k + 1] == v;
        }
        NoneCounted(rows[1..], where);
      } else {
        assert forall v :: v in rows && where(v) ==> v in rows[1..];
      }
    }
  }

  lemma {:induction false} NoneCounted(rows: seq<Video>, where: Video -> bool)
    requires forall v :: v in rows ==> !where(v)
    ensures CountWhere(rows, where) == 0
  {
    if rows != [] {
      NoneCounted(rows[1..], where);
    }
  }

  /**
   * The database behind the application, reduced to its `videos` table.
   * Route handlers and procedures change `rows` in place.
   */
  class VideoTable {
    var rows: seq<Video>

    ghost predicate Valid()
      reads this
    {
      UniqueIds(rows)
    }

    constructor ()
      ensures Valid() && rows == []
    {
      rows := [];
    }
  }
}
