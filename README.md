# Video catalogue core: formatters, Mux webhook and owner-scoped mutations

This project models, in Dafny, the three parts of a YouTube-style video
application that hold logic of its own rather than calls to outside services:

- **Display formatters** (`src/lib/utils.ts`). `formatDuration` renders a
  millisecond count as a zero-padded `MM:SS` clock. `snakeCaseToTitleCase` turns a
  status such as `no_subtitles` into `No Subtitles`. Both are pure functions in
  module `Utils`. Beside them sit a reader for the clock (`ParseClock`) and a
  character-by-character reference definition of the title-casing (`TitleFrom`),
  each with a lemma that connects it to the formatter.
- **The Mux webhook** (`src/app/api/videos/webhook/route.ts`). The `videos` table is
  a `VideoTable` object whose `rows` field is a sequence of `Video` records. Each
  event type (`video.asset.created`, `.ready`, `.errored`, `.deleted`,
  `.track.ready`) is a method that changes `rows` in place or returns early.
  `Post` runs the three request guards in order and then dispatches: the signing
  secret, the `mux-signature` header, and the signature itself.
- **Owner-scoped video procedures** (`src/modules/videos/server/precedures.ts`).
  `restoreThumbnail`, `remove`, `update` and `create` are methods on the same
  table. Every write to an existing row is filtered by `(id, userId = caller)`.

Module `Videos` holds what the two table-writing files share:
- the row type, and `Get`, which reads one column of a row;
- `SameOutside`, which says that two rows agree outside a set of columns;
- `UpdateWhere`, `DeleteWhere` and `CountWhere`: SQL `UPDATE`, `DELETE` and counting over the rows;
- the primary-key invariant `UniqueIds`;
- the two Mux image URLs.

Every "writes only these columns" property is stated through `SameOutside`.
`VideoProcedures.OwnedBy` is `Owns` written as a WHERE function for the table statements. `VideoProcedures.Patched` is the per-key rule of `UpdatedRow`: a key left `undefined` in `.set` keeps the column's value.

Outside inputs become parameters:
- the request's secret, header and signature verdict;
- the upload service, as a function from a source URL to the stored file, if any;
- Mux's direct upload;
- the clock (`now`);
- the generated key and column defaults of a new row;
- `DEFAULT_DURATION`.

A JavaScript `null`, `undefined` or empty string tested with `!` is falsy. The
model writes that test as `Wrappers.Truthy`.

## Model

| member | source | states |
|---|---|---|
| `Utils.DecimalString` | src/lib/utils.ts:20-22 | `toString()` of a whole number is a non-empty string of decimal digits, one digit long exactly for numbers below 10 |
| `Utils.ParseDecimalString` | src/lib/utils.ts:20-22 | the digits `toString()` prints read back as the number |
| `Utils.PadStart` | src/lib/utils.ts:20-22 | `padStart(width, fill)`: the result is max(width, length) long, ends with the input character for character, and is fill characters before it |
| `Utils.ParseDecimalLeadingZeros` | src/lib/utils.ts:20-22 | the zeros `padStart` adds do not change the number a field shows |
| `Utils.SecondsOfMinute` | src/lib/utils.ts:17 | the seconds field is always between 0 and 59 |
| `Utils.WholeMinutes` | src/lib/utils.ts:18 | `Math.floor(duration / 60_000)`: the largest m with m*60000 <= duration |
| `Utils.ClockField` | src/lib/utils.ts:20-22 | each field is all digits and at least 2 wide, and exactly 2 wide below 100 |
| `Utils.ClockFieldIsPadStart` | src/lib/utils.ts:20-22 | a clock field is exactly `n.toString().padStart(2, "0")` |
| `Utils.ClockFieldValue` | src/lib/utils.ts:20-22 | a padded field reads back as the number it renders |
| `Utils.JoinClock` | src/lib/utils.ts:20-22 | two digit fields around a colon: the colon is third from the end and every other character is a digit |
| `Utils.FormatDuration` | src/lib/utils.ts:16-23 | the output is at least 5 characters; its one colon is third from the end; every other character is a digit |
| `Utils.DurationFields` | src/lib/utils.ts:17-18 | minutes*60000 + seconds*1000 == d - d % 1000: the fields keep every whole second and drop only the sub-second rest |
| `Utils.ClockRoundTrip` | src/lib/utils.ts:20-22 | two digit fields joined by a colon read back as minutes*60000 + seconds*1000 |
| `Utils.ClockFieldsRoundTrip` | src/lib/utils.ts:20-22 | the clock of whole minutes and of seconds below 60 reads back as those, in milliseconds |
| `Utils.FormatDurationRoundTrip` | src/lib/utils.ts:16-23 | reading the clock back gives the duration truncated to whole seconds, never rounded up |
| `Utils.FormatDurationIgnoresMilliseconds` | src/lib/utils.ts:17-18 | durations that agree to the whole second render identically |
| `Utils.FormatDurationWidth` | src/lib/utils.ts:18-22 | the clock is 5 characters below 100 minutes and wider from 100 minutes on: minutes are not capped |
| `Utils.ToUpper` | src/lib/utils.ts:28 | `toUpperCase` maps each of a-z to its own capital (code point minus 32), leaves every other character alone, and never yields a lower-case letter |
| `Utils.Split` | src/lib/utils.ts:27 | `split("_")` yields at least one piece and no piece contains the separator |
| `Utils.Join` | src/lib/utils.ts:29 | `join(sep)`: when no word holds the separator, splitting the joined text gives the words back |
| `Utils.SplitWord` | src/lib/utils.ts:27 | a piece without the separator splits into itself |
| `Utils.SplitAfterWord` | src/lib/utils.ts:27 | a separator-free piece followed by the separator splits off as the first piece |
| `Utils.JoinSplit` | src/lib/utils.ts:27-29 | joining the pieces of `split` with the same separator gives the input back, empty pieces included |
| `Utils.JoinCons` | src/lib/utils.ts:29 | a character before the first word stays in front of the joined text |
| `Utils.Capitalize` | src/lib/utils.ts:28 | upper-casing the first character keeps the word's length |
| `Utils.CapitalizeAll` | src/lib/utils.ts:28 | `map` keeps the number of words and replaces each word by its capitalized form |
| `Utils.TitleFrom` | src/lib/utils.ts:25-30 | the character-by-character reference keeps the length of its input |
| `Utils.TitleFromWords` | src/lib/utils.ts:26-29 | the reference, read word by word, is the split/capitalize/join pipeline |
| `Utils.SnakeCaseToTitleCase` | src/lib/utils.ts:25-30 | the split/map/join pipeline equals the character-by-character reference `TitleFrom` for every string |
| `Utils.TitleFromAt` | src/lib/utils.ts:26-29 | the reference maps `_` to a space, upper-cases word starts and copies every other character |
| `Utils.TitleCaseAt` | src/lib/utils.ts:26-29 | output has the input's length; `_` becomes a space; a word's first character is upper-cased; every other character is copied unchanged (no lower-casing) |
| `Utils.TitleCaseShape` | src/lib/utils.ts:27-29 | the output has the input's length and contains no `_` |
| `Utils.TitleFromSpaces` | src/lib/utils.ts:27-29 | the reference turns each `_` into one space and keeps the existing spaces |
| `Utils.TitleCaseSpaces` | src/lib/utils.ts:27-29 | spaces in the output = spaces in the input + underscores in the input |
| `Utils.TitleCaseIdempotent` | src/lib/utils.ts:25-30 | applying the function twice gives the same as applying it once |
| `Videos.ThumbnailSource` | src/app/api/videos/webhook/route.ts:66 | the still-image URL is the Mux image host, the playback id, then `/thumbnail.jpg`; the id can be read back from it |
| `Videos.PreviewSource` | src/app/api/videos/webhook/route.ts:67 | the preview URL is the Mux image host, the playback id, then `/animated.gif`; the id can be read back from it |
| `Videos.UpdateWhere` | src/app/api/videos/webhook/route.ts:50-56 | UPDATE ... WHERE: same number of rows in the same order; matching rows changed by the SET clause, all others untouched |
| `Videos.CountWhere` | src/app/api/videos/webhook/route.ts:118 | the number of rows a WHERE clause matches is at most the number of rows |
| `Videos.DeleteWhere` | src/app/api/videos/webhook/route.ts:118 | DELETE ... WHERE: a row remains iff it was there and does not match; the count drops by the number of matches |
| `Videos.UpdateWhereWrites` | src/app/api/videos/webhook/route.ts:85-97 | an UPDATE whose SET clause writes only some columns leaves every other column of every row as it was |
| `Videos.DeleteWhereWrites` | src/app/api/videos/webhook/route.ts:118 | a DELETE changes no column of the rows it keeps |
| `Videos.Unchanged` | src/app/api/videos/webhook/route.ts:48 | an early return leaves every column of every row as it was |
| `Videos.UpdateWhereKeepsKey` | src/modules/videos/server/precedures.ts:86-95 | an UPDATE that does not write `id` keeps the primary key unique |
| `Videos.DeleteWhereKeepsKey` | src/modules/videos/server/precedures.ts:71-74 | a DELETE keeps the primary key unique |
| `Videos.AtMostOneWithId` | src/modules/videos/server/precedures.ts:71-76 | with a unique key a filter on one id matches at most one row, and exactly one iff such a row exists |
| `Videos.NoneCounted` | src/modules/videos/server/precedures.ts:71-76 | a filter that matches no row counts zero rows |
| `Webhook.AssetCreatedRow` | src/app/api/videos/webhook/route.ts:52-55 | `video.asset.created` sets `muxAssetId` and `muxStatus` and no other column |
| `Webhook.AssetReadyRow` | src/app/api/videos/webhook/route.ts:85-96 | `video.asset.ready` sets exactly the eight columns: asset id, status, playback id, thumbnail URL/key, preview URL/key, duration |
| `Webhook.AssetErroredRow` | src/app/api/videos/webhook/route.ts:105-109 | `video.asset.errored` sets only `muxStatus` |
| `Webhook.TrackReadyRow` | src/app/api/videos/webhook/route.ts:131-136 | `video.asset.track.ready` sets only `muxTrackId` and `muxTrackStatus` |
| `Webhook.UploadIdIs` | src/app/api/videos/webhook/route.ts:56 | `eq(videos.muxUploadId, upload_id)` matches exactly the rows whose upload-id column holds that text (a null column never matches) |
| `Webhook.AssetIdIs` | src/app/api/videos/webhook/route.ts:137 | `eq(videos.muxAssetId, asset_id)` matches exactly the rows whose asset-id column holds that text |
| `Webhook.FirstPlaybackId` | src/app/api/videos/webhook/route.ts:61 | `playback_ids?.[0].id`: undefined without a list, a thrown error on an empty list, the first id otherwise |
| `Webhook.ReadyDuration` | src/app/api/videos/webhook/route.ts:68-70 | the incoming duration is stored unless it is absent or zero, in which case `DEFAULT_DURATION` is |
| `Webhook.OnAssetCreated` | src/app/api/videos/webhook/route.ts:45-57 | no upload id: 400, table unchanged; otherwise 200 and exactly the rows with that `muxUploadId` get the new asset id and status |
| `Webhook.OnAssetReady` | src/app/api/videos/webhook/route.ts:59-98 | playback id checked before upload id (both 400); a missing upload result gives 500; every rejection leaves the table unchanged; on success the matching rows get the eight columns from the uploads of the Mux thumbnail/preview URLs |
| `Webhook.OnAssetErrored` | src/app/api/videos/webhook/route.ts:100-111 | no upload id: 400, unchanged; otherwise only `muxStatus` of the matching rows changes |
| `Webhook.OnAssetDeleted` | src/app/api/videos/webhook/route.ts:113-119 | no upload id: 400, unchanged; otherwise exactly the rows with that `muxUploadId` are removed and no others |
| `Webhook.OnTrackReady` | src/app/api/videos/webhook/route.ts:121-138 | keyed by `muxAssetId`: no asset id gives 400 ("No upload id"), unchanged; otherwise only track id and status of matching rows change |
| `Webhook.ChangedAtMostWider` | src/app/api/videos/webhook/route.ts:44-140 | a change confined to some columns is confined to any larger set of columns |
| `Webhook.Post` | src/app/api/videos/webhook/route.ts:25-143 | unset secret, missing header and bad signature are rejected in that order; any outcome but 200 leaves the table unchanged; an unrecognised type returns 200 with no change; no event inserts a row or writes a column outside the Mux/thumbnail/preview/duration set |
| `VideoProcedures.Owns` | src/modules/videos/server/precedures.ts:20 | `and(eq(userId), eq(id))` holds exactly when the row's owner column is the caller and its id column is the id |
| `VideoProcedures.FindOwned` | src/modules/videos/server/precedures.ts:17-21 | the select finds a row of the caller with that id iff one exists |
| `VideoProcedures.FoundIsOwned` | src/modules/videos/server/precedures.ts:17-23 | with a unique key the row found is the caller's only row with that id |
| `VideoProcedures.UpdateOwned` | src/modules/videos/server/precedures.ts:54-62 | an update filtered by (id, caller) changes only the caller's row with that id, and `.returning()` yields the changed row |
| `VideoProcedures.UpdateOwnedRow` | src/modules/videos/server/precedures.ts:54-62 | the filtered update turns the caller's row into `change(row)`, keeps every other row, and `.returning()` hands back the changed row |
| `VideoProcedures.UpdateNothing` | src/modules/videos/server/precedures.ts:95-97 | an update that matches no row leaves the table as it was |
| `VideoProcedures.DeleteNothing` | src/modules/videos/server/precedures.ts:71-76 | a delete that matches no row leaves the table as it was |
| `VideoProcedures.ClearedThumbnail` | src/modules/videos/server/precedures.ts:32-38 | clearing sets thumbnail URL and key to null and touches no other column |
| `VideoProcedures.WithThumbnail` | src/modules/videos/server/precedures.ts:54-60 | restoring sets thumbnail URL and key from the uploaded file and touches no other column |
| `VideoProcedures.RestoreEffect` | src/modules/videos/server/precedures.ts:25-63 | once the row is found: BAD_REQUEST iff there is no playback id; INTERNAL_SERVER_ERROR iff the upload of the Mux still fails; on either error the row keeps only the clearing of a set key; on success the row holds the uploaded file and is returned; only the two thumbnail columns ever change |
| `VideoProcedures.RestoreThumbnail` | src/modules/videos/server/precedures.ts:12-65 | NOT_FOUND with no change when the caller has no such video; otherwise the result and the caller's row are those of `RestoreEffect` and every other row stays as it was |
| `VideoProcedures.Remove` | src/modules/videos/server/precedures.ts:66-79 | NOT_FOUND iff the caller has no video with that id, table unchanged; otherwise exactly that one row is deleted and returned |
| `VideoProcedures.UpdatedRow` | src/modules/videos/server/precedures.ts:86-94 | update writes only title, description, category, visibility and `updatedAt`; a field left undefined keeps its value |
| `VideoProcedures.Update` | src/modules/videos/server/precedures.ts:80-100 | no id: BAD_REQUEST; not the caller's video: NOT_FOUND; both leave the table unchanged; otherwise only the caller's row changes, only in the five metadata columns, and is returned |
| `VideoProcedures.Create` | src/modules/videos/server/precedures.ts:101-136 | exactly one row is appended with the caller as owner, title "Untitled", status "waiting" and the upload id, every other column at its default; the upload URL is returned |

## Left out

- `cn` (a wrapper over two styling libraries) and `deleteFilesFromUploadThing` (deletes at the file-upload service, run in parallel) are not modelled.
- `Utils.FormatDuration` is defined for non-negative whole milliseconds below 2^53 (`Number.MAX_SAFE_INTEGER`). JavaScript numbers that are negative or fractional are not modelled. Neither are durations of at least 2^53 ms, where `duration / 60_000` is rounded in floating point and the minutes can differ from the exact quotient. Nor are durations of at least 10^21, which print in exponent notation.
- `Utils.ToUpper` maps only ASCII letters. `toUpperCase` on other characters, which may change a string's length, is modelled as the identity. The length and idempotence lemmas therefore speak for ASCII input.
- `Webhook.Post` states the three guards, the unchanged table on every non-200 outcome, and the bound on which columns change. The exact effect of each event is stated by the `On...` method it calls, not repeated in `Post`.
- JSON parsing of the request body and the cast of `payload.type` are not modelled. The event arrives already decoded as `Webhook.Event`.
- The signature check is reduced to a yes/no input. The HMAC that Mux's SDK computes is not modelled.
- The file-upload service is a function from source URL to the stored file, if any. It is deterministic, and its deletes have no effect in the model.
- `mux.video.uploads.create` is a `MuxUpload` input, and its request settings are not modelled.
- `Webhook.ReadyDuration` takes the incoming duration as whole milliseconds, because `Math.round(data.duration * 1000)` is floating point. The source tests `data.duration`, in seconds, before it rounds. So a positive duration below 0.0005 s is stored as 0 by the source; the model receives 0 ms and stores the default.
- `DEFAULT_DURATION` is defined in `src/constants`, which is not part of this model. It is a parameter.
- The `videos` table definition is not part of this model. `Create` takes the row its column defaults would make, including the generated `id`, as a parameter.
- `Videos.UniqueIds` and `VideoProcedures.Create` take `id` to be the primary key of `videos`, whose definition (`src/db/schema.ts`) is not part of this model. `Create` requires the generated `id` to be fresh; in the source an insert with a colliding generated id would throw, and that error path is not modelled.
- How the web framework turns a thrown `Error` or a thrown `Response` into an HTTP reply is not modelled. These outcomes are kept apart from returned responses (`Threw`, `ThrewResponse`).
- The NOT_FOUND that `restoreThumbnail` raises when its final update returns no row (src/modules/videos/server/precedures.ts:62) needs a concurrent delete. Requests are applied one at a time here, so the model proves the row is always found.
- Concurrent webhook deliveries and concurrent requests are not modelled. Events apply one at a time, and the last write wins.
- Authentication (`protectedProcedure`, Clerk) is reduced to the caller's `userId`. Input validation by the schema library (uuid format) is not modelled.
- `console.log` in the track-ready case is not modelled.
- The AI workflow routes, the upload-service router `src/app/api/uploadthing/core.ts`, the UI components, `src/db/schema.ts` and `src/trpc/routers/_app.ts` are outside the modelled core.
