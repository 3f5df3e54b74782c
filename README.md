# Thumbnail generator: a Dafny model of `generateThumbnail`

This project models the decision and naming layer of a Cloud Function that
runs when an object is created in an uploads bucket. It also models the
string formatting of the auxiliary `getGPSCoordinates` snippet.

The handler reads the object's content type:

- An `image/jpeg` is stored under extension `jpg` and an `image/png` under `png`.
- Every other type is skipped without an error.

For an accepted image the handler does the following, in order:

1. Creates the working directory `{tmp}/thumbs`.
2. Downloads the upload there as `{generation}.{ext}`.
3. Copies that file to the final bucket.
4. Resizes it to width 64 as `thumb@64_{generation}.{ext}`.
5. Uploads the thumbnail to the thumbnails bucket.
6. Removes the working directory.

Whether or not the type is accepted, it then deletes the upload, unless an
earlier call rejected (see Failure behaviour).

The model has these parts:

- The calls to storage, the file system and the image library are abstract
  `Effect` values (`Effects.Effect`).
- `Effects.Step` gives the meaning of each call against a `Store`. A `Store`
  holds the three buckets and the local files and directories as maps and
  sets.
- `Effects.Run` runs a sequence of calls and stops at the first call that
  rejects. In the source an awaited call that rejects ends the invocation.
- `Handler.HandlerEffects` is the plan the handler follows.
- `Handler.Cloud` is the world as a mutable object.
- `Handler.Cloud.GenerateThumbnail` is the handler as an imperative method.
  It has the source's if / else-if classification with mutable `fileExtension`
  and `validFile`, and one awaited call after another. It is proved to leave
  the world and the call trace exactly as `Run` of the plan says.

Modules: `Wrappers` (Option), `Strings` (split and join on a character,
decimal digits), `Paths` (`path.join`, basename, dirname), `Naming`,
`Effects`, `Handler`, `Gps`.

Assumptions of the model:

- `bucket.upload(localPath)` stores the file under the last component of
  `localPath`. This is the storage client's default.
- A rejected call changes nothing.
- The calls that can reject are these:
  - a download or delete of a missing object;
  - an upload or resize of a missing local file;
  - a local write into a directory that does not exist;
  - an image the codec refuses.
- The codec is a parameter, `Codec = (Bytes, nat) -> Option<Bytes>`.
- `os.tmpdir()` is a parameter, `tmp`.

Failure behaviour:

- The handler has no `try`/`finally`. A call that rejects therefore skips
  both the removal of `{tmp}/thumbs` and the deletion of the upload
  (`Handler.AbortKeepsUpload`, `Handler.CodecFailureLeavesPartialCopy`).
- When the codec fails after the final upload, the final copy exists and
  the thumbnail does not.

## Model

| member | source | states |
|---|---|---|
| `Naming.ExtensionOf` | gcf_generate_thumbnails/index.js:24-38 | exactly `image/jpeg` and `image/png` are accepted; `image/jpeg` and only it gives `jpg`, `image/png` and only it gives `png` |
| `Naming.ClassifyContentType` | gcf_generate_thumbnails/index.js:24-38 | the if / else-if chain sets `validFile` exactly for the two accepted types, sets the extension `jpg` or `png` for them, and leaves it `""` for any other type |
| `Naming.FinalFileNameRoundTrip` | gcf_generate_thumbnails/index.js:44 | the final name `{generation}.{ext}` splits at its dot back into the generation and the extension, when the generation has no dot |
| `Naming.FinalFileNameInjective` | gcf_generate_thumbnails/index.js:44 | the final name is determined by the generation and the content type, and two dot-free generations or two accepted types never share one |
| `Naming.ThumbNameShape` | gcf_generate_thumbnails/index.js:67 | the thumbnail name starts with `thumb@64_`, ends with the final name, differs from it, and gives it back when the prefix is removed |
| `Naming.ThumbPrefixCarriesWidth` | gcf_generate_thumbnails/index.js:67-75 | the size written in the thumbnail prefix is the decimal rendering of the resize width 64 |
| `Naming.LocalPathsShareWorkingDir` | gcf_generate_thumbnails/index.js:48-71 | the download path and the thumbnail path are in the same directory `{tmp}/thumbs`, have the final name and the thumbnail name as last components, and are different |
| `Paths.JoinParts` | gcf_generate_thumbnails/index.js:48-52 | a path joined from a directory and a plain name has that directory as its parent and that name as its last component, and lies below the directory |
| `Effects.Step` | gcf_generate_thumbnails/index.js:55-85 | one awaited call on the world: ensure-dir adds the directory; a download copies an existing upload into an existing directory; an upload stores an existing local file under its path's last component; a resize writes the codec's output width-64 image into an existing directory; remove-dir is `RemoveTree`; a delete removes an existing upload; otherwise the call rejects. Its contract is the lemma `StepFrame` |
| `Handler.ImageEffects` | gcf_generate_thumbnails/index.js:42-81 | the calls of the JPEG/PNG branch: ensure-dir, download, final upload, resize to width 64, thumbnail upload, remove-dir, on the derived names. Partner lemmas: `ValidTypeOrder`, `ValidTypeNames` |
| `Naming.FinalFileName` | gcf_generate_thumbnails/index.js:44 | the final name: the generation, a dot, the extension. Partner lemmas: `FinalFileNameRoundTrip`, `FinalFileNameInjective` |
| `Naming.ThumbName` | gcf_generate_thumbnails/index.js:67 | the thumbnail name: `thumb@64_` followed by the final name. Partner lemma: `ThumbNameShape` |
| `Naming.WorkingDir` | gcf_generate_thumbnails/index.js:48 | the working directory `{tmp}/thumbs`. Partner lemma: `LocalPathsShareWorkingDir` |
| `Naming.TempFilePath` | gcf_generate_thumbnails/index.js:52 | the download path: the final name in the working directory. Partner lemma: `LocalPathsShareWorkingDir` |
| `Naming.ThumbPath` | gcf_generate_thumbnails/index.js:71 | the thumbnail path: the thumbnail name in the working directory. Partner lemma: `LocalPathsShareWorkingDir` |
| `Paths.Join` | gcf_generate_thumbnails/index.js:48-52 | `path.join` of a directory and a name: the directory, a '/', the name. Partner lemmas: `JoinParts`, `JoinInjective` |
| `Effects.RemoveTree` | gcf_generate_thumbnails/index.js:80 | removing the working directory removes it, every directory and file below it, and nothing else, and leaves the buckets alone |
| `Effects.StepFrame` | gcf_generate_thumbnails/index.js:55-85 | each call changes only what it is about: ensure-dir adds only its directory and keeps the files; a download or resize keeps the directories; the two uploads and the delete keep the local files and directories; only the delete touches the uploads bucket and it removes exactly the named object, which was there; only the uploads touch their buckets; creating or removing a directory never rejects, and removing one is `RemoveTree` |
| `Effects.Run` | gcf_generate_thumbnails/index.js:55-85 | a run that aborts names a call of the sequence, and that call rejects in the world left by the calls before it |
| `Effects.AbortIsFinal` | gcf_generate_thumbnails/index.js:55-85 | once a call has rejected, no later call happens: the run of the whole sequence ends as the aborted prefix did |
| `Effects.AbortedAfterCompletedPrefix` | gcf_generate_thumbnails/index.js:55-85 | an aborted run is the completed run of the calls before the rejected one |
| `Effects.RunKeepsSource` | gcf_generate_thumbnails/index.js:85 | calls other than the source delete never change the uploads bucket |
| `Effects.CountInOrder` | gcf_generate_thumbnails/index.js:55-85 | a call sequence whose i-th call is of the i-th kind holds exactly one call of each kind |
| `Handler.HandlerEffects` | gcf_generate_thumbnails/index.js:41-85 | every plan is non-empty and ends with the deletion of the upload |
| `Handler.InvalidTypeOnlyDeletes` | gcf_generate_thumbnails/index.js:41-85 | for any other content type the plan is exactly one source delete: no download, copy, resize or thumbnail upload |
| `Handler.ValidTypeOrder` | gcf_generate_thumbnails/index.js:55-85 | for a JPEG or PNG the plan is ensure-dir, download, final upload, resize, thumbnail upload, remove-dir, delete-source, in this order, exactly once each, with the delete last |
| `Handler.ValidTypeNames` | gcf_generate_thumbnails/index.js:44-76 | the plan creates and removes `{tmp}/thumbs`, downloads the upload by its name into it, uploads that same downloaded file under the final name, resizes to width 64 into a different path in the same directory, and uploads that path under the thumbnail name |
| `Handler.CopyPhase` | gcf_generate_thumbnails/index.js:55-63 | with the upload present, the first three calls create the directory, download the upload under the final name and copy it to the final bucket under that name |
| `Handler.ThumbnailPhase` | gcf_generate_thumbnails/index.js:67-77 | when the codec accepts the image, the next two calls write the width-64 thumbnail into the working directory and upload it under the thumbnail name, and the directories are still those after the first call |
| `Handler.ImageRunCompletes` | gcf_generate_thumbnails/index.js:42-81 | the JPEG/PNG branch completes, adds the original and the thumbnail to their buckets, keeps the upload, removes the working directory and every file and directory below it, and keeps every other local file with its contents and every other directory |
| `Handler.ValidRunCompletes` | gcf_generate_thumbnails/index.js:41-86 | a JPEG or PNG whose upload exists and whose image the codec accepts: the final bucket gains the original under `{generation}.{ext}`, the thumbnails bucket gains the thumbnail under `thumb@64_{generation}.{ext}`, the upload is deleted, the working directory and every file and directory below it are gone, and every other local file keeps its contents and every other directory stays |
| `Handler.InvalidRunOnlyDeletes` | gcf_generate_thumbnails/index.js:41-86 | for any other content type the upload is deleted and nothing else changes; the invocation aborts, changing nothing, if the upload is already gone |
| `Handler.AbortKeepsUpload` | gcf_generate_thumbnails/index.js:55-85 | whenever a call rejects, the uploads bucket is unchanged: the upload is not deleted |
| `Handler.CodecFailureLeavesPartialCopy` | gcf_generate_thumbnails/index.js:63-85 | when the codec refuses the image, the invocation aborts at the resize with the original already in the final bucket, no thumbnail, the working directory left behind and the upload kept |
| `Handler.Cloud.Apply` | gcf_generate_thumbnails/index.js:55-85 | one awaited call: recorded in the trace, and applied to the world exactly as `Step` says unless it rejects |
| `Handler.Cloud.ProcessImage` | gcf_generate_thumbnails/index.js:42-81 | the JPEG/PNG branch, call by call with an early exit on rejection: the world and the trace become those of `Run` of the branch's calls |
| `Handler.Cloud.GenerateThumbnail` | gcf_generate_thumbnails/index.js:9-87 | the whole handler: completes exactly when `Run` of the plan completes, leaves the world as `Run` leaves it, and the trace holds exactly the calls of the plan that were attempted |
| `Gps.ParserInput` | gcf_generate_thumbnails/index.js:121-131 | a parser input exists exactly when the tags are present and hold both arrays; reading null tags or a missing array throws |
| `Gps.DmsString` | gcf_generate_thumbnails/index.js:125-126 | the string `${a[0]}:${a[1]}:${a[2]}${ref}`, where a missing element or reference renders as "undefined". Partner lemma: `DmsStringFields` |
| `Gps.DmsStringFields` | gcf_generate_thumbnails/index.js:125-126 | a coordinate string splits at its colons into degrees, minutes, and seconds followed by the reference, and has no space |
| `Gps.ParserInputFields` | gcf_generate_thumbnails/index.js:125-128 | the parser input is exactly two space-separated fields: the latitude string first, then the longitude string |
| `Gps.ParserInputExample` | gcf_generate_thumbnails/index.js:122-128 | the example tags of the source's comment give `51:30:0.5486N 0:7:34.4504W` |

## Left out

- The storage client, `fs-extra` and `sharp` calls are abstract effects on a `Store`. Streaming, metadata, retries and the real codec are out of scope. The codec is a parameter.
- The fixed bucket names (`globaljagsbl-thumbnails`, `globaljasbl-final`) and the event's bucket name are not modelled. The world has one uploads, one final and one thumbnails bucket, by role.
- `Effects.Step`: `fs.ensureDir` also creates missing parent directories. The model adds only the directory itself, `{tmp}/thumbs`, which matches when `tmp` exists.
- `path.join` normalisation is not modelled. `Join(dir, name)` is `dir + "/" + name`, which matches `path.join` for a normalised `tmp` and a name without separators.
- `Handler.ValidRunCompletes`, `Handler.ImageRunCompletes`, `Handler.CopyPhase`, `Handler.ThumbnailPhase`, `Handler.ValidTypeNames`, `Handler.CodecFailureLeavesPartialCopy` and `Naming.LocalPathsShareWorkingDir` require a generation without '/'. Storage generations are decimal numbers. A '/' would put the local files one level deeper.
- Logging, `process.env.K_REVISION`, and the top-level calls `extractExif()` and `writeToFS()` in the module body are not modelled.
- `readExifData` and `exif-async` are I/O behind a catch that returns null. The model takes the tags as an `Option` instead.
- The `parse-dms` conversion to decimal degrees works on floating point and is not modelled. The model stops at the string the parser receives. Numeric EXIF values are kept as the text a template literal renders for them.
- `writeToFS` is a fixed literal record plus a document-store call, and is not modelled.
- Concurrency is not modelled. Concurrent invocations share the fixed `{tmp}/thumbs` directory, and one invocation's removal can delete another's files.
- Unhandled-rejection reporting is reduced to `Aborted`. Which exception is raised is not modelled.
