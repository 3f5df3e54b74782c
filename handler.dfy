/** The storage-upload handler `generateThumbnail`: the calls it makes for
    one uploaded object, in order, and an imperative version of it that
    makes those calls against a mutable world. */
module Handler {
  import opened Wrappers
  import opened Paths
  import opened Naming
  import opened Effects

  /** The object-creation event that triggers the handler. */
  datatype StorageObject = StorageObject(
    bucket: string,
    name: string,
    contentType: string,
    generation: string)

  /** The calls the handler makes for `file` when every one succeeds, with
      `tmp` the machine's temporary directory. */
  function HandlerEffects(file: StorageObject, tmp: string): (r: seq<Effect>)
    ensures |r| >= 1 && r[|r| - 1] == DeleteSource(file.name)
  {
    match ExtensionOf(file.contentType)
    case None => [DeleteSource(file.name)]
    case Some(fileExtension) => ImageEffects(file, tmp, fileExtension) + [DeleteSource(file.name)]
  }

  /** The calls of the branch taken for a JPEG or PNG stored under
      `fileExtension`: from creating the working directory to removing it. */
  function ImageEffects(file: StorageObject, tmp: string, fileExtension: string): (r: seq<Effect>)
    ensures |r| == 6 && r[0].EnsureDir? && r[5].RemoveDir? && r[0].dir == r[5].dir
  {
    var finalFileName := FinalFileName(file.generation, fileExtension);
    var workingDir := WorkingDir(tmp);
    var tempFilePath := TempFilePath(tmp, finalFileName);
    var thumbPath := ThumbPath(tmp, finalFileName);
    [ EnsureDir(workingDir),
      Download(file.name, tempFilePath),
      UploadFinal(tempFilePath),
      Resize(tempFilePath, ThumbWidth, thumbPath),
      UploadThumb(thumbPath),
      RemoveDir(workingDir) ]
  }

  /** A file of any other content type is never downloaded, copied,
      resized or uploaded: its only effect is the deletion of the upload. */
  lemma InvalidTypeOnlyDeletes(file: StorageObject, tmp: string)
    requires ExtensionOf(file.contentType).None?
    ensures HandlerEffects(file, tmp) == [DeleteSource(file.name)]
    ensures forall e :: e in HandlerEffects(file, tmp) ==>
              !e.Download? && !e.UploadFinal? && !e.Resize? && !e.UploadThumb?
  {
  }

  /** For a JPEG or PNG the calls come in the order ensure-dir, download,
      final upload, resize, thumbnail upload, remove-dir, delete-source,
      exactly one of each, and the deletion of the upload comes last. */
  lemma ValidTypeOrder(file: StorageObject, tmp: string)
    requires ExtensionOf(file.contentType).Some?
    ensures var r := HandlerEffects(file, tmp);
      && |r| == 7
      && (forall i :: 0 <= i < |r| ==> r[i].Kind() == i)
      && (forall k: nat :: Count(r, k) == if k < 7 then 1 else 0)
      && r[6] == DeleteSource(file.name)
  {
    var r := HandlerEffects(file, tmp);
    forall k: nat ensures Count(r, k) == if k < 7 then 1 else 0 {
      CountInOrder(r, k);
    }
  }

  /** The plan's names: the download and the thumbnail stay in the working
      directory, the final upload lands under `{generation}.{ext}`, and the
      thumbnail upload under the thumbnail name, resized to the width in
      that name. */
  lemma ValidTypeNames(file: StorageObject, tmp: string)
    requires ExtensionOf(file.contentType).Some?
    requires '/' !in file.generation
    ensures var r := HandlerEffects(file, tmp);
      var f := FinalFileName(file.generation, ExtensionOf(file.contentType).value);
      && r[0].dir == WorkingDir(tmp) && r[5].dir == WorkingDir(tmp)
      && r[1].name == file.name && Dir(r[1].localPath) == WorkingDir(tmp)
      && r[2].localPath == r[1].localPath && Base(r[1].localPath) == f
      && r[3].src == r[1].localPath && r[3].width == ThumbWidth && Dir(r[3].dst) == WorkingDir(tmp)
      && r[4].localPath == r[3].dst && Base(r[4].localPath) == ThumbName(f)
      && r[3].src != r[3].dst
  {
    ExtensionPlain(file.contentType);
    LocalPathsShareWorkingDir(tmp, file.generation, ExtensionOf(file.contentType).value);
  }

  /** The first three calls of the branch for an accepted file, when the
      upload exists: the working directory is created, the original is
      downloaded into it under the final name and copied to the final
      bucket under that name. */
  lemma CopyPhase(s: Store, file: StorageObject, tmp: string, fileExtension: string, codec: Codec)
    requires '/' !in file.generation && '/' !in fileExtension
    requires file.name in s.sourceBucket
    ensures var o := Run(s, ImageEffects(file, tmp, fileExtension)[..3], codec);
      var f := FinalFileName(file.generation, fileExtension);
      && o.Completed?
      && o.store.sourceBucket == s.sourceBucket
      && o.store.finalBucket == s.finalBucket[f := s.sourceBucket[file.name]]
      && o.store.thumbnailsBucket == s.thumbnailsBucket
      && o.store.localFiles == s.localFiles[TempFilePath(tmp, f) := s.sourceBucket[file.name]]
      && o.store.localDirs == s.localDirs + {WorkingDir(tmp)}
  {
    var r := ImageEffects(file, tmp, fileExtension);
    var f := FinalFileName(file.generation, fileExtension);
    var wd := WorkingDir(tmp);
    var original := s.sourceBucket[file.name];
    LocalPathsShareWorkingDir(tmp, file.generation, fileExtension);
    var s1 := s.(localDirs := s.localDirs + {wd});
    var s2 := s1.(localFiles := s1.localFiles[TempFilePath(tmp, f) := original]);
    assert Run(s, r[..1], codec) == Completed(s1) by {
      assert r[..0] == [];
      RunPrefixStep(s, r, 0, codec);
    }
    assert Run(s, r[..2], codec) == Completed(s2) by {
      RunPrefixStep(s, r, 1, codec);
    }
    RunPrefixStep(s, r, 2, codec);
  }

  /** The next two calls, when the codec can resize the original: the
      thumbnail is written into the working directory under the thumbnail
      name and uploaded to the thumbnails bucket under that name. */
  lemma ThumbnailPhase(s: Store, file: StorageObject, tmp: string, fileExtension: string, codec: Codec)
    requires '/' !in file.generation && '/' !in fileExtension
    requires file.name in s.sourceBucket
    requires codec(s.sourceBucket[file.name], ThumbWidth).Some?
    ensures var o := Run(s, ImageEffects(file, tmp, fileExtension)[..5], codec);
      var f := FinalFileName(file.generation, fileExtension);
      var thumb := codec(s.sourceBucket[file.name], ThumbWidth).value;
      && o.Completed?
      && o.store.sourceBucket == s.sourceBucket
      && o.store.finalBucket == s.finalBucket[f := s.sourceBucket[file.name]]
      && o.store.thumbnailsBucket == s.thumbnailsBucket[ThumbName(f) := thumb]
      && o.store.localFiles ==
           s.localFiles[TempFilePath(tmp, f) := s.sourceBucket[file.name]][ThumbPath(tmp, f) := thumb]
      && o.store.localDirs == s.localDirs + {WorkingDir(tmp)}
  {
    var r := ImageEffects(file, tmp, fileExtension);
    var f := FinalFileName(file.generation, fileExtension);
    var thumbPath := ThumbPath(tmp, f);
    var thumb := codec(s.sourceBucket[file.name], ThumbWidth).value;
    LocalPathsShareWorkingDir(tmp, file.generation, fileExtension);
    CopyPhase(s, file, tmp, fileExtension, codec);
    var s3 := Run(s, r[..3], codec).store;
    var s4 := s3.(localFiles := s3.localFiles[thumbPath := thumb]);
    assert Run(s, r[..4], codec) == Completed(s4) by {
      RunPrefixStep(s, r, 3, codec);
    }
    assert Run(s, r[..5], codec) ==
      Completed(s4.(thumbnailsBucket := s4.thumbnailsBucket[ThumbName(f) := thumb])) by {
      RunPrefixStep(s, r, 4, codec);
    }
  }

  /** The branch for an accepted file, when the upload exists and the codec
      can resize it: every call succeeds, the final bucket gains the
      original under the final name, the thumbnails bucket gains the
      thumbnail under the thumbnail name, the upload is still there, the
      working directory and everything in it are gone, and every other local
      file and directory stays as it was. */
  lemma ImageRunCompletes(s: Store, file: StorageObject, tmp: string, fileExtension: string, codec: Codec)
    requires '/' !in file.generation && '/' !in fileExtension
    requires file.name in s.sourceBucket
    requires codec(s.sourceBucket[file.name], ThumbWidth).Some?
    ensures var o := Run(s, ImageEffects(file, tmp, fileExtension), codec);
      var f := FinalFileName(file.generation, fileExtension);
      && o.Completed?
      && o.store.sourceBucket == s.sourceBucket
      && o.store.finalBucket == s.finalBucket[f := s.sourceBucket[file.name]]
      && o.store.thumbnailsBucket ==
           s.thumbnailsBucket[ThumbName(f) := codec(s.sourceBucket[file.name], ThumbWidth).value]
      && WorkingDir(tmp) !in o.store.localDirs
      && (forall p :: p in o.store.localFiles <==> p in s.localFiles && !Under(p, WorkingDir(tmp)))
      && (forall p :: p in o.store.localFiles ==> o.store.localFiles[p] == s.localFiles[p])
      && (forall d :: d in o.store.localDirs <==>
            d in s.localDirs && d != WorkingDir(tmp) && !Under(d, WorkingDir(tmp)))
  {
    var r := ImageEffects(file, tmp, fileExtension);
    var f := FinalFileName(file.generation, fileExtension);
    var wd := WorkingDir(tmp);
    ThumbnailPhase(s, file, tmp, fileExtension, codec);
    var s5 := Run(s, r[..5], codec).store;
    assert Run(s, r, codec) == Completed(RemoveTree(s5, wd)) by {
      RunPrefixStep(s, r, 5, codec);
      assert Step(s5, r[5], codec) == Some(RemoveTree(s5, wd));
      assert r[..6] == r;
    }
    assert Under(TempFilePath(tmp, f), wd) && Under(ThumbPath(tmp, f), wd);
  }

  /** A JPEG or PNG whose upload exists and whose image the codec can
      resize: the invocation completes, the final bucket gains the original
      under `{generation}.{ext}`, the thumbnails bucket gains the thumbnail
      under `thumb@64_{generation}.{ext}`, the upload is deleted, the
      working directory and everything in it are gone, and every other local
      file and directory stays as it was. */
  lemma ValidRunCompletes(s: Store, file: StorageObject, tmp: string, codec: Codec)
    requires ExtensionOf(file.contentType).Some?
    requires '/' !in file.generation
    requires file.name in s.sourceBucket
    requires codec(s.sourceBucket[file.name], ThumbWidth).Some?
    ensures var o := Run(s, HandlerEffects(file, tmp), codec);
      var f := FinalFileName(file.generation, ExtensionOf(file.contentType).value);
      && o.Completed?
      && o.store.sourceBucket == s.sourceBucket - {file.name}
      && o.store.finalBucket == s.finalBucket[f := s.sourceBucket[file.name]]
      && o.store.thumbnailsBucket ==
           s.thumbnailsBucket[ThumbName(f) := codec(s.sourceBucket[file.name], ThumbWidth).value]
      && WorkingDir(tmp) !in o.store.localDirs
      && (forall p :: p in o.store.localFiles <==> p in s.localFiles && !Under(p, WorkingDir(tmp)))
      && (forall p :: p in o.store.localFiles ==> o.store.localFiles[p] == s.localFiles[p])
      && (forall d :: d in o.store.localDirs <==>
            d in s.localDirs && d != WorkingDir(tmp) && !Under(d, WorkingDir(tmp)))
  {
    var ext := ExtensionOf(file.contentType).value;
    var r := HandlerEffects(file, tmp);
    var image := ImageEffects(file, tmp, ext);
    ExtensionPlain(file.contentType);
    ImageRunCompletes(s, file, tmp, ext, codec);
    assert r[..6] == image;
    RunPrefixStep(s, r, 6, codec);
    StepFrame(Run(s, image, codec).store, r[6], codec);
    assert r[..7] == r;
  }

  /** A file of any other content type only loses its upload, or the
      invocation aborts on the delete when the upload is already gone;
      nothing else in the world changes. */
  lemma InvalidRunOnlyDeletes(s: Store, file: StorageObject, tmp: string, codec: Codec)
    requires ExtensionOf(file.contentType).None?
    ensures Run(s, HandlerEffects(file, tmp), codec) ==
      if file.name in s.sourceBucket
      then Completed(s.(sourceBucket := s.sourceBucket - {file.name}))
      else Aborted(0, s)
  {
    var r := HandlerEffects(file, tmp);
    assert r[..0] == [] && r[..1] == r;
    RunPrefixStep(s, r, 0, codec);
  }

  /** There is no clean-up on failure: when any call rejects, the upload is
      not deleted and stays in the uploads bucket unchanged. */
  lemma AbortKeepsUpload(s: Store, file: StorageObject, tmp: string, codec: Codec)
    requires Run(s, HandlerEffects(file, tmp), codec).Aborted?
    ensures Run(s, HandlerEffects(file, tmp), codec).store.sourceBucket == s.sourceBucket
  {
    var r := HandlerEffects(file, tmp);
    var o := Run(s, r, codec);
    AbortedAfterCompletedPrefix(s, r, codec);
    var done := r[..o.failedAt];
    assert forall i :: 0 <= i < |done| ==> !done[i].DeleteSource? by {
      if ExtensionOf(file.contentType).Some? {
        ValidTypeOrder(file, tmp);
      }
    }
    RunKeepsSource(s, done, codec);
  }

  /** When the codec refuses the image, the original has already been
      copied to the final bucket, no thumbnail exists, the working directory
      is left behind and the upload is not deleted. */
  lemma CodecFailureLeavesPartialCopy(s: Store, file: StorageObject, tmp: string, codec: Codec)
    requires ExtensionOf(file.contentType).Some?
    requires '/' !in file.generation
    requires file.name in s.sourceBucket
    requires codec(s.sourceBucket[file.name], ThumbWidth).None?
    ensures var o := Run(s, HandlerEffects(file, tmp), codec);
      var f := FinalFileName(file.generation, ExtensionOf(file.contentType).value);
      && o == Aborted(3, o.store)
      && o.store.sourceBucket == s.sourceBucket
      && o.store.finalBucket == s.finalBucket[f := s.sourceBucket[file.name]]
      && o.store.thumbnailsBucket == s.thumbnailsBucket
      && WorkingDir(tmp) in o.store.localDirs
  {
    var r := HandlerEffects(file, tmp);
    var ext := ExtensionOf(file.contentType).value;
    ExtensionPlain(file.contentType);
    CopyPhase(s, file, tmp, ext, codec);
    LocalPathsShareWorkingDir(tmp, file.generation, ext);
    assert r[..3] == ImageEffects(file, tmp, ext)[..3];
    RunPrefixStep(s, r, 3, codec);
    AbortIsFinal(s, r, 4, codec);
  }

  /** The world the handler runs in, updated in place by its calls. */
  class Cloud {
    var sourceBucket: map<string, Bytes>
    var finalBucket: map<string, Bytes>
    var thumbnailsBucket: map<string, Bytes>
    var localFiles: map<string, Bytes>
    var localDirs: set<string>
    /** Every call made so far, the rejected ones included. */
    var trace: seq<Effect>

    /** The world as a value. */
    function Snapshot(): Store
      reads this
    {
      Store(sourceBucket, finalBucket, thumbnailsBucket, localFiles, localDirs)
    }

    constructor (initial: Store)
      ensures Snapshot() == initial && trace == []
    {
      sourceBucket := initial.sourceBucket;
      finalBucket := initial.finalBucket;
      thumbnailsBucket := initial.thumbnailsBucket;
      localFiles := initial.localFiles;
      localDirs := initial.localDirs;
      trace := [];
    }

    /** Makes one call: records it and, unless it rejects, applies it. */
    method Apply(e: Effect, codec: Codec) returns (ok: bool)
      modifies this
      ensures ok == Step(old(Snapshot()), e, codec).Some?
      ensures Snapshot() == if ok then Step(old(Snapshot()), e, codec).value else old(Snapshot())
      ensures trace == old(trace) + [e]
    {
      trace := trace + [e];
      var r := Step(Snapshot(), e, codec);
      if r.Some? {
        sourceBucket := r.value.sourceBucket;
        finalBucket := r.value.finalBucket;
        thumbnailsBucket := r.value.thumbnailsBucket;
        localFiles := r.value.localFiles;
        localDirs := r.value.localDirs;
      }
      ok := r.Some?;
    }

    /** `generateThumbnail(file)`: classify, then for a JPEG or PNG copy the
        original to the final bucket and a 64-pixel thumbnail to the
        thumbnails bucket through the working directory, then delete the
        upload. `completed` is false when a call rejected, which ends the
        invocation at that call. */
    method GenerateThumbnail(file: StorageObject, tmp: string, codec: Codec) returns (completed: bool)
      modifies this
      ensures var o := Run(old(Snapshot()), HandlerEffects(file, tmp), codec);
        && completed == o.Completed?
        && Snapshot() == o.store
        && trace == old(trace) + HandlerEffects(file, tmp)[..o.Attempted(|HandlerEffects(file, tmp)|)]
    {
      ghost var s0 := Snapshot();
      ghost var done: seq<Effect> := [];
      var fileExtension, validFile := ClassifyContentType(file.contentType);

      if validFile {
        done := ImageEffects(file, tmp, fileExtension);
        var ok := ProcessImage(file, tmp, fileExtension, codec);
        if !ok {
          RunSnoc(s0, done, DeleteSource(file.name), codec);
          return false;
        }
        assert done[..6] == done;
      }
      assert HandlerEffects(file, tmp) == done + [DeleteSource(file.name)];

      completed := Apply(DeleteSource(file.name), codec);
      RunSnoc(s0, done, DeleteSource(file.name), codec);
    }

    /** The branch taken for a JPEG or PNG stored under
        `fileExtension`: the working directory, the download, the copy to
        the final bucket, the thumbnail and its upload, and the removal of
        the working directory, stopping at the first call that rejects. */
    method ProcessImage(file: StorageObject, tmp: string, fileExtension: string, codec: Codec)
      returns (ok: bool)
      modifies this
      ensures var o := Run(old(Snapshot()), ImageEffects(file, tmp, fileExtension), codec);
        && ok == o.Completed?
        && Snapshot() == o.store
        && trace == old(trace) + ImageEffects(file, tmp, fileExtension)[..o.Attempted(6)]
    {
      ghost var s0, t0 := Snapshot(), trace;
      ghost var plan := ImageEffects(file, tmp, fileExtension);
      ghost var before: Store;
      ghost var k: nat := 0;
      assert plan[..0] == [];

      var finalFileName := FinalFileName(file.generation, fileExtension);
      var workingDir := WorkingDir(tmp);
      var tempFilePath := Join(workingDir, finalFileName);

      before := Snapshot();
      ok := Apply(EnsureDir(workingDir), codec);
      Progress(s0, t0, plan, k, before, Snapshot(), trace, ok, codec);
      if !ok { return; }
      k := k + 1;

      before := Snapshot();
      ok := Apply(Download(file.name, tempFilePath), codec);
      Progress(s0, t0, plan, k, before, Snapshot(), trace, ok, codec);
      if !ok { return; }
      k := k + 1;

      before := Snapshot();
      ok := Apply(UploadFinal(tempFilePath), codec);
      Progress(s0, t0, plan, k, before, Snapshot(), trace, ok, codec);
      if !ok { return; }
      k := k + 1;

      var thumbName := ThumbName(finalFileName);
      var thumbPath := Join(workingDir, thumbName);

      before := Snapshot();
      ok := Apply(Resize(tempFilePath, ThumbWidth, thumbPath), codec);
      Progress(s0, t0, plan, k, before, Snapshot(), trace, ok, codec);
      if !ok { return; }
      k := k + 1;

      before := Snapshot();
      ok := Apply(UploadThumb(thumbPath), codec);
      Progress(s0, t0, plan, k, before, Snapshot(), trace, ok, codec);
      if !ok { return; }
      k := k + 1;

      before := Snapshot();
      ok := Apply(RemoveDir(workingDir), codec);
      Progress(s0, t0, plan, k, before, Snapshot(), trace, ok, codec);
      assert plan[..k + 1] == plan;
    }
  }

  /** One call of a plan whose first `k` calls completed, taking the world
      from `before` to `after` and the trace from `t0 + plan[..k]` to
      `trace`: when it succeeds the first k + 1 calls have completed, and
      when it rejects the run of the whole plan has aborted at `k`. */
  lemma Progress(s0: Store, t0: seq<Effect>, plan: seq<Effect>, k: nat, before: Store, after: Store,
                 trace: seq<Effect>, ok: bool, codec: Codec)
    requires k < |plan|
    requires Run(s0, plan[..k], codec) == Completed(before)
    requires ok == Step(before, plan[k], codec).Some?
    requires after == if ok then Step(before, plan[k], codec).value else before
    requires trace == t0 + plan[..k] + [plan[k]]
    ensures trace == t0 + plan[..k + 1]
    ensures ok ==> Run(s0, plan[..k + 1], codec) == Completed(after)
    ensures !ok ==> Run(s0, plan, codec) == Aborted(k, before)
  {
    assert plan[..k + 1] == plan[..k] + [plan[k]];
    RunPrefixStep(s0, plan, k, codec);
    if !ok {
      AbortIsFinal(s0, plan, k + 1, codec);
    }
  }
}
