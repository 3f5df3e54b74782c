/** The handler's side effects as abstract values, and what each one does
    to an abstract snapshot of the world: the three buckets and the local
    file system of the function's machine. Every step is an awaited call in
    the handler, and a call that rejects aborts the whole invocation. */
module Effects {
  import opened Wrappers
  import opened Paths

  newtype byte = x: int | 0 <= x < 256
  type Bytes = seq<byte>

  /** The image library's `resize(bytes, width)`: a thumbnail, or `None`
      when the library cannot decode or write the image. */
  type Codec = (Bytes, nat) -> Option<Bytes>

  /** One awaited call of the handler. */
  datatype Effect =
    | EnsureDir(dir: string)                              // fs.ensureDir(workingDir)
    | Download(name: string, localPath: string)           // sourceBucket.file(name).download
    | UploadFinal(localPath: string)                      // finalBucket.upload(tempFilePath)
    | Resize(src: string, width: nat, dst: string)        // sharp(src).resize(width).toFile(dst)
    | UploadThumb(localPath: string)                      // thumbnailsBucket.upload(thumbPath)
    | RemoveDir(dir: string)                              // fs.remove(workingDir)
    | DeleteSource(name: string)                          // sourceBucket.file(name).delete
  {
    /** The position of this kind of effect in the handler's order. */
    function Kind(): nat {
      match this
      case EnsureDir(_) => 0
      case Download(_, _) => 1
      case UploadFinal(_) => 2
      case Resize(_, _, _) => 3
      case UploadThumb(_) => 4
      case RemoveDir(_) => 5
      case DeleteSource(_) => 6
    }
  }

  /** What the handler can observe of the world: the uploads bucket, the
      final bucket, the thumbnails bucket (object name to contents), and the
      local files and directories. */
  datatype Store = Store(
    sourceBucket: map<string, Bytes>,
    finalBucket: map<string, Bytes>,
    thumbnailsBucket: map<string, Bytes>,
    localFiles: map<string, Bytes>,
    localDirs: set<string>)

  /** The effect of one call on the world, or `None` when the call rejects:
      a missing source object, a missing local file, a local write whose
      directory does not exist, or an image the codec refuses. An upload
      stores the file under the last component of its local path. */
  function Step(s: Store, e: Effect, codec: Codec): Option<Store>
  {
    match e
    case EnsureDir(dir) =>
      Some(s.(localDirs := s.localDirs + {dir}))
    case Download(name, path) =>
      if name in s.sourceBucket && Dir(path) in s.localDirs
      then Some(s.(localFiles := s.localFiles[path := s.sourceBucket[name]]))
      else None
    case UploadFinal(path) =>
      if path in s.localFiles
      then Some(s.(finalBucket := s.finalBucket[Base(path) := s.localFiles[path]]))
      else None
    case Resize(src, width, dst) =>
      if src in s.localFiles && Dir(dst) in s.localDirs then
        match codec(s.localFiles[src], width)
        case None => None
        case Some(thumb) => Some(s.(localFiles := s.localFiles[dst := thumb]))
      else None
    case UploadThumb(path) =>
      if path in s.localFiles
      then Some(s.(thumbnailsBucket := s.thumbnailsBucket[Base(path) := s.localFiles[path]]))
      else None
    case RemoveDir(dir) =>
      Some(RemoveTree(s, dir))
    case DeleteSource(name) =>
      if name in s.sourceBucket then Some(s.(sourceBucket := s.sourceBucket - {name})) else None
  }

  /** `fs.remove(dir)`: the directory and everything below it are gone,
      every other file and directory stays, and the buckets are untouched. */
  function RemoveTree(s: Store, dir: string): (r: Store)
    ensures dir !in r.localDirs
    ensures forall p :: p in r.localFiles <==> p in s.localFiles && !Under(p, dir)
    ensures forall p :: p in r.localFiles ==> r.localFiles[p] == s.localFiles[p]
    ensures forall d :: d in r.localDirs <==> d in s.localDirs && d != dir && !Under(d, dir)
    ensures r.sourceBucket == s.sourceBucket && r.finalBucket == s.finalBucket
    ensures r.thumbnailsBucket == s.thumbnailsBucket
  {
    s.(localFiles := map p | p in s.localFiles && !Under(p, dir) :: s.localFiles[p],
       localDirs := set d | d in s.localDirs && d != dir && !Under(d, dir))
  }

  /** What each call may change: a call touches only the part of the world
      it is about, creating or removing a directory never rejects, a
      deletion removes an object that was there, and removing a directory
      is `RemoveTree`. */
  lemma StepFrame(s: Store, e: Effect, codec: Codec)
    ensures e.EnsureDir? || e.RemoveDir? ==> Step(s, e, codec).Some?
    ensures var r := Step(s, e, codec);
      r.Some? && !e.DeleteSource? ==> r.value.sourceBucket == s.sourceBucket
    ensures var r := Step(s, e, codec);
      r.Some? && !e.UploadFinal? ==> r.value.finalBucket == s.finalBucket
    ensures var r := Step(s, e, codec);
      r.Some? && !e.UploadThumb? ==> r.value.thumbnailsBucket == s.thumbnailsBucket
    ensures var r := Step(s, e, codec);
      r.Some? && !e.RemoveDir? ==> s.localDirs <= r.value.localDirs
    ensures var r := Step(s, e, codec);
      r.Some? && (e.UploadFinal? || e.UploadThumb? || e.DeleteSource?) ==>
        r.value.localFiles == s.localFiles && r.value.localDirs == s.localDirs
    ensures var r := Step(s, e, codec);
      r.Some? && e.EnsureDir? ==>
        r.value.localFiles == s.localFiles && r.value.localDirs == s.localDirs + {e.dir}
    ensures var r := Step(s, e, codec);
      r.Some? && (e.Download? || e.Resize?) ==> r.value.localDirs == s.localDirs
    ensures var r := Step(s, e, codec);
      r.Some? && e.DeleteSource? ==> e.name in s.sourceBucket && e.name !in r.value.sourceBucket
    ensures var r := Step(s, e, codec);
      r.Some? && e.DeleteSource? ==> r.value.sourceBucket == s.sourceBucket - {e.name}
    ensures e.RemoveDir? ==> Step(s, e, codec) == Some(RemoveTree(s, e.dir))
  {
    match e
    case EnsureDir(_) =>
    case Download(_, _) =>
    case UploadFinal(_) =>
    case Resize(_, _, _) =>
    case UploadThumb(_) =>
    case RemoveDir(_) =>
    case DeleteSource(_) =>
  }

  /** How a run of calls ends: all of them done, or the call at `failedAt`
      rejected and nothing after it ran. `store` is the world at the end. */
  datatype Outcome = Completed(store: Store) | Aborted(failedAt: nat, store: Store) {

    /** How many calls of a plan of length `n` were made (the rejected one
        included). */
    function Attempted(n: nat): nat {
      if Completed? then n else failedAt + 1
    }
  }

  /** One more call after `o`: nothing happens once a call has rejected. */
  function Next(o: Outcome, e: Effect, index: nat, codec: Codec): (r: Outcome)
    ensures o.Aborted? ==> r == o
  {
    match o
    case Aborted(_, _) => o
    case Completed(t) =>
      match Step(t, e, codec)
      case None => Aborted(index, t)
      case Some(u) => Completed(u)
  }

  /** The calls `es` made one after another from `s`, stopping at the first
      one that rejects. */
  function Run(s: Store, es: seq<Effect>, codec: Codec): (o: Outcome)
    ensures o.Aborted? ==> o.failedAt < |es| && Step(o.store, es[o.failedAt], codec).None?
    decreases |es|
  {
    if es == [] then Completed(s)
    else Next(Run(s, es[..|es| - 1], codec), es[|es| - 1], |es| - 1, codec)
  }

  /** Running one call more than a prefix is `Next` of the prefix's run. */
  lemma RunPrefixStep(s: Store, es: seq<Effect>, k: nat, codec: Codec)
    requires k < |es|
    ensures Run(s, es[..k + 1], codec) == Next(Run(s, es[..k], codec), es[k], k, codec)
  {
    assert es[..k + 1][..k] == es[..k];
  }

  /** Running one call after a sequence: the call happens only if the
      sequence completed, and the calls attempted are those of the sequence
      followed, in that case, by the new one. */
  lemma RunSnoc(s: Store, es: seq<Effect>, e: Effect, codec: Codec)
    ensures Run(s, es + [e], codec) == Next(Run(s, es, codec), e, |es|, codec)
    ensures var o := Run(s, es, codec);
      o.Aborted? ==> (es + [e])[..Run(s, es + [e], codec).Attempted(|es| + 1)] == es[..o.Attempted(|es|)]
    ensures var o := Run(s, es, codec);
      o.Completed? ==> (es + [e])[..Run(s, es + [e], codec).Attempted(|es| + 1)] == es + [e]
  {
    assert (es + [e])[..|es|] == es;
  }

  /** Once a prefix of the calls has aborted, the run of all of them ends
      exactly the same way: later calls never happen. */
  lemma {:induction false} AbortIsFinal(s: Store, es: seq<Effect>, j: nat, codec: Codec)
    requires j <= |es| && Run(s, es[..j], codec).Aborted?
    ensures Run(s, es, codec) == Run(s, es[..j], codec)
    decreases |es| - j
  {
    if j < |es| {
      RunPrefixStep(s, es, j, codec);
      AbortIsFinal(s, es, j + 1, codec);
    } else {
      assert es[..j] == es;
    }
  }

  /** An aborted run performed exactly the calls before the one that
      rejected, and they all succeeded. */
  lemma {:induction false} AbortedAfterCompletedPrefix(s: Store, es: seq<Effect>, codec: Codec)
    requires Run(s, es, codec).Aborted?
    ensures var o := Run(s, es, codec);
      Run(s, es[..o.failedAt], codec) == Completed(o.store)
    decreases |es|
  {
    var prefix := es[..|es| - 1];
    var before := Run(s, prefix, codec);
    if before.Aborted? {
      AbortedAfterCompletedPrefix(s, prefix, codec);
      assert prefix[..before.failedAt] == es[..before.failedAt];
    } else {
      assert es[..|es| - 1] == prefix;
    }
  }

  /** Calls that are not source deletions leave the uploads bucket as it
      was, however the run ends. */
  lemma {:induction false} RunKeepsSource(s: Store, es: seq<Effect>, codec: Codec)
    requires forall i :: 0 <= i < |es| ==> !es[i].DeleteSource?
    ensures Run(s, es, codec).store.sourceBucket == s.sourceBucket
    decreases |es|
  {
    if es != [] {
      var prefix := es[..|es| - 1];
      RunKeepsSource(s, prefix, codec);
      StepFrame(Run(s, prefix, codec).store, es[|es| - 1], codec);
    }
  }

  /** How many effects of kind `k` a sequence holds. */
  function Count(es: seq<Effect>, k: nat): nat
    decreases |es|
  {
    if es == [] then 0
    else Count(es[..|es| - 1], k) + (if es[|es| - 1].Kind() == k then 1 else 0)
  }

  /** A sequence whose i-th effect is of kind i holds exactly one effect of
      each of its kinds and none of any other. */
  lemma {:induction false} CountInOrder(es: seq<Effect>, k: nat)
    requires forall i :: 0 <= i < |es| ==> es[i].Kind() == i
    ensures Count(es, k) == if k < |es| then 1 else 0
    decreases |es|
  {
    if es != [] {
      var prefix := es[..|es| - 1];
      assert forall i :: 0 <= i < |prefix| ==> prefix[i].Kind() == i;
      CountInOrder(prefix, k);
    }
  }
}
