/** The frame extractor: writes every decoded frame of the source video into
    the staging directory under its zero-padded index name. */
module Extraction {
  import opened Types
  import opened FrameNames

  /** Decodes frames in order and stores frame k at `frame_{k:05}.png` in dir.
      The first frame whose write fails (or whose file is absent right after
      the write) ends the run with that frame's index, and whatever that write
      left at the frame's path stays there; otherwise the count of frames
      decoded is returned. */
  method ExtractFrames(dir: string, source: seq<DecodedFrame>, files: FileStore)
    returns (r: Result<nat>, staged: FileStore)
    ensures r.Ok? <==> forall k :: 0 <= k < |source| ==> source[k].stored
    ensures r.Ok? ==> r.value == |source| && Stages(dir, source, |source|, files, staged)
    ensures r.Err? ==> r.error.FrameWriteError? && FirstFailure(source, r.error.index)
                       && StoppedAt(dir, source, r.error.index, files, staged)
  {
    staged := files;
    var count := 0;
    while count < |source|
      invariant count <= |source|
      invariant forall k :: 0 <= k < count ==> source[k].stored
      invariant Stages(dir, source, count, files, staged)
    {
      var frameFile := FramePath(dir, count);
      if !source[count].stored {
        StagesWithout(dir, source, count, files, staged);
        if source[count].leftover.Some? {
          staged := staged[frameFile := source[count].leftover.value];
        }
        return Err(FrameWriteError(count)), staged;
      }
      StagesStep(dir, source, count, files, staged);
      staged := staged[frameFile := source[count].image];
      count := count + 1;
    }
    r := Ok(count);
  }

  /** Frame k is the first frame that could not be stored. */
  ghost predicate FirstFailure(source: seq<DecodedFrame>, k: nat) {
    k < |source| && !source[k].stored && forall j :: 0 <= j < k ==> source[j].stored
  }

  /** `staged` is `files` with frames 0 .. n-1 written: the new paths are exactly
      their raw names, frame k's file holds the k-th decoded image, and every
      other file is untouched. */
  ghost predicate Stages(dir: string, source: seq<DecodedFrame>, n: nat, files: FileStore, staged: FileStore)
    requires n <= |source|
  {
    && staged.Keys == files.Keys + FramePaths(dir, n)
    && (forall k :: 0 <= k < n ==> FramePath(dir, k) in staged && staged[FramePath(dir, k)] == source[k].image)
    && (forall p :: p in files && p !in FramePaths(dir, n) ==> staged[p] == files[p])
  }

  /** Writing frame n onto a store that holds frames 0 .. n-1 gives one that holds frames 0 .. n. */
  lemma StagesStep(dir: string, source: seq<DecodedFrame>, n: nat, files: FileStore, staged: FileStore)
    requires n < |source| && Stages(dir, source, n, files, staged)
    ensures Stages(dir, source, n + 1, files, staged[FramePath(dir, n) := source[n].image])
  {
    var next := staged[FramePath(dir, n) := source[n].image];
    assert FramePaths(dir, n + 1) == FramePaths(dir, n) + {FramePath(dir, n)};
    forall k | 0 <= k < n
      ensures FramePath(dir, k) != FramePath(dir, n)
    {
      FramePathsDistinct(dir, k, n);
    }
  }

  /** `staged` is what a run stopped at frame k leaves: frames 0 .. k-1 written
      over `files` as Stages says, and at frame k's path whatever the failed
      write left there, or the path as it was before. */
  ghost predicate StoppedAt(dir: string, source: seq<DecodedFrame>, k: nat, files: FileStore, staged: FileStore)
    requires k < |source|
  {
    var p := FramePath(dir, k);
    && Stages(dir, source, k, files - {p}, staged - {p})
    && match source[k].leftover
       case Some(partial) => p in staged && staged[p] == partial
       case None => (p in staged <==> p in files) && (p in files ==> staged[p] == files[p])
  }

  /** Frame k's path is not among the paths of frames 0 .. k-1, so setting it
      aside on both sides keeps Stages. */
  lemma StagesWithout(dir: string, source: seq<DecodedFrame>, k: nat, files: FileStore, staged: FileStore)
    requires k < |source| && Stages(dir, source, k, files, staged)
    ensures var p := FramePath(dir, k);
            && Stages(dir, source, k, files - {p}, staged - {p})
            && (p in staged <==> p in files) && (p in files ==> staged[p] == files[p])
  {
    var p := FramePath(dir, k);
    forall j | 0 <= j < k
      ensures FramePath(dir, j) != p
    {
      FramePathsDistinct(dir, j, k);
    }
    assert p !in FramePaths(dir, k);
  }
}
