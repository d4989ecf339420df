/** Names of the staged frame files: `frame_{i:05}.png` for the raw frame i and
    `frame_{i:05}_up.png` for its upscaled companion, joined onto the staging directory. */
module FrameNames {
  import opened Decimal
  import opened Paths
  import opened Types

  const Prefix: string := "frame_"
  const RawSuffix: string := ".png"
  const UpSuffix: string := "_up.png"

  /** The printf-style pattern handed to ffmpeg for the upscaled sequence. */
  const UpscaledPattern: string := "frame_%05d_up.png"

  /** The digit field of both names: `{i:05}`. */
  function IndexField(i: nat): string {
    ZeroPadded(i, 5)
  }

  function FrameName(i: nat): string {
    Prefix + IndexField(i) + RawSuffix
  }

  function UpscaledFrameName(i: nat): string {
    Prefix + IndexField(i) + UpSuffix
  }

  function FramePath(dir: string, i: nat): string {
    Join(dir, FrameName(i))
  }

  function UpscaledFramePath(dir: string, i: nat): string {
    Join(dir, UpscaledFrameName(i))
  }

  /** Reads the index back out of a name of the form Prefix + digits + suffix. */
  function ParseIndexedName(name: string, suffix: string): (r: Option<nat>)
  {
    var lo := |Prefix|;
    if |name| >= lo + |suffix| + 1 && name[..lo] == Prefix && name[|name| - |suffix|..] == suffix
       && AllDigits(name[lo..|name| - |suffix|])
    then Some(ParseDecimal(name[lo..|name| - |suffix|]))
    else None
  }

  /** The raw name of frame i reads back as i. */
  lemma FrameNameRoundTrip(i: nat)
    ensures ParseIndexedName(FrameName(i), RawSuffix) == Some(i)
  {
    FieldRoundTrip(i, RawSuffix);
  }

  /** The upscaled name of frame i reads back as i. */
  lemma UpscaledFrameNameRoundTrip(i: nat)
    ensures ParseIndexedName(UpscaledFrameName(i), UpSuffix) == Some(i)
  {
    FieldRoundTrip(i, UpSuffix);
  }

  lemma FieldRoundTrip(i: nat, suffix: string)
    ensures ParseIndexedName(Prefix + IndexField(i) + suffix, suffix) == Some(i)
  {
    var name := Prefix + IndexField(i) + suffix;
    FiveDigitField(i);
    assert name[..|Prefix|] == Prefix;
    assert name[|name| - |suffix|..] == suffix;
    assert name[|Prefix|..|name| - |suffix|] == IndexField(i);
    ParseZeroPadded(i, 5);
  }

  /** Distinct frames never share a raw name, nor an upscaled name. */
  lemma FrameNamesInjective(i: nat, j: nat)
    ensures FrameName(i) == FrameName(j) ==> i == j
    ensures UpscaledFrameName(i) == UpscaledFrameName(j) ==> i == j
  {
    FrameNameRoundTrip(i);
    FrameNameRoundTrip(j);
    UpscaledFrameNameRoundTrip(i);
    UpscaledFrameNameRoundTrip(j);
  }

  /** The upscaled name is the raw name with "_up" inserted before ".png". */
  lemma UpscaledNameInsertsUp(i: nat)
    ensures var raw := FrameName(i);
            UpscaledFrameName(i) == raw[..|raw| - |RawSuffix|] + "_up" + RawSuffix
  {
  }

  /** No upscaled name is ever the raw name of any frame: the two families of
      staged files never collide. */
  lemma RawAndUpscaledDisjoint(i: nat, j: nat)
    ensures FrameName(i) != UpscaledFrameName(j)
  {
    FrameNameRoundTrip(i);
    UpscaledNameIsNotRaw(j);
  }

  /** Read as a raw name, an upscaled name has "_up" inside its digit field. */
  lemma UpscaledNameIsNotRaw(j: nat)
    ensures ParseIndexedName(UpscaledFrameName(j), RawSuffix).None?
  {
  }

  lemma NamesAreRelative(i: nat)
    ensures FrameName(i)[0] != '/' && UpscaledFrameName(i)[0] != '/'
  {
  }

  /** Distinct frames never share a staged path, and no raw path is an upscaled path. */
  lemma FramePathsDistinct(dir: string, i: nat, j: nat)
    ensures FramePath(dir, i) == FramePath(dir, j) ==> i == j
    ensures UpscaledFramePath(dir, i) == UpscaledFramePath(dir, j) ==> i == j
    ensures FramePath(dir, i) != UpscaledFramePath(dir, j)
  {
    NamesAreRelative(i);
    NamesAreRelative(j);
    JoinInjective(dir, FrameName(i), FrameName(j));
    JoinInjective(dir, UpscaledFrameName(i), UpscaledFrameName(j));
    JoinInjective(dir, FrameName(i), UpscaledFrameName(j));
    FrameNamesInjective(i, j);
    RawAndUpscaledDisjoint(i, j);
  }

  /** The raw paths of frames 0 .. n-1. */
  function FramePaths(dir: string, n: nat): set<string> {
    set i | 0 <= i < n :: FramePath(dir, i)
  }

  /** The upscaled paths of frames 0 .. n-1. */
  function UpscaledFramePaths(dir: string, n: nat): set<string> {
    set i | 0 <= i < n :: UpscaledFramePath(dir, i)
  }

  /** A staging directory holding frames 0 .. n-1 and their upscaled companions
      holds exactly n raw and n upscaled files, and no file is both. */
  lemma StagedFileCounts(dir: string, n: nat)
    ensures |FramePaths(dir, n)| == n
    ensures |UpscaledFramePaths(dir, n)| == n
    ensures FramePaths(dir, n) !! UpscaledFramePaths(dir, n)
  {
    RawCount(dir, n);
    UpscaledCount(dir, n);
    forall p | p in FramePaths(dir, n) && p in UpscaledFramePaths(dir, n)
      ensures false
    {
      var i :| 0 <= i < n && p == FramePath(dir, i);
      var j :| 0 <= j < n && p == UpscaledFramePath(dir, j);
      FramePathsDistinct(dir, i, j);
    }
  }

  lemma RawCount(dir: string, n: nat)
    ensures |FramePaths(dir, n)| == n
  {
    var f := (i: nat) => FramePath(dir, i);
    assert forall i: nat :: f(i) == FramePath(dir, i);
    forall i, j | 0 <= i < n && 0 <= j < n && f(i) == f(j)
      ensures i == j
    {
      FramePathsDistinct(dir, i, j);
    }
    InjectiveImageCount(f, n);
    assert (set i | 0 <= i < n :: f(i)) == FramePaths(dir, n);
  }

  lemma UpscaledCount(dir: string, n: nat)
    ensures |UpscaledFramePaths(dir, n)| == n
  {
    var f := (i: nat) => UpscaledFramePath(dir, i);
    assert forall i: nat :: f(i) == UpscaledFramePath(dir, i);
    forall i, j | 0 <= i < n && 0 <= j < n && f(i) == f(j)
      ensures i == j
    {
      FramePathsDistinct(dir, i, j);
    }
    InjectiveImageCount(f, n);
    assert (set i | 0 <= i < n :: f(i)) == UpscaledFramePaths(dir, n);
  }

  /** n distinct values have n elements. */
  lemma {:induction false} InjectiveImageCount(f: nat -> string, n: nat)
    requires forall i, j :: 0 <= i < n && 0 <= j < n && f(i) == f(j) ==> i == j
    ensures |set i | 0 <= i < n :: f(i)| == n
  {
    if n > 0 {
      InjectiveImageCount(f, n - 1);
      assert (set i | 0 <= i < n :: f(i)) == (set i | 0 <= i < n - 1 :: f(i)) + {f(n - 1)};
    }
  }
}
