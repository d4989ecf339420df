/** The completeness verifier: which upscaled frames are absent from the
    staging directory, and what the encode gate reports about them. */
module Completeness {
  import opened Types
  import opened FrameNames

  /** The indices in [0, total) whose upscaled file does not exist, in increasing order. */
  function GetMissingFrames(total: nat, dir: string, files: FileStore): (r: seq<nat>)
    ensures forall k :: 0 <= k < |r| ==> r[k] < total && UpscaledFramePath(dir, r[k]) !in files
    ensures forall i :: 0 <= i < total && UpscaledFramePath(dir, i) !in files ==> i in r
    ensures forall k, l :: 0 <= k < l < |r| ==> r[k] < r[l]
    ensures r == [] <==> forall i :: 0 <= i < total ==> UpscaledFramePath(dir, i) in files
  {
    var present := (i: nat) => UpscaledFramePath(dir, i) in files;
    assert forall i: nat :: present(i) == (UpscaledFramePath(dir, i) in files);
    var r := IndicesWithout(total, present);
    assert r != [] ==> r[0] < total && UpscaledFramePath(dir, r[0]) !in files;
    r
  }

  /** The indices in [0, total) for which `present` fails, in increasing order. */
  function IndicesWithout(total: nat, present: nat -> bool): (r: seq<nat>)
    ensures forall k :: 0 <= k < |r| ==> r[k] < total && !present(r[k])
    ensures forall i :: 0 <= i < total && !present(i) ==> i in r
    ensures forall k, l :: 0 <= k < l < |r| ==> r[k] < r[l]
  {
    if total == 0 then []
    else
      var earlier := IndicesWithout(total - 1, present);
      if present(total - 1) then earlier else earlier + [total - 1]
  }

  /** The gate's report: only the first and last missing index when more than
      ten are missing, the whole list otherwise. */
  function ReportOf(missing: seq<nat>): MissingReport
    requires missing != []
  {
    if |missing| > 10 then Span(missing[0], missing[|missing| - 1]) else Listing(missing)
  }

  /** For the missing list of a staging directory, a Span report names the
      smallest and the largest missing index, with every missing index between
      them; a Listing report names every missing index. */
  lemma ReportBounds(total: nat, dir: string, files: FileStore)
    requires GetMissingFrames(total, dir, files) != []
    ensures var missing := GetMissingFrames(total, dir, files);
            var rep := ReportOf(missing);
            && (rep.Span? <==> |missing| > 10)
            && (rep.Span? ==> rep.first < total && rep.last < total
                              && UpscaledFramePath(dir, rep.first) !in files
                              && UpscaledFramePath(dir, rep.last) !in files
                              && (forall i :: 0 <= i < total && UpscaledFramePath(dir, i) !in files ==> rep.first <= i <= rep.last))
            && (rep.Listing? ==> forall i :: 0 <= i < total ==> (i in rep.indices <==> UpscaledFramePath(dir, i) !in files))
  {
  }
}
