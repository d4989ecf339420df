/** The per-frame upscale invocation: the argument vector handed to the
    ImageResizer executable for one staged frame. */
module Upscale {
  import opened Decimal
  import opened FrameNames
  import opened Types
  import opened Completeness

  /** The job parameters the upscale step reads: the resizer executable, the
      overall scale factor in percent, the algorithm's native magnification and
      name, and the source resolution. */
  datatype UpscaleJob = UpscaleJob(
    tool: string,
    scalePercent: nat,
    magnification: nat,
    algorithm: string,
    width: nat,
    height: nat)

  /** A secondary resize is needed when the requested scale differs from what
      the algorithm produces natively. */
  predicate NeedsResize(job: UpscaleJob) {
    job.scalePercent != 100 * job.magnification
  }

  /** The target size: each source dimension times the scale factor, truncated. */
  function TargetWidth(job: UpscaleJob): nat {
    job.width * job.scalePercent / 100
  }

  function TargetHeight(job: UpscaleJob): nat {
    job.height * job.scalePercent / 100
  }

  /** The algorithm step, e.g. "XBR 2x". */
  function AlgorithmStep(job: UpscaleJob): string {
    job.algorithm + " " + Digits(job.magnification) + "x"
  }

  /** The arguments for frame i: load the raw frame, run the algorithm, resize
      to the exact target with Lanczos when needed, and save the upscaled frame. */
  function UpscaleCommand(job: UpscaleJob, dir: string, i: nat): (cmd: seq<string>)
    ensures |cmd| == if NeedsResize(job) then 11 else 8
    ensures cmd[..6] == [job.tool, "/load", FramePath(dir, i), "/resize", "auto", AlgorithmStep(job)]
    ensures cmd[|cmd| - 2..] == ["/save", UpscaledFramePath(dir, i)]
    ensures NeedsResize(job) ==>
              cmd[6..9] == ["/resize", Digits(TargetWidth(job)) + "x" + Digits(TargetHeight(job)), "Lanczos"]
  {
    var inFrame := FramePath(dir, i);
    var outFrame := UpscaledFramePath(dir, i);
    if NeedsResize(job) then
      [job.tool, "/load", inFrame, "/resize", "auto", AlgorithmStep(job),
       "/resize", Digits(TargetWidth(job)) + "x" + Digits(TargetHeight(job)), "Lanczos",
       "/save", outFrame]
    else
      [job.tool, "/load", inFrame, "/resize", "auto", AlgorithmStep(job), "/save", outFrame]
  }

  /** The file the command for frame i writes. */
  function SaveTarget(cmd: seq<string>): string
    requires |cmd| >= 1
  {
    cmd[|cmd| - 1]
  }

  /** The Lanczos resize appears among the arguments after the executable
      exactly when the scale factor differs from the native magnification; in
      particular a scale equal to the magnification omits the secondary resize. */
  lemma LanczosIffResize(job: UpscaleJob, dir: string, i: nat)
    ensures "Lanczos" in UpscaleCommand(job, dir, i)[1..] <==> NeedsResize(job)
  {
    var cmd := UpscaleCommand(job, dir, i);
    PathsAreNotLanczos(dir, i);
    if NeedsResize(job) {
      assert cmd[1..][7] == "Lanczos";
    } else {
      assert cmd[1..] == ["/load", FramePath(dir, i), "/resize", "auto", AlgorithmStep(job), "/save", UpscaledFramePath(dir, i)];
      var step := AlgorithmStep(job);
      assert step[|job.algorithm|] == ' ';
    }
  }

  lemma PathsAreNotLanczos(dir: string, i: nat)
    ensures FramePath(dir, i) != "Lanczos" && UpscaledFramePath(dir, i) != "Lanczos"
  {
  }

  /** Workers never share an output: each command saves to its own frame's
      upscaled path, which differs from every other frame's target and from
      every raw frame any command loads. */
  lemma ExclusiveOutputs(job: UpscaleJob, dir: string, i: nat, j: nat)
    ensures SaveTarget(UpscaleCommand(job, dir, i)) == UpscaledFramePath(dir, i)
    ensures SaveTarget(UpscaleCommand(job, dir, i)) != UpscaledFramePath(dir, j) <== i != j
    ensures SaveTarget(UpscaleCommand(job, dir, i)) != UpscaleCommand(job, dir, j)[2]
  {
    var cmd := UpscaleCommand(job, dir, i);
    assert cmd[|cmd| - 1] == cmd[|cmd| - 2..][1];
    assert UpscaleCommand(job, dir, j)[2] == UpscaleCommand(job, dir, j)[..6][2];
    FramePathsDistinct(dir, j, i);
  }

  /** Once every frame's upscale command has written its save target, the
      completeness check finds nothing missing; and a frame whose command did
      not write its target is reported. */
  lemma DispatchCompletes(job: UpscaleJob, dir: string, n: nat, files: FileStore)
    ensures (forall i :: 0 <= i < n ==> SaveTarget(UpscaleCommand(job, dir, i)) in files)
              <==> GetMissingFrames(n, dir, files) == []
  {
    forall i | 0 <= i < n
      ensures SaveTarget(UpscaleCommand(job, dir, i)) == UpscaledFramePath(dir, i)
    {
      ExclusiveOutputs(job, dir, i, i);
    }
  }
}
