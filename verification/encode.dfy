/** The reassembler: the encode gate and the ffmpeg argument vector that
    muxes the upscaled frame sequence with the source video's audio. */
module Encode {
  import opened Types
  import opened Paths
  import opened FrameNames
  import opened Completeness

  /** Python's `s.split(sep)` with an explicit separator: every separator
      ends a piece, so n separators give n + 1 pieces, empty ones included. */
  function SplitOn(s: string, sep: char): (pieces: seq<string>)
    ensures |pieces| >= 1
    ensures forall k :: 0 <= k < |pieces| ==> sep !in pieces[k]
  {
    if s == [] then [[]]
    else
      var rest := SplitOn(s[1..], sep);
      if s[0] == sep then [[]] + rest
      else [[s[0]] + rest[0]] + rest[1..]
  }

  /** `sep.join(pieces)`. */
  function JoinWith(pieces: seq<string>, sep: char): string
    requires |pieces| >= 1
  {
    if |pieces| == 1 then pieces[0] else pieces[0] + [sep] + JoinWith(pieces[1..], sep)
  }

  /** Splitting loses nothing: joining the pieces with the separator gives back the string. */
  lemma {:induction false} JoinSplit(s: string, sep: char)
    ensures JoinWith(SplitOn(s, sep), sep) == s
  {
    if s != [] {
      JoinSplit(s[1..], sep);
      var rest := SplitOn(s[1..], sep);
      if s[0] != sep {
        var pieces := SplitOn(s, sep);
        assert pieces[1..] == rest[1..];
        if |rest| > 1 {
          assert rest[1..] == rest[1..][..];
          assert JoinWith(rest, sep) == rest[0] + [sep] + JoinWith(rest[1..], sep);
        }
      }
    }
  }

  /** And the other way round: pieces free of the separator are recovered by splitting their join. */
  lemma {:induction false} SplitJoin(pieces: seq<string>, sep: char)
    requires |pieces| >= 1
    requires forall k :: 0 <= k < |pieces| ==> sep !in pieces[k]
    ensures SplitOn(JoinWith(pieces, sep), sep) == pieces
    decreases |pieces|, |pieces[0]|
  {
    var p := pieces[0];
    if p == [] {
      if |pieces| > 1 {
        SplitJoin(pieces[1..], sep);
        assert JoinWith(pieces, sep) == [sep] + JoinWith(pieces[1..], sep);
      }
    } else {
      var shorter := [p[1..]] + pieces[1..];
      assert sep !in p[1..] by { assert forall k :: 0 <= k < |p[1..]| ==> p[1..][k] == p[k + 1]; }
      SplitJoin(shorter, sep);
      assert shorter[1..] == pieces[1..];
      var s := JoinWith(pieces, sep);
      assert s == [p[0]] + JoinWith(shorter, sep) by {
        if |pieces| > 1 {
          assert s == p + [sep] + JoinWith(pieces[1..], sep);
          assert p == [p[0]] + p[1..];
        }
      }
      assert s[1..] == JoinWith(shorter, sep);
      assert [[p[0]] + p[1..]] + pieces[1..] == pieces;
    }
  }

  /** The codec preset used when no ffmpeg arguments are configured. */
  const DefaultPreset: seq<string> :=
    ["-c:v", "libx264", "-preset", "medium", "-tune", "animation", "-crf", "15",
     "-pix_fmt", "yuv420p", "-c:a", "aac", "-b:a", "128k", "-shortest"]

  /** The fixed start of the ffmpeg command: the frame rate, the upscaled frame
      sequence as input 0, the source video as input 1, and the stream mapping
      (video from input 0, audio from input 1). */
  function CommandPrefix(fps: string, pattern: string, inputVideo: string): (prefix: seq<string>)
  {
    ["ffmpeg", "-r", fps, "-i", pattern, "-i", inputVideo, "-map", "0:v", "-map", "1:a"]
  }

  /** The gate and the command built after it. The source video must exist
      (its frame rate is read first); any missing upscaled frame stops the run
      with a report before a command is built; otherwise the command is the
      fixed prefix, then either the configured arguments split on single
      spaces or the default preset, then the output name. */
  method EncodeVideo(inputVideo: string, outputName: string, dir: string, totalFrames: nat,
                     fps: string, ffmpegArgs: string, files: FileStore)
    returns (r: Result<seq<string>>)
    ensures inputVideo !in files ==> r == Err(InputNotFound)
    ensures r.Ok? <==> inputVideo in files && GetMissingFrames(totalFrames, dir, files) == []
    ensures inputVideo in files && GetMissingFrames(totalFrames, dir, files) != [] ==>
              r == Err(IncompleteFrameSet(ReportOf(GetMissingFrames(totalFrames, dir, files))))
    ensures r.Ok? ==>
              var cmd := r.value;
              && |cmd| == 12 + (if ffmpegArgs != [] then |SplitOn(ffmpegArgs, ' ')| else 15)
              && cmd[..11] == CommandPrefix(fps, Join(dir, UpscaledPattern), inputVideo)
              && cmd[11..|cmd| - 1] == (if ffmpegArgs != [] then SplitOn(ffmpegArgs, ' ') else DefaultPreset)
              && cmd[|cmd| - 1] == outputName
  {
    if inputVideo !in files {
      return Err(InputNotFound);
    }
    var framePathList := Join(dir, UpscaledPattern);

    var missingFrames := GetMissingFrames(totalFrames, dir, files);
    if missingFrames != [] {
      return Err(IncompleteFrameSet(ReportOf(missingFrames)));
    }

    var ffmpegCmd := CommandPrefix(fps, framePathList, inputVideo);
    if ffmpegArgs != [] {
      ffmpegCmd := ffmpegCmd + SplitOn(ffmpegArgs, ' ');
    } else {
      ffmpegCmd := ffmpegCmd + DefaultPreset;
    }
    ffmpegCmd := ffmpegCmd + [outputName];
    r := Ok(ffmpegCmd);
  }
}
