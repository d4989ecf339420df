/** Values shared by the pipeline stages: the staging store, decoded frames,
    the report of missing frames and the fatal error conditions. */
module Types {

  /** Pixel content of one image; its layout is the codec's business. */
  datatype Image = Image(pixels: seq<int>)

  /** The filesystem as the pipeline sees it: each existing path and the image it holds. */
  type FileStore = map<string, Image>

  /** One frame as the video capture yields it: its image; whether writing it
      to disk succeeded and left the file in place afterwards; and, for a write
      that did not succeed, what it left at the frame's path: Some(partial)
      when it created or truncated the file with that content, None when the
      path was left as it was. */
  datatype DecodedFrame = DecodedFrame(image: Image, stored: bool, leftover: Option<Image>)

  /** What the encode gate reports about the missing upscaled frames: the first
      and last index when there are more than ten, and every index otherwise. */
  datatype MissingReport = Span(first: nat, last: nat) | Listing(indices: seq<nat>)

  /** The modelled conditions on which the run exits with status 1: a missing
      input video, a frame that could not be written, and missing upscaled frames. */
  datatype Error =
    | InputNotFound
    | FrameWriteError(index: nat)
    | IncompleteFrameSet(report: MissingReport)

  datatype Result<T> = Ok(value: T) | Err(error: Error)

  datatype Option<T> = None | Some(value: T)
}
