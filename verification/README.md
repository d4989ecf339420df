# xbr-video-upscaler: a Dafny model of the frame-pipeline core

xbr-video-upscaler upscales a video one frame at a time. It extracts every
frame to a staging directory as `frame_{i:05}.png` and runs the ImageResizer
executable on each frame to produce `frame_{i:05}_up.png`. It then checks that
every upscaled frame is there and has ffmpeg mux the upscaled sequence with the
source video's audio. The output gets a name that never overwrites an earlier
output.

This project models the deterministic core of that pipeline in Dafny and
proves properties of it. The core is the naming of staged frames, the
extraction loop, the per-frame ImageResizer argument vector, the completeness
check and the encode gate, the ffmpeg argument vector, and the
output-name disambiguation. The filesystem is modelled as a finite map from
existing path strings to images (`Types.FileStore`). Every `sys.exit(1)` on a
modelled path (main.py:43, 66, 128) becomes an `Err` result. Everything the program hands to an
external tool is modelled as the argument list the tool receives.

Files, one module each:

- `types.dfy` (`Types`): images, the file store, decoded frames, the missing-frame report, errors, `Result`, `Option`.
- `decimal.dfy` (`Decimal`): `str(n)`, the `{n:05}` format and parsing decimal text back.
- `paths.dfy` (`Paths`): `os.path.join` and `os.path.splitext` under POSIX rules.
- `frame_names.dfy` (`FrameNames`): raw and upscaled frame names and paths.
- `extraction.dfy` (`Extraction`): `extract_frames` as a method with a loop.
- `upscale.dfy` (`Upscale`): the command `upscale_frame` builds for one frame.
- `completeness.dfy` (`Completeness`): `get_missing_frames` and the report of the encode gate.
- `encode.dfy` (`Encode`): `str.split(' ')`, the encode gate and the ffmpeg command of `encode_video`.
- `output_name.dfy` (`OutputName`): the output-name format and `no_overwrite`.

Modelling assumptions:

- `os.path.join(dir, name)` returns `name` when `name` is absolute. Otherwise it puts `/` between the two parts, unless `dir` is empty or already ends in `/`.
- `os.path.splitext` follows POSIX rules. The extension starts at the last `.` of the final component, but only if some character other than `.` comes before that dot in the component.
- The scale factor is a whole number of percent. The resize decision `scale_factor != float(magnification_factor)` becomes `percent != 100 * magnification`. For integer inputs the two agree. The target size is `(width * percent) / 100`, truncated.
- The frame rate is an opaque string, standing in for `str(fps)`.
- A decoded frame carries a flag, `stored`. It is true when `cv2.imwrite` succeeded and the file exists right after the write.
- A frame whose write failed also carries what that write left at its path (`leftover`). `Some(partial)` means the write created or truncated the file with that content. `None` means the path was left as it was.

Behaviour of main.py that the model reproduces and that a reader might not expect:

- The missing-frame gate reports the whole list only when at most ten frames are missing. Above ten it reports only the first and last index (main.py:123-126).
- The existence of the input video is checked only when its frame rate is read. That happens in `encode_video`, after extraction and upscaling (main.py:41-43, 117). Extracting a file that cannot be opened yields zero frames, not an error. `ExtractFrames` has no existence check, and `EncodeVideo` performs that check first.
- Two exit paths do not clean up the staging directory: a failed frame write (main.py:64-66) and a missing input (main.py:41-43). Cleanup is not part of this model.
- Nothing guards the 5-digit index field. From index 100000 on, names have six or more digits. They stay distinct (`FrameNames.FrameNamesInjective`) but are no longer all the same length (`Decimal.FiveDigitField`).

## Model

| member | source | states |
|---|---|---|
| `Decimal.Digits` | main.py:80 | `str(n)` of a natural number is non-empty, all decimal digits, and has no leading zero |
| `Decimal.FiveDigitField` | main.py:62 | the field `{i:05}` has at least 5 characters, and exactly 5 if and only if i < 100000 |
| `Decimal.ParseZeroPadded` | main.py:62 | the zero-padded decimal text of i parses back to i, whatever the padding width |
| `Paths.JoinInjective` | main.py:62 | joining two relative names onto the same directory gives the same path if and only if the names are equal |
| `Paths.SplitExt` | main.py:160 | stem followed by extension gives back the path; the extension is empty, or is one `.` followed by text with no `.` and no `/` |
| `Paths.SplitExtAtLastDot` | main.py:160 | a path ending in `x.container`, where container has no `.` or `/`, splits into the part before the dot and `.container` |
| `FrameNames.FrameNameRoundTrip` | main.py:62 | the raw name `frame_{i:05}.png` parses back to index i |
| `FrameNames.UpscaledFrameNameRoundTrip` | main.py:76 | the upscaled name `frame_{i:05}_up.png` parses back to index i |
| `FrameNames.FrameNamesInjective` | main.py:75-76 | distinct indices never share a raw name or an upscaled name |
| `FrameNames.UpscaledNameInsertsUp` | main.py:75-76 | the upscaled name is the raw name with `_up` inserted before `.png` |
| `FrameNames.RawAndUpscaledDisjoint` | main.py:75-76 | no upscaled name equals the raw name of any frame |
| `FrameNames.FramePathsDistinct` | main.py:114 | after joining onto the staging directory, distinct frames still have distinct raw and upscaled paths, and raw and upscaled paths never coincide |
| `FrameNames.StagedFileCounts` | main.py:57-69 | frames 0..n-1 occupy exactly n raw paths and n upscaled paths, and the two sets are disjoint |
| `Extraction.ExtractFrames` | main.py:57-69 | returns Ok(n) with n the number of decoded frames exactly when every write is stored; on Ok the store gains exactly the paths `frame_{k:05}.png` for k < n, each holding the k-th decoded image, and all other files are untouched; otherwise the error names the first failed frame; the frames before it were written, and that frame's path holds whatever the failed write left there, or what it held before |
| `Upscale.UpscaleCommand` | main.py:71-82 | the command has 11 arguments when a secondary resize is needed and 8 otherwise; both forms share the six leading arguments (tool, `/load`, the raw frame, `/resize`, `auto`, `"{algorithm} {m}x"`) and end with `/save` and the upscaled frame; the resize form has `/resize`, `"{w}x{h}"`, `Lanczos` after them |
| `Upscale.LanczosIffResize` | main.py:79-82 | `Lanczos` appears among the arguments if and only if the scale factor differs from the magnification, so equal factors omit the secondary resize |
| `Upscale.ExclusiveOutputs` | main.py:75-82 | each frame's command saves to that frame's upscaled path; this differs from every other frame's save target and from every raw frame any command loads |
| `Upscale.DispatchCompletes` | main.py:106-114 | every frame's command has written its save target if and only if the completeness check finds nothing missing |
| `Completeness.GetMissingFrames` | main.py:113-114 | the result is exactly the indices in [0, total) whose upscaled file is absent, in strictly increasing order; it is empty if and only if every upscaled file exists |
| `Completeness.ReportBounds` | main.py:122-126 | the report is a first/last span if and only if more than 10 frames are missing; the span's ends are missing frames and every missing index lies between them; a listing holds exactly the missing indices |
| `Encode.SplitOn` | main.py:133 | `split(' ')` gives at least one piece, and no piece contains a space |
| `Encode.JoinSplit` | main.py:133 | joining the pieces of `args.split(' ')` with single spaces gives back `args` exactly |
| `Encode.SplitJoin` | main.py:133 | space-free pieces, joined with single spaces and split again, come back unchanged |
| `Encode.EncodeVideo` | main.py:116-138 | a missing input gives InputNotFound; if any upscaled frame is missing, the result is IncompleteFrameSet with the report and no command is built; otherwise the command is the 11-argument prefix, then the space-split arguments (or the 15-argument default preset when the arguments are empty), then the output name |
| `OutputName.NoOverwrite` | main.py:158-166 | the result does not exist; it is the name itself when that is free; otherwise it is `stem(k)ext`, with the original stem and extension, for the smallest k >= 1 not taken; the loop terminates because the existing set is finite |
| `OutputName.FirstFreeUnique` | main.py:158-166 | that characterisation allows only one name |
| `OutputName.SuffixedInjective` | main.py:163 | different counters give different alternative names |
| `OutputName.RepeatedRuns` | main.py:158-166 | when the name and its first m alternatives exist, the next run picks `stem(m+1)ext`: the second run gets `(1)`, the third `(2)` |
| `OutputName.OutputNameAlternatives` | main.py:195 | the output name `{stem}_upscaled_{algorithm}{m}x.{container}` splits at the container's dot, so the counter goes right before `.{container}` |

## Left out

- Running ImageResizer and ffmpeg (`subprocess.run`, exit codes, captured output, main.py:84-104, 140-156): these are foreign processes. Only the argument lists they receive are modelled. So encode failures are not modelled, and neither is the fact that they leave the exit status at 0.
- OpenCV (`cv2.VideoCapture`, `read`, `imwrite`, the `CAP_PROP_*` queries in `get_fps` and `get_resolution`): a foreign library. The decoded video is a sequence of frames. Width, height and fps are parameters.
- The upscale-failure exit (main.py:92-104): on a failed ImageResizer run the worker cleans up and calls `sys.exit(1)`. That call runs inside a thread-pool worker, so the `SystemExit` is stored in the future and never raised again (main.py:110-111 only iterates the futures). It does not end the run. The model has no error for it, and a frame left unwritten shows up only at the completeness check.
- `check_dependencies` exits (main.py:33-38): dependency checks on the environment. They have no `Err` counterpart.
- Concurrency: the thread pool, `as_completed`, the tqdm progress bar (main.py:106-111), `exit_event` and the SIGINT handler (main.py:14-22). Only the per-frame commands and the exclusive-output property are modelled.
- Floating point: `float(scale)/100`, `int(w * scale_factor)` and the float comparison of main.py:79. Percentages are whole numbers, and no rounding error is modelled.
- `cleanup`, `os.makedirs`, `check_dependencies`, argparse and configparser loading (main.py:24-38, 168-200): environment plumbing.
- Printed messages, including the verbose command echo and the text of the missing-frame report. The report is modelled as a value (`Types.MissingReport`), not as text.
- `Upscale.UpscaleCommand`: the magnification is a natural number written with `str`. The source writes the configuration string verbatim, which may differ in form (e.g. `"02"`).
