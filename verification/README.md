# SimpleImageProcessor in Dafny

SimpleImageProcessor watches one directory for new image files. For each
file it writes a copy with rounded, grey-bordered corners into the `done`
subdirectory, on a fixed 1600x1280 or 1280x1600 canvas. It then moves the
original into the `original` subdirectory.

This project models the two pieces of that program that carry logic:

- **The corner geometry of `ImageProcessor.addTransparentRoundCorners`**
  (`image_processor.dfy`, module `ImageProcessor`).
  - `swap` and `stretch` choose the canvas from the source's orientation only.
  - The corner radius is doubled into the side `d` of each arc's box. This uses
    C#'s 32-bit unchecked arithmetic, modelled in `int32.dfy`.
  - The destination rectangle always covers the whole canvas.
  - The clip path is four `AddArc` calls, one per corner.
  - The border path is that clip path plus the top-left arc a second time.
- **The startup state machine and the per-file sequence of `DirectoryWatcher`**
  (`directory_watcher.dfy`, module `DirectoryWatcher`).
  - The filesystem is abstract: a set of existing directories and a set of
    paths whose creation throws.
  - `subDirectoryExists` ensures one directory exists.
  - The guard of `VerifyInputAndRunImageProcessor` short-circuits: the base
    directory must exist, then `done` is ensured, then `original`.
  - `processImage` calls the transform (into `done`), then the relocation
    (into `original`).
  - Transform and relocation are opaque steps. Each event carries the outcome
    each step will have.

`paths.dfy` (module `Paths`) models the two path operations the watcher
relies on. The first is `Path.Combine`; the second is the name part of a
path (`FileInfo.Name`). Both follow the .NET rules on Windows.

`Watcher` is an immutable value, so `baseDirectory` and `fileFilter` are never
reassigned after construction, as in the source. No operation returns a
changed `Watcher`.

## Model

| member | source | states |
|---|---|---|
| Int32.Wrap | SimpleImageProcessor/ImageProcessor.cs:64 | an in-range value is left unchanged; every result is a 32-bit integer |
| Int32.WrapIsCongruent | SimpleImageProcessor/ImageProcessor.cs:64 | the wrapped value is the unique 32-bit integer congruent to the input modulo 2^32 |
| Paths.CombineAppends | SimpleImageProcessor/DirectoryWatcher.cs:40 | a relative second part ends the combined path, which begins with the first part, and a separator stands between the two |
| Paths.FileNameIsLastComponent | SimpleImageProcessor/ProjectExtensions.cs:20 | the name part is a separator-free suffix of the path, preceded by a separator unless it is the whole path |
| Paths.FileNameOfCombine | SimpleImageProcessor/ImageProcessor.cs:25-29 | round trip: the name part of `Combine(dir, n)` is `n` for every legal name `n` |
| Paths.CombineInjective | SimpleImageProcessor/DirectoryWatcher.cs:129-132 | under one directory, two names give the same path exactly when they are the same name |
| ImageProcessor.Swap | SimpleImageProcessor/ImageProcessor.cs:47 | the result's width is the input's height and vice versa |
| ImageProcessor.SwapInvolutive | SimpleImageProcessor/ImageProcessor.cs:47 | swapping twice is the identity; a swap leaves a size unchanged exactly when it is square |
| ImageProcessor.Stretch | SimpleImageProcessor/ImageProcessor.cs:49-62 | the canvas is always 1600x1280 or 1280x1600; it is 1280x1600 exactly when the source is strictly taller than wide, so a square source gets 1600x1280 |
| ImageProcessor.TallIsSwappedWide | SimpleImageProcessor/ImageProcessor.cs:53-58 | the portrait canvas is the landscape canvas transposed, and the two differ |
| ImageProcessor.StretchDependsOnlyOnOrientation | SimpleImageProcessor/ImageProcessor.cs:53-61 | two sources get the same canvas exactly when both or neither are portrait |
| ImageProcessor.Diameter | SimpleImageProcessor/ImageProcessor.cs:64 | the arc box side is exactly twice the radius whenever doubling cannot overflow |
| ImageProcessor.DiameterWraps | SimpleImageProcessor/ImageProcessor.cs:64 | the box side is always twice the radius modulo 2^32; a radius of 2^30 wraps to a side of -2^31 |
| ImageProcessor.ClipArcs | SimpleImageProcessor/ImageProcessor.cs:72-76 | four `d`x`d` arcs of 90 degrees, starting at 180, 270, 0 and 90 degrees; boxes at (0,0), (W-d,0), (W-d,H-d) and (0,H-d) for every `d` whose subtraction does not overflow, including a `d` larger than the canvas (a negative offset) |
| ImageProcessor.BorderArcs | SimpleImageProcessor/ImageProcessor.cs:78-79 | five arcs: the four clip arcs unchanged and in order, then the first one again |
| ImageProcessor.AddTransparentRoundCorners | SimpleImageProcessor/ImageProcessor.cs:64-79 | the canvas is one of the two sizes, chosen by orientation; the destination rectangle is (0,0,W,H); the clip arcs are the four corner boxes of side `d = 2r` (wrapped to 32 bits) on that canvas; the border is the clip plus its first arc; every clip box is inside the destination when 0 < 2r <= min(W,H) |
| ImageProcessor.ClipArcsInsideCanvas | SimpleImageProcessor/ImageProcessor.cs:73-76 | when 0 < 2r <= min(W,H), every clip arc's box lies within [0,W]x[0,H] |
| ImageProcessor.SweepsAddUp | SimpleImageProcessor/ImageProcessor.cs:73-79 | the clip sweeps total 360 degrees; the border sweeps total 450, because the first corner is traced twice |
| ImageProcessor.ClipHeadingsClose | SimpleImageProcessor/ImageProcessor.cs:73-76 | each clip arc ends, modulo 360, at the start angle of the next arc, and the last ends at the first's start |
| ImageProcessor.BorderHeadingsOvershoot | SimpleImageProcessor/ImageProcessor.cs:78-79 | the open border path ends a quarter turn past the heading it starts with: its last arc does not lead back into its first |
| ImageProcessor.ClipPathFollowsCanvasEdges | SimpleImageProcessor/ImageProcessor.cs:72-76 | the straight joins between consecutive arcs, including the closing join, run clockwise along the top, right, bottom and left canvas edges |
| ImageProcessor.BorderStrokesLeftEdge | SimpleImageProcessor/ImageProcessor.cs:78-79 | in the border path, the join from the bottom-left arc into the repeated top-left arc runs up the left canvas edge, so that edge is stroked |
| ImageProcessor.SampleCanvases | SimpleImageProcessor/ImageProcessor.cs:49-62 | a 2000x1500 source gets 1600x1280, a 1200x1600 source gets 1280x1600, a square source gets 1600x1280 |
| DirectoryWatcher.SubDirectory | SimpleImageProcessor/DirectoryWatcher.cs:129-132 | `Path.Combine(baseDirectory, name)`; it has no contract of its own, and `DirectoryWatcher.SubDirectoryUnderBase` and `DirectoryWatcher.SubDirectoriesDistinct` state what it yields |
| DirectoryWatcher.SubDirectoryUnderBase | SimpleImageProcessor/DirectoryWatcher.cs:129-132 | the path strictly extends the base directory and its name part is the subdirectory name |
| DirectoryWatcher.SubDirectoriesDistinct | SimpleImageProcessor/DirectoryWatcher.cs:14-19 | `done` and `original` are distinct paths, and neither is the base directory |
| DirectoryWatcher.EnsureDirectory | SimpleImageProcessor/DirectoryWatcher.cs:41-54 | succeeds exactly when the directory existed or its creation succeeds; on success the directory set gains exactly that path (nothing if it existed); on failure nothing changes |
| DirectoryWatcher.SubDirectoryExists | SimpleImageProcessor/DirectoryWatcher.cs:36-55 | for the path `Combine(baseDirectory, name)`: returns true exactly when that directory existed or its creation succeeds, and afterwards it exists; on true the set gains only that path; on false nothing changes |
| DirectoryWatcher.SubDirectoryExistsIdempotent | SimpleImageProcessor/DirectoryWatcher.cs:40-54 | on an existing directory the call returns true and changes nothing; a second call reproduces the first's result and state |
| DirectoryWatcher.EnsureAll | SimpleImageProcessor/DirectoryWatcher.cs:68 | the short-circuit chain ensures a prefix of the directories: every ensured directory but the last could be ensured, and on failure the last one could not, so the chain stops at the first failure; it removes nothing, creates only directories it ensured, and succeeds exactly when all of them exist afterwards |
| DirectoryWatcher.EnsureAllSucceedsIff | SimpleImageProcessor/DirectoryWatcher.cs:68 | the chain succeeds exactly when every directory exists or can be created in the initial filesystem |
| DirectoryWatcher.EnsureAllKeepsCreated | SimpleImageProcessor/DirectoryWatcher.cs:68 | a failing chain leaves in place every directory it ensured before the one that failed |
| DirectoryWatcher.EnsureAllIdempotent | SimpleImageProcessor/DirectoryWatcher.cs:36-55 | rerunning the chain on the filesystem it left gives the same outcome and creates nothing |
| DirectoryWatcher.VerifyInput | SimpleImageProcessor/DirectoryWatcher.cs:66-77 | watching starts exactly when the base exists and `done` and `original` each exist or can be created; a missing base attempts nothing; a failed `done` skips `original`; when `done` succeeds and `original` fails, `done` stays created; only `done` and `original` may be created |
| DirectoryWatcher.VerifyInputIdempotent | SimpleImageProcessor/DirectoryWatcher.cs:68 | running the startup guard twice is the same as running it once |
| DirectoryWatcher.OutputPath | SimpleImageProcessor/ImageProcessor.cs:25-29 | `Path.Combine(directory, fileInfo.Name)`, the save target here and the move target in `MoveTo` (ProjectExtensions.cs, lines 20-21); it has no contract of its own, and `DirectoryWatcher.TargetsKeepFileName` states what it yields |
| DirectoryWatcher.TargetsKeepFileName | SimpleImageProcessor/DirectoryWatcher.cs:117-122 | the transformed copy in `done` and the relocated original in `original` keep the source's file name, and are two different paths |
| DirectoryWatcher.TargetsDistinct | SimpleImageProcessor/DirectoryWatcher.cs:120-121 | one legal name under `done` and under `original` gives two different paths |
| DirectoryWatcher.ProcessImage | SimpleImageProcessor/DirectoryWatcher.cs:117-122 | a failed transform into `done` is the only call and raises; a successful one is followed by exactly one relocation into `original`, and nothing raises |
| DirectoryWatcher.HandleEvents | SimpleImageProcessor/DirectoryWatcher.cs:107-111 | a run raises exactly when some transform fails; without a failure it makes two calls per event, and never more than two |
| DirectoryWatcher.HandleEventsStopsAtFailure | SimpleImageProcessor/DirectoryWatcher.cs:117-122 | every event after the first failing transform is ignored |
| DirectoryWatcher.HandleEventsUpToFailure | SimpleImageProcessor/DirectoryWatcher.cs:107-122 | when transform `k` is the first to fail, the run makes both calls for each earlier file, then that failing transform, and nothing else, and it raises |
| DirectoryWatcher.FailedTransformBlocksLaterFile | SimpleImageProcessor/DirectoryWatcher.cs:120-121 | after a corrupt file `x`, a good file `y` is neither transformed nor moved |
| DirectoryWatcher.ProcessImageIsolated | SimpleImageProcessor/DirectoryWatcher.cs:117-122 | corrected handler: transform into `done`, then relocation into `original` whatever the transform's outcome; nothing escapes |
| DirectoryWatcher.HandleEventsIsolated | SimpleImageProcessor/DirectoryWatcher.cs:107-111 | with the corrected handler, a run never raises and makes two calls per event |
| DirectoryWatcher.HandleEventsIsolatedHandlesAll | SimpleImageProcessor/DirectoryWatcher.cs:117-122 | with the corrected handler, steps 2i and 2i+1 are event i's transform and relocation |
| DirectoryWatcher.HandleEventsIsolatedConcat | SimpleImageProcessor/DirectoryWatcher.cs:107-111 | failure isolation: with the corrected handler, a batch's calls do not depend on earlier batches |
| DirectoryWatcher.HandlersAgreeWithoutFailures | SimpleImageProcessor/DirectoryWatcher.cs:117-122 | when no transform fails, the handler as written and the corrected one make the same calls |
| DirectoryWatcher.VerifyInputAndRun | SimpleImageProcessor/DirectoryWatcher.cs:66-77 | no event is handled unless the startup guard passed, and once it passes every event goes through the handler as written; when a step happens, the base, `done` and `original` all exist |

## Left out

- Pixel work is not modelled: compositing settings, bicubic resampling, the `TileFlipXY` wrap mode, `SetClip`, `DrawImage` and `DrawPath`. These belong to System.Drawing.
- The grey pen's width (`7.5f`) is floating point and only affects stroking, so it is not modelled.
- Decoding the source and saving the copy are file I/O. The transform is one step whose success or failure is an input of each event.
- `SetResolution` only sets image metadata, so it is not modelled.
- The source's width and height are parameters, because they come from the decoded image.
- Arc angles are integers here. `AddArc` takes floats, but every angle the source passes is a whole number.
- `FileSystemWatcher` setup, the `Created` event wiring and the `Console.Read` quit loop are not modelled. The model handles a given sequence of events, one after another. Concurrent delivery is not modelled.
- `fileFilter` is carried in `Watcher` but not used: filtering by file pattern is done by `FileSystemWatcher`.
- `MoveTo` (`File.Move` inside a try/catch) is modelled as a relocation step whose outcome is given. Only its target directory and output path are modelled.
- `Program.cs` reads configuration only, and console messages are output only; neither is modelled.
- `processImage` calls `AddRoundCornersAndSave` with two arguments, but the method takes three. The model treats the corner radius as an explicit parameter of `AddTransparentRoundCorners` and does not model where it comes from.
- DirectoryWatcher.EnsureDirectory: a successful creation adds only the requested path. `Directory.CreateDirectory` would also create missing ancestors. Its only caller runs after the base directory is known to exist, so no ancestor is missing there.
- Paths.Combine: null arguments, invalid characters and UNC or device paths are not modelled. `Path.Combine` is a .NET library call, not part of this source, and is modelled from its documented Windows behaviour.
- ImageProcessor.AddTransparentRoundCorners: the argument checks of `GraphicsPath.AddArc` are not modelled. In the program a box side `d` that is not positive (a radius of 0 or less, or one whose doubling wraps to 0 or less) can make the call throw, which is a transform failure. In the model it is a plain value, and the arcs are built for every radius.
- DirectoryWatcher.FileSystem: directories are compared as exact strings. Windows compares paths case-insensitively and treats `/` and `\` alike. This changes no outcome here, because every path the model asks about is built from the one base directory with the same spelling.
- Paths.FileName: `FileInfo` first normalises its path to a full path. The model takes the name part of the path as given.

## Findings

| source | as written | input that shows it | evidently intended | confidence | as-written member | corrected member |
|---|---|---|---|---|---|---|
| SimpleImageProcessor/DirectoryWatcher.cs:117-122 | `AddRoundCornersAndSave` is called without a guard, before `MoveTo`. An exception from decoding or saving escapes the `Created` handler. The file is not relocated, and an exception on a `FileSystemWatcher` event thread ends the process, so later files are never handled. | a corrupt file `x` that matches the filter, followed by a valid file `y` | each per-file failure is logged and isolated, the same way `MoveTo` catches its own errors. The original is still relocated, and later files are handled as if `x` had never arrived. | medium; not executed | DirectoryWatcher.HandleEventsUpToFailure | DirectoryWatcher.HandleEventsIsolatedConcat |
