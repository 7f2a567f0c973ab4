# apriltag_python: camera calibration and detector bootstrap, modelled in Dafny

The repository has two scripts:

- `camera_intrinsics.py` calibrates a camera against a checkerboard. `calibrate(path)` does the following:
  - loads a YAML configuration;
  - builds the world coordinates of the board's inner corners;
  - captures frames until `num_imgs` of them show the board, or esc is pressed;
  - hands the correspondences to OpenCV's solver;
  - writes the nine solved intrinsics (fx, fy, cx, cy, k1, k2, p1, p2, k3) into the `intrinsics` block of the configuration and dumps it back to the file.
- `apriltag_locator.py` does three things:
  - loads the same configuration;
  - opens the camera and builds an AprilTag `Detector` from seven configured parameters;
  - grabs grey-scale images.

The Dafny project models the control flow and data flow of these routines as pure functions:

- the guards and their exit codes;
- the lookups, with their Python exceptions;
- the numpy world grid;
- the capture loop, as a fold over a script of iterations;
- the completion gate;
- the ordered, in-place write-back.

Whatever is outside the program is a parameter:

- the document `yaml.safe_load` produced;
- whether the camera opened;
- what each loop iteration read and detected;
- the calibration solver;
- the `Detector` constructor;
- the colour conversion.

Modules:

- `Outcome` (outcome.dfy) is how a run ends:
  - `Ok(value)`;
  - `Stop(Exit(n))` for `exit(n)`;
  - `Stop(Raise(e))` for an uncaught Python exception;
  - `Stop(AwaitingFrames)` when the frame script ends while the loop would still poll the camera.
- `Document` (document.dfy) holds the parsed configuration as an ordered tree and the config-path guard. A mapping is a sequence of entries:
  - lookup finds the first matching key;
  - `d[k] = v` keeps an existing key in place and appends a new one.

  The tree admits a mapping with a repeated key, which no dict from `yaml.safe_load` has. On mappings with unique keys (`UniqueKeys`), first-match lookup is dict lookup (`UniqueLookup`), and `d[k] = v` keeps the keys unique (`PutKeepsUnique`).
- `Checkerboard` (checkerboard.dfy) builds the world grid (lines 25-26 of the calibration script), including numpy's ValueError on a negative side.
- `Acquisition` (acquisition.dfy) holds the capture loop (lines 38-65). It has two forms, proved equal:
  - a recursive fold;
  - the `while` loop with its `continue`.
- `Intrinsics` (intrinsics.dfy) holds the nine write-back statements (lines 83-92).
- `CameraIntrinsics` (camera_intrinsics.dfy) composes all of these into `calibrate`.
- `AprilTagLocator` (apriltag_locator.dfy) models `load_config`, `init_capture_apriltags` and `capture_image`.

Behaviour of the code worth knowing:

- A path without a `.yaml`/`.yml` suffix:
  - in `calibrate`, it ends the process with `exit(1)`;
  - in `load_config`, it makes the function return None.
- A missing detector key raises KeyError at the lookup. `exit(2)` is reached only when a key is present with a null value.
- The world grid is the transposed `mgrid`, so the row coordinate varies fastest: point i is (i mod rows, i div rows, 0).
- The camera is not released on the exit paths.
- `cv2.findChessboardCorners` raises `cv2.error` for a pattern with a side of at most 2. A board of that size, an empty board included, ends the run at line 46 on the first frame that is read.
- With `num_imgs: 0` the loop body never runs, and line 77 reads the local `image`, which was never assigned: the run ends in UnboundLocalError. The model keeps this.

## Model

| member | source | states |
|---|---|---|
| Document.ConfigSuffixIff | camera_intrinsics.py:9-11 | the path guard accepts exactly the paths that are a stem followed by ".yaml" or ".yml" |
| Document.Index | camera_intrinsics.py:20-22 | `node[key]`: TypeError on a non-dict; on a dict, the value exactly when the key is present (the first entry's value), else KeyError naming the key |
| Document.UniqueLookup | camera_intrinsics.py:20-22 | on a mapping with unique keys, as `yaml.safe_load` produces, a lookup finds v under k exactly when the entry (k, v) is in the mapping |
| Document.PutKeepsUnique | camera_intrinsics.py:83-92 | `d[k] = v` keeps the keys of a mapping unique |
| Document.Put | camera_intrinsics.py:83-92 | `d[k] = v`: an existing key keeps its position, a new key is appended last, k now maps to v, and every other key's lookup and every other entry are unchanged |
| Checkerboard.Grid | camera_intrinsics.py:25-26 | the grid has rows*cols points and point i is (i mod rows, i div rows, 0) |
| Checkerboard.WorldPoints | camera_intrinsics.py:25-26 | TypeError unless rows and cols are integers; otherwise succeeds exactly when both are non-negative (ValueError for any negative side), with rows*cols points laid out column by column |
| Checkerboard.GridCoversBoard | camera_intrinsics.py:25-26 | every board corner (r, c) appears in the grid, at position rows*c + r |
| Checkerboard.GridWithinBoard | camera_intrinsics.py:25-26 | every grid point is a board corner with 0 <= x < rows, 0 <= y < cols and z = 0 |
| Acquisition.Acquire | camera_intrinsics.py:38-65 | the loop stops on reaching the target (exactly when the counter is at least nimgs), on esc (at an entry whose esc flag is set), with `cv2.error` (only for a refused pattern, at an entry whose frame was read), or when the script ends; no consumed entry had esc pressed; with a refused pattern every consumed entry was a failed read and the state is unchanged; the counter only grows and never passes a target it started below; the point lists stay parallel to the counter |
| Acquisition.StepRecords | camera_intrinsics.py:42-62 | one iteration appends the corners of an accepted frame and one copy of the grid, and counts it; a failed read or a frame without a board appends nothing and leaves the counter as it was |
| Acquisition.AcquireRecords | camera_intrinsics.py:49-59 | the image points gained are exactly the refined corners of the accepted frames consumed, in order; failed reads and frames without a board add nothing |
| Acquisition.AcquireGrids | camera_intrinsics.py:49-59 | the loop appends one reference to the same world grid for every sample it counts |
| Acquisition.AcquireBindsImage | camera_intrinsics.py:40-45 | after the loop, `image` is bound exactly when it was before or some consumed iteration read a frame |
| Acquisition.LoopFromStart | camera_intrinsics.py:27-65 | from the empty state the lists stay parallel to the counter, at most nimgs samples are taken, every world sample is the grid, and the image samples are the accepted frames' corners |
| Acquisition.SampleBindsImage | camera_intrinsics.py:45-59 | once a sample was taken, `image` is bound |
| Acquisition.ZeroTargetReadsNothing | camera_intrinsics.py:38-39 | with target 0 the loop reads nothing and leaves `image` unbound |
| Acquisition.RefusedPatternRaises | camera_intrinsics.py:39-46 | with a pattern the detector refuses, the loop ends in `cv2.error` exactly when some frame is read before the target is met and before esc |
| Acquisition.CaptureLoop | camera_intrinsics.py:38-65 | the `while` loop with `continue` computes the same state, stop reason and consumed count as the fold |
| Intrinsics.At | camera_intrinsics.py:83 | `m[row, col]` yields the entry exactly when it exists, IndexError otherwise |
| Intrinsics.Assign | camera_intrinsics.py:83 | `params["intrinsics"][k] = v` succeeds exactly when the intrinsics block is a dict; it changes the block as `d[k] = v` does and nothing outside it |
| Intrinsics.WriteBack | camera_intrinsics.py:83-92 | the statements succeed exactly when the block is a dict and every matrix entry read exists; otherwise they raise, and they never touch anything outside the block |
| Intrinsics.WriteBackSucceeds | camera_intrinsics.py:83-92 | the nine statements succeed exactly when the block is a dict and the camera matrix is at least 2x3 and the distortion row has at least five entries; otherwise they raise |
| Intrinsics.StoreIntrinsics | camera_intrinsics.py:83-92 | when the block is a dict and the solver output has the entries read, the write-back succeeds and afterwards fx, fy, cx, cy hold camera-matrix entries (0,0), (1,1), (0,2), (1,2) and k1, k2, p1, p2, k3 hold distortion entries (0,0) to (0,4); other keys keep their values; existing keys keep their order and missing ones are appended in statement order |
| Intrinsics.FillKeyOrder | camera_intrinsics.py:83-95 | the key order the dump preserves (`sort_keys=False`): the old keys in their order, then the written keys that were missing |
| Intrinsics.WriteBackFills | camera_intrinsics.py:83-92 | a successful write-back leaves the intrinsics block that writing the keys one after another into the old block gives |
| CameraIntrinsics.ReadBoard | camera_intrinsics.py:20-22 | the three lookups succeed exactly when the document is a dict with `num_imgs` and a `checkerboard` dict holding `rows` and `cols`, and return those values; a non-dict document raises TypeError, a missing `checkerboard` raises KeyError for it, and every failure is a TypeError or KeyError |
| CameraIntrinsics.Prepare | camera_intrinsics.py:20-39 | the set-up succeeds exactly when the lookups, the world grid, the camera and the integer comparison with `num_imgs` all succeed; `exit(1)` happens exactly when the configuration is usable and the camera is not open; the set-up records whether both board sides exceed 2, the sizes the corner detector accepts |
| CameraIntrinsics.Finish | camera_intrinsics.py:38-92 | the solver is called only with exactly nimgs >= 1 parallel samples whose world points are all the grid; a run that succeeds had the solver answer |
| CameraIntrinsics.Calibrate | camera_intrinsics.py:7-95 | a path without the suffix exits with 1 and a null document with 2, without calling the solver; the solver sees only complete sample sets of a successfully set-up run |
| CameraIntrinsics.CalibrateStages | camera_intrinsics.py:9-39 | a run that passes the guards and the set-up continues as the loop-and-solve stage; any other run stops without calling the solver |
| CameraIntrinsics.SolverCalledBlind | camera_intrinsics.py:69-79 | whether and with what the solver is called does not depend on the solver, and runs that do not call it end the same whatever it is |
| CameraIntrinsics.CompletionGate | camera_intrinsics.py:69-71 | once the loop stopped at the target or on esc, the run exits with 2 exactly when the sample count differs from `num_imgs`, then without calling the solver; esc before the target always ends there |
| CameraIntrinsics.RefusedPatternNeverSolves | camera_intrinsics.py:39-79 | a board with a side of at most 2 never reaches the solver; with a positive target the run raises `cv2.error` exactly when a frame is read before esc |
| CameraIntrinsics.ZeroTargetUnbound | camera_intrinsics.py:38-77 | a target of 0 ends in UnboundLocalError for `image` without calling the solver |
| CameraIntrinsics.SolverSeesAccepted | camera_intrinsics.py:49-79 | on reaching a positive target the solver gets nimgs copies of the grid and the refined corners of the accepted frames in capture order |
| CameraIntrinsics.FinishStores | camera_intrinsics.py:74-92 | a completed run stores each intrinsic from the solver's answer, keeps every other key of the block and leaves the rest of the document as it was |
| AprilTagLocator.LoadConfig | apriltag_locator.py:7-20 | the document is returned exactly when the path has a config suffix and the document is not null; otherwise None |
| AprilTagLocator.ParamValues | apriltag_locator.py:32-38 | the lookups succeed exactly when the configuration is a dict holding every key, and return the values in key order; TypeError on a non-dict, KeyError on a dict |
| AprilTagLocator.FirstMissingKey | apriltag_locator.py:32-38 | the KeyError names the first key, in reading order, that the configuration lacks |
| AprilTagLocator.Configured | apriltag_locator.py:32-52 | the detector argument in position i is the value configured under the i-th detector key |
| AprilTagLocator.ArgsRoundTrip | apriltag_locator.py:46-52 | passing `param_list[0..6]` as keyword arguments and reading them back in order gives `param_list` |
| AprilTagLocator.InitCaptureAprilTags | apriltag_locator.py:22-59 | a closed camera exits with 1 before anything else; a session holds the camera it was given; every other end is `exit(2)`, `exit(3)` or an exception |
| AprilTagLocator.InitOutcome | apriltag_locator.py:30-59 | with the camera open: a refused config raises TypeError; a non-dict raises TypeError; a missing key raises KeyError for the first missing one; a null value exits with 2 whatever the constructor does; otherwise the constructor gets the configured values and decides between `exit(3)` and the session |
| AprilTagLocator.CaptureImage | apriltag_locator.py:61-68 | None exactly when the read fails, otherwise the grey conversion of the frame read |

## Left out

- File I/O is not modelled: opening and reading the configuration, a missing file, and YAML syntax errors. The document `yaml.safe_load` returns is a parameter.
- The dump at lines 94-95 and its failures are not modelled. The model's result is the document that would be dumped; `sort_keys=False` is reflected in the entry order it keeps.
- `path` is modelled as a `str`. The signatures also accept a PathLike such as `pathlib.Path`. That type has no `endswith`, so for it line 9 of both scripts raises AttributeError; the model has no such input.
- OpenCV is not modelled, apart from the pattern-size refusal of `findChessboardCorners`. This covers `VideoCapture`, `isOpened`, `read`, `findChessboardCorners`, `cornerSubPix`, `calibrateCamera`, `cvtColor`, drawing, windows and `waitKey`. Their results are parameters: the camera flag, the per-iteration frame script, the solver and the conversion.
- The image size passed to the solver (`image.shape[::-1]`) is not modelled; the model keeps only whether `image` is bound.
- `keyboard.is_pressed("esc")` is not modelled; it is a flag in each script entry.
- Printing, the 2000 ms and 500 ms waits and the termination criteria are not modelled; they have no effect on the data.
- The frame script is finite, while the real loop polls the camera forever. A script that ends while the loop still runs ends in `AwaitingFrames`.
- CameraIntrinsics.Prepare: a `num_imgs` given as a YAML float makes the model raise TypeError, where Python would compare it numerically. Floats are an opaque type here.
- Checkerboard.WorldPoints: the coordinates are integers; numpy stores them as float32, which is exact for any realistic board size.
- The `Detector` constructor is a parameter that may return nothing. In Python a constructor never returns None, so `exit(3)` can only be reached through the model's parameter. Exceptions raised inside the constructor are not modelled.
- `detect_apriltags`, `main` and the `__main__` entry points are not modelled; they only call the modelled functions or the detector.
- Python's `exit` is modelled as a result; the process end itself is not.
- Mapping keys are strings only. YAML anchors and other node kinds are not distinguished.
