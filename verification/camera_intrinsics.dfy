/** The calibration routine `calibrate(path)` as one function of what it observes: the
    config path, the document `yaml.safe_load` returned for it, whether the camera opened,
    the script of loop iterations and the calibration solver. */
module CameraIntrinsics {
  import opened Outcome
  import opened Document
  import opened Checkerboard
  import opened Acquisition
  import opened Intrinsics

  /** The configured board: the `rows` and `cols` of the `checkerboard` block and the
      top-level `num_imgs`, as they appear in the document. */
  datatype BoardConfig = BoardConfig(rows: Node, cols: Node, nimgs: Node)

  /** What the routine knows once the camera is open: the world grid, whether the corner
      detector accepts the board's pattern size, and the sample target. */
  datatype Setup = Setup(grid: seq<Point3>, detectable: bool, nimgs: int)

  /** The arguments handed to `cv2.calibrateCamera`. */
  datatype Samples = Samples(worldPts: seq<seq<Point3>>, imgPts: seq<Corners>)

  /** How a run ends, and the samples the solver was called with, if it was called. */
  datatype Calibration = Calibration(result: Result<Node>, solverInput: Option<Samples>)

  /** Lines 20-22: `params["checkerboard"]["rows"]`, `params["checkerboard"]["cols"]`,
      `params["num_imgs"]`, in that order; the first failing lookup raises. */
  function ReadBoard(params: Node): (r: Result<BoardConfig>)
    ensures !params.Mapping? ==> r == Stop(Raise(TypeError))
    ensures params.Mapping? && "checkerboard" !in Keys(params.entries) ==> r == Stop(Raise(KeyError("checkerboard")))
    ensures r.Stop? ==> r.halt.Raise? && (r.halt.error == TypeError || r.halt.error.KeyError?)
    ensures r.Ok? <==>
      && params.Mapping?
      && "num_imgs" in Keys(params.entries)
      && match Lookup(params.entries, "checkerboard")
         case Some(Mapping(b)) => "rows" in Keys(b) && "cols" in Keys(b)
         case _ => false
    ensures r.Ok? ==>
      && Lookup(params.entries, "num_imgs") == Some(r.value.nimgs)
      && Lookup(params.entries, "checkerboard").value.Mapping?
      && Lookup(Lookup(params.entries, "checkerboard").value.entries, "rows") == Some(r.value.rows)
      && Lookup(Lookup(params.entries, "checkerboard").value.entries, "cols") == Some(r.value.cols)
  {
    var board :- Index(params, "checkerboard");
    var rows :- Index(board, "rows");
    var cols :- Index(board, "cols");
    var nimgs :- Index(params, "num_imgs");
    FoundIffKey(params.entries, "checkerboard");
    FoundIffKey(params.entries, "num_imgs");
    FoundIffKey(board.entries, "rows");
    FoundIffKey(board.entries, "cols");
    Ok(BoardConfig(rows, cols, nimgs))
  }

  /** Lines 20-39 up to the first evaluation of the loop condition: the lookups, the world
      grid, the camera check (`exit(1)`), and the comparison `counter >= nimgs`, which
      raises TypeError unless `num_imgs` is an integer. */
  function Prepare(params: Node, cameraOpened: bool): (r: Result<Setup>)
    ensures r.Ok? <==>
      && ReadBoard(params).Ok?
      && WorldPoints(ReadBoard(params).value.rows, ReadBoard(params).value.cols).Ok?
      && cameraOpened
      && IntValue(ReadBoard(params).value.nimgs).Some?
    ensures r.Ok? ==>
      var board := ReadBoard(params).value;
      && r.value.grid == WorldPoints(board.rows, board.cols).value
      && Some(r.value.nimgs) == IntValue(board.nimgs)
      && (r.value.detectable <==> Detectable(IntValue(board.rows).value, IntValue(board.cols).value))
    ensures r.Stop? ==> r.halt.Raise? || r.halt == Exit(1)
    ensures r == Stop(Exit(1)) <==>
      ReadBoard(params).Ok? && WorldPoints(ReadBoard(params).value.rows, ReadBoard(params).value.cols).Ok? && !cameraOpened
  {
    var board :- ReadBoard(params);
    var grid :- WorldPoints(board.rows, board.cols);
    if !cameraOpened then Stop(Exit(1))
    else match IntValue(board.nimgs)
      case None => Stop(Raise(TypeError))
      case Some(n) => Ok(Setup(grid, Detectable(IntValue(board.rows).value, IntValue(board.cols).value), n))
  }

  /** Lines 38-95 once the camera is open and `num_imgs` is an integer: the loop from the
      empty state (ended by `cv2.error` when the detector refuses the pattern size), the gate at lines 69-71 (`exit(2)` unless exactly `nimgs` samples were
      taken), line 77 reading `image` (unbound when no frame was ever read), the solver (a
      refusal raises), and the write-back of the nine intrinsics into the document. */
  function Finish(doc: Node, setup: Setup, ticks: seq<Tick>, solve: Samples -> Option<Solution>): (c: Calibration)
    ensures c.solverInput.Some? ==>
      var input := c.solverInput.value;
      && |input.imgPts| == |input.worldPts| == setup.nimgs >= 1
      && (forall i :: 0 <= i < |input.worldPts| ==> input.worldPts[i] == setup.grid)
    ensures c.result.Ok? ==> c.solverInput.Some? && solve(c.solverInput.value).Some?
  {
    var e := Acquire(setup.nimgs, setup.detectable, setup.grid, ticks, Start);
    LoopFromStart(setup.nimgs, setup.detectable, setup.grid, ticks);
    ZeroTargetReadsNothing(setup.detectable, setup.grid, ticks);
    if e.reason == OutOfFrames then Calibration(Stop(AwaitingFrames), None)
    else if e.reason == DetectorRaised then Calibration(Stop(Raise(OpenCvError)), None)
    else if e.state.counter != setup.nimgs then Calibration(Stop(Exit(2)), None)
    else if !e.state.imageBound then Calibration(Stop(Raise(UnboundLocalError("image"))), None)
    else
      var input := Samples(e.state.worldPts, e.state.imgPts);
      match solve(input)
      case None => Calibration(Stop(Raise(OpenCvError)), Some(input))
      case Some(sol) => Calibration(WriteBack(doc, sol, Fields), Some(input))
  }

  /** `calibrate(path)`: the guards at lines 9-11 and 16-18 exit with 1 and 2, then the
      set-up and the rest of the run. The result is the updated document that lines 94-95
      dump back to `path`. */
  function Calibrate(path: string, doc: Node, cameraOpened: bool, ticks: seq<Tick>,
                     solve: Samples -> Option<Solution>): (c: Calibration)
    ensures !HasConfigSuffix(path) ==> c == Calibration(Stop(Exit(1)), None)
    ensures HasConfigSuffix(path) && doc.Null? ==> c == Calibration(Stop(Exit(2)), None)
    ensures c.solverInput.Some? ==>
      var input := c.solverInput.value;
      && Prepare(doc, cameraOpened).Ok?
      && |input.imgPts| == |input.worldPts| == Prepare(doc, cameraOpened).value.nimgs >= 1
      && (forall i :: 0 <= i < |input.worldPts| ==> input.worldPts[i] == Prepare(doc, cameraOpened).value.grid)
    ensures c.result.Ok? ==> c.solverInput.Some? && solve(c.solverInput.value).Some?
  {
    if !HasConfigSuffix(path) then Calibration(Stop(Exit(1)), None)
    else if doc.Null? then Calibration(Stop(Exit(2)), None)
    else match Prepare(doc, cameraOpened)
      case Stop(h) => Calibration(Stop(h), None)
      case Ok(setup) => Finish(doc, setup, ticks, solve)
  }

  /** Past the guards and the set-up, the run is `Finish`; a run stopped earlier never
      reaches the camera loop or the solver. */
  lemma CalibrateStages(path: string, doc: Node, cameraOpened: bool, ticks: seq<Tick>,
                        solve: Samples -> Option<Solution>)
    ensures var c := Calibrate(path, doc, cameraOpened, ticks, solve);
      if HasConfigSuffix(path) && !doc.Null? && Prepare(doc, cameraOpened).Ok?
      then c == Finish(doc, Prepare(doc, cameraOpened).value, ticks, solve)
      else c.result.Stop? && c.solverInput.None?
  {
  }

  /** The solver is consulted only for its answer: whether it is called, and with what, does
      not depend on it, and a run that never calls it ends the same way whatever it is. */
  lemma SolverCalledBlind(doc: Node, setup: Setup, ticks: seq<Tick>,
                          solve1: Samples -> Option<Solution>, solve2: Samples -> Option<Solution>)
    ensures Finish(doc, setup, ticks, solve1).solverInput == Finish(doc, setup, ticks, solve2).solverInput
    ensures Finish(doc, setup, ticks, solve1).solverInput.None? ==>
      Finish(doc, setup, ticks, solve1).result == Finish(doc, setup, ticks, solve2).result
  {
    var e := Acquire(setup.nimgs, setup.detectable, setup.grid, ticks, Start);
    var c1, c2 := Finish(doc, setup, ticks, solve1), Finish(doc, setup, ticks, solve2);
    if e.reason in {OutOfFrames, DetectorRaised} || e.state.counter != setup.nimgs || !e.state.imageBound {
      assert c1.solverInput.None? && c2.solverInput.None?;
    } else {
      var input := Samples(e.state.worldPts, e.state.imgPts);
      assert c1.solverInput == Some(input) && c2.solverInput == Some(input);
    }
  }

  /** The completion gate (lines 69-71): once the loop has ended normally (target or esc),
      the run exits with 2 exactly when the number of samples differs from `num_imgs`, and
      then the solver is not called. Pressing esc before the target always ends there. */
  lemma CompletionGate(doc: Node, setup: Setup, ticks: seq<Tick>, solve: Samples -> Option<Solution>)
    ensures var e := Acquire(setup.nimgs, setup.detectable, setup.grid, ticks, Start);
      var c := Finish(doc, setup, ticks, solve);
      && (e.reason in {TargetReached, Cancelled} ==> (c.result == Stop(Exit(2)) <==> e.state.counter != setup.nimgs))
      && (c.result == Stop(Exit(2)) ==> c.solverInput.None?)
      && (e.reason == Cancelled ==> c.result == Stop(Exit(2)))
  {
  }

  /** With a target of zero the loop ends at once and line 77 reads the never-assigned
      `image`. */
  lemma ZeroTargetUnbound(doc: Node, grid: seq<Point3>, detectable: bool, ticks: seq<Tick>, solve: Samples -> Option<Solution>)
    ensures Finish(doc, Setup(grid, detectable, 0), ticks, solve) == Calibration(Stop(Raise(UnboundLocalError("image"))), None)
  {
    ZeroTargetReadsNothing(detectable, grid, ticks);
  }

  /** A board whose pattern the corner detector refuses (a side of at most 2) never reaches
      the solver; with a positive target the run ends in `cv2.error` at line 46 exactly when
      a frame is read before esc is pressed. */
  lemma RefusedPatternNeverSolves(doc: Node, setup: Setup, ticks: seq<Tick>, solve: Samples -> Option<Solution>)
    requires !setup.detectable
    ensures Finish(doc, setup, ticks, solve).solverInput.None?
    ensures setup.nimgs >= 1 ==>
      (Finish(doc, setup, ticks, solve).result == Stop(Raise(OpenCvError)) <==>
         exists i :: 0 <= i < |ticks| && !ticks[i].frame.ReadFail? && forall j :: 0 <= j <= i ==> !ticks[j].escPressed)
  {
    if setup.nimgs >= 1 {
      RefusedPatternRaises(setup.nimgs, setup.grid, ticks, Start);
    }
  }

  /** When the loop reaches a positive target, the solver gets `nimgs` copies of the world
      grid and the refined corners of the accepted frames, in capture order. */
  lemma SolverSeesAccepted(doc: Node, setup: Setup, ticks: seq<Tick>, solve: Samples -> Option<Solution>)
    requires setup.nimgs >= 1
    requires Acquire(setup.nimgs, setup.detectable, setup.grid, ticks, Start).reason == TargetReached
    ensures var e := Acquire(setup.nimgs, setup.detectable, setup.grid, ticks, Start);
      && |Accepted(ticks[..e.used])| == setup.nimgs
      && Finish(doc, setup, ticks, solve).solverInput
           == Some(Samples(Copies(setup.grid, setup.nimgs), Accepted(ticks[..e.used])))
  {
    var e := Acquire(setup.nimgs, setup.detectable, setup.grid, ticks, Start);
    LoopFromStart(setup.nimgs, setup.detectable, setup.grid, ticks);
    AcquireGrids(setup.nimgs, setup.detectable, setup.grid, ticks, Start);
    SampleBindsImage(setup.nimgs, setup.detectable, setup.grid, ticks);
    assert e.state.counter == setup.nimgs;
    assert e.state.worldPts == Copies(setup.grid, setup.nimgs);
    assert Finish(doc, setup, ticks, solve).solverInput == Some(Samples(e.state.worldPts, e.state.imgPts));
  }

  /** A run that completes has written every intrinsic from the solver's answer into the
      `intrinsics` block and left the rest of the document as it was. */
  lemma FinishStores(doc: Node, setup: Setup, ticks: seq<Tick>, solve: Samples -> Option<Solution>)
    ensures var c := Finish(doc, setup, ticks, solve);
      c.result.Ok? ==>
        var sol := solve(c.solverInput.value).value;
        var out := c.result.value;
        && doc.Mapping? && out.Mapping? && Block(doc).Some? && Block(out).Some?
        && SameOutsideIntrinsics(doc.entries, out.entries)
        && (forall i :: 0 <= i < |Fields| ==>
              Lookup(Block(out).value, Fields[i].key) == Some(Real(ValueOf(sol, Fields[i]).value)))
        && (forall k :: k !in KeysOf(Fields) ==> Lookup(Block(out).value, k) == Lookup(Block(doc).value, k))
  {
    var c := Finish(doc, setup, ticks, solve);
    if c.result.Ok? {
      var e := Acquire(setup.nimgs, setup.detectable, setup.grid, ticks, Start);
      var input := Samples(e.state.worldPts, e.state.imgPts);
      assert c.solverInput == Some(input) && solve(input).Some?;
      assert c.result == WriteBack(doc, solve(input).value, Fields);
      WriteBackSucceeds(doc, solve(input).value);
      StoredBy(doc, solve(input).value);
    }
  }

  /** The write-back of a solution, seen from the intrinsics block. */
  lemma StoredBy(doc: Node, sol: Solution)
    requires Block(doc).Some? && Shaped(sol)
    ensures WriteBack(doc, sol, Fields).Ok?
    ensures var out := WriteBack(doc, sol, Fields).value;
      && doc.Mapping? && out.Mapping? && Block(doc).Some? && Block(out).Some?
      && SameOutsideIntrinsics(doc.entries, out.entries)
      && (forall i :: 0 <= i < |Fields| ==>
            Lookup(Block(out).value, Fields[i].key) == Some(Real(ValueOf(sol, Fields[i]).value)))
      && (forall k :: k !in KeysOf(Fields) ==> Lookup(Block(out).value, k) == Lookup(Block(doc).value, k))
  {
    WriteBackSucceeds(doc, sol);
    FieldsDistinct();
    WriteBackFills(doc, sol, Fields);
    var out := WriteBack(doc, sol, Fields).value;
    forall i | 0 <= i < |Fields|
      ensures Lookup(Block(out).value, Fields[i].key) == Some(Real(ValueOf(sol, Fields[i]).value))
    {
      FillStores(Block(doc).value, sol, Fields, i);
    }
    forall k | k !in KeysOf(Fields)
      ensures Lookup(Block(out).value, k) == Lookup(Block(doc).value, k)
    {
      FillKeepsOthers(Block(doc).value, sol, Fields, k);
    }
  }
}
