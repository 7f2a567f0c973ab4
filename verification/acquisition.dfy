/** The checkerboard acquisition loop of the calibration routine (lines 38-65), as a fold
    over a script of loop iterations. Camera reads, the esc-key poll, corner detection and
    sub-pixel refinement are not computed here: each iteration's script entry says what
    they returned. */
module Acquisition {
  import opened Checkerboard

  /** The sub-pixel refined image corners of one detected checkerboard; only ever stored. */
  type Corners(==)

  /** What one loop iteration gets from `cap.read()` and the corner detector. */
  datatype Frame =
    | ReadFail                 // ret == False: the iteration ends at the `continue`
    | NotFound                 // the frame was read, no checkerboard in it
    | Found(corners: Corners)  // checkerboard found; `corners` is what cornerSubPix returned

  /** One iteration: whether esc is held when the loop condition polls the keyboard, and
      the frame the body reads if the loop goes on. */
  datatype Tick = Tick(escPressed: bool, frame: Frame)

  /** The loop variables `counter`, `worldPts` and `imgPts`, and whether the local `image`
      has been assigned yet (it is read again after the loop). */
  datatype Capture = Capture(counter: int, worldPts: seq<seq<Point3>>, imgPts: seq<Corners>, imageBound: bool)

  datatype StopReason =
    | TargetReached  // `counter >= nimgs`
    | Cancelled      // esc was pressed
    | OutOfFrames    // the script ended; the program itself would keep polling the camera
    | DetectorRaised // `findChessboardCorners` refused the pattern size on the frame just read

  /** Where the loop stopped, why, and how many script entries it consumed. */
  datatype LoopEnd = LoopEnd(state: Capture, reason: StopReason, used: nat)

  /** The state before the first iteration (lines 27-28 and 38). */
  const Start: Capture := Capture(0, [], [], false)

  /** The two point lists stay parallel and their length is the counter. */
  predicate Aligned(s: Capture) {
    |s.worldPts| == |s.imgPts| == s.counter
  }

  /** The loop body (lines 40-65) on the frame it reads. */
  function Step(s: Capture, grid: seq<Point3>, f: Frame): Capture {
    match f
    case ReadFail => s
    case NotFound => s.(imageBound := true)
    case Found(c) => Capture(s.counter + 1, s.worldPts + [grid], s.imgPts + [c], true)
  }

  /** The refined corners of the accepted frames of a script, in order. */
  function Accepted(ticks: seq<Tick>): seq<Corners> {
    if |ticks| == 0 then []
    else (if ticks[0].frame.Found? then [ticks[0].frame.corners] else []) + Accepted(ticks[1..])
  }

  /** `n` references to the same world grid. */
  function Copies(grid: seq<Point3>, n: nat): seq<seq<Point3>> {
    seq(n, _ => grid)
  }

  /** The `while not counter >= nimgs and not keyboard.is_pressed("esc")` loop, started in
      state `s` on the script `ticks`. `detectable` says whether the corner detector accepts
      the board's pattern size; when it does not, the first frame read ends the loop with
      `cv2.error` at line 46, and `used` is then the position of that frame's entry. */
  function Acquire(nimgs: int, detectable: bool, grid: seq<Point3>, ticks: seq<Tick>, s: Capture): (e: LoopEnd)
    decreases |ticks|
    ensures e.used <= |ticks|
    ensures Aligned(s) ==> Aligned(e.state)
    ensures s.counter <= e.state.counter <= if s.counter < nimgs then nimgs else s.counter
    ensures e.reason == TargetReached <==> e.state.counter >= nimgs
    ensures e.reason == Cancelled ==> e.used < |ticks| && ticks[e.used].escPressed
    ensures e.reason == DetectorRaised ==> !detectable && e.used < |ticks| && !ticks[e.used].frame.ReadFail?
    ensures e.reason == OutOfFrames ==> e.used == |ticks|
    ensures forall i :: 0 <= i < e.used ==> !ticks[i].escPressed
    ensures !detectable ==> e.state == s && forall i :: 0 <= i < e.used ==> ticks[i].frame.ReadFail?
  {
    if s.counter >= nimgs then LoopEnd(s, TargetReached, 0)
    else if |ticks| == 0 then LoopEnd(s, OutOfFrames, 0)
    else if ticks[0].escPressed then LoopEnd(s, Cancelled, 0)
    else if !detectable && !ticks[0].frame.ReadFail? then LoopEnd(s, DetectorRaised, 0)
    else
      var e := Acquire(nimgs, detectable, grid, ticks[1..], Step(s, grid, ticks[0].frame));
      LoopEnd(e.state, e.reason, e.used + 1)
  }

  /** What the loop accumulates: the refined corners of every accepted frame it consumed,
      in order; failed reads and frames without a checkerboard add nothing. */
  lemma {:induction false} AcquireRecords(nimgs: int, detectable: bool, grid: seq<Point3>, ticks: seq<Tick>, s: Capture)
    ensures var e := Acquire(nimgs, detectable, grid, ticks, s);
      e.state.imgPts == s.imgPts + Accepted(ticks[..e.used])
    decreases |ticks|
  {
    var e := Acquire(nimgs, detectable, grid, ticks, s);
    if s.counter >= nimgs || |ticks| == 0 || ticks[0].escPressed || (!detectable && !ticks[0].frame.ReadFail?) {
      assert ticks[..e.used] == [];
    } else {
      var t := ticks[0];
      var s' := Step(s, grid, t.frame);
      var e' := Acquire(nimgs, detectable, grid, ticks[1..], s');
      assert e.state == e'.state && e.used == e'.used + 1;
      AcquireRecords(nimgs, detectable, grid, ticks[1..], s');
      ConsumedPrefix(ticks, e'.used);
      StepRecords(s, grid, t.frame);
    }
  }

  /** The loop appends one reference to the same world grid per sample it counts. */
  lemma {:induction false} AcquireGrids(nimgs: int, detectable: bool, grid: seq<Point3>, ticks: seq<Tick>, s: Capture)
    ensures var e := Acquire(nimgs, detectable, grid, ticks, s);
      e.state.worldPts == s.worldPts + Copies(grid, e.state.counter - s.counter)
    decreases |ticks|
  {
    if s.counter < nimgs && |ticks| > 0 && !ticks[0].escPressed && (detectable || ticks[0].frame.ReadFail?) {
      var s' := Step(s, grid, ticks[0].frame);
      AcquireGrids(nimgs, detectable, grid, ticks[1..], s');
      StepRecords(s, grid, ticks[0].frame);
      CopiesAdd(grid, s'.counter - s.counter, Acquire(nimgs, detectable, grid, ticks[1..], s').state.counter - s'.counter);
    }
  }

  /** One iteration records the corners of an accepted frame and one more copy of the grid. */
  lemma StepRecords(s: Capture, grid: seq<Point3>, f: Frame)
    ensures var head := if f.Found? then [f.corners] else [];
      && Step(s, grid, f).imgPts == s.imgPts + head
      && Step(s, grid, f).counter == s.counter + |head|
      && Step(s, grid, f).worldPts == s.worldPts + Copies(grid, |head|)
  {
  }

  lemma CopiesAdd(grid: seq<Point3>, a: nat, b: nat)
    ensures Copies(grid, a) + Copies(grid, b) == Copies(grid, a + b)
  {
  }

  /** Accepted frames of a consumed prefix: the first entry's, then the rest's. */
  lemma ConsumedPrefix(ticks: seq<Tick>, k: nat)
    requires k < |ticks|
    ensures Accepted(ticks[..k + 1])
         == (if ticks[0].frame.Found? then [ticks[0].frame.corners] else []) + Accepted(ticks[1..][..k])
  {
    assert ticks[..k + 1][1..] == ticks[1..][..k];
  }

  /** After the loop, `image` is bound exactly when it was before or some consumed
      iteration read a frame. */
  lemma {:induction false} AcquireBindsImage(nimgs: int, detectable: bool, grid: seq<Point3>, ticks: seq<Tick>, s: Capture)
    ensures var e := Acquire(nimgs, detectable, grid, ticks, s);
      e.state.imageBound <==> s.imageBound || exists i :: 0 <= i < e.used && !ticks[i].frame.ReadFail?
    decreases |ticks|
  {
    var e := Acquire(nimgs, detectable, grid, ticks, s);
    if s.counter >= nimgs || |ticks| == 0 || ticks[0].escPressed || (!detectable && !ticks[0].frame.ReadFail?) {
    } else {
      var s' := Step(s, grid, ticks[0].frame);
      var e' := Acquire(nimgs, detectable, grid, ticks[1..], s');
      AcquireBindsImage(nimgs, detectable, grid, ticks[1..], s');
      if e.state.imageBound && !s.imageBound {
        if s'.imageBound {
          assert !ticks[0].frame.ReadFail?;
        } else {
          var i :| 0 <= i < e'.used && !ticks[1..][i].frame.ReadFail?;
          assert !ticks[i + 1].frame.ReadFail?;
        }
      }
      if exists i :: 0 <= i < e.used && !ticks[i].frame.ReadFail? {
        var i :| 0 <= i < e.used && !ticks[i].frame.ReadFail?;
        if i > 0 {
          assert !ticks[1..][i - 1].frame.ReadFail?;
        }
      }
    }
  }

  /** A script with an accepted frame has a frame that was read. */
  lemma {:induction false} AcceptedWereRead(ticks: seq<Tick>)
    requires |Accepted(ticks)| > 0
    ensures exists i :: 0 <= i < |ticks| && ticks[i].frame.Found?
  {
    if ticks[0].frame.Found? {
    } else {
      AcceptedWereRead(ticks[1..]);
      var i :| 0 <= i < |ticks[1..]| && ticks[1..][i].frame.Found?;
      assert ticks[i + 1].frame.Found?;
    }
  }

  /** Run from the start, the loop keeps the lists parallel to the counter, never collects
      more than `nimgs` samples, stores the same grid for every sample and the corners of
      the i-th accepted frame as the i-th image sample. */
  lemma LoopFromStart(nimgs: int, detectable: bool, grid: seq<Point3>, ticks: seq<Tick>)
    ensures var e := Acquire(nimgs, detectable, grid, ticks, Start);
      && Aligned(e.state)
      && (nimgs >= 0 ==> e.state.counter <= nimgs)
      && (forall i :: 0 <= i < |e.state.worldPts| ==> e.state.worldPts[i] == grid)
      && e.state.imgPts == Accepted(ticks[..e.used])
  {
    AcquireRecords(nimgs, detectable, grid, ticks, Start);
    AcquireGrids(nimgs, detectable, grid, ticks, Start);
  }

  /** The local `image` is unbound after the loop exactly when no frame was read; once at
      least one sample was collected, it is bound. */
  lemma {:induction false} SampleBindsImage(nimgs: int, detectable: bool, grid: seq<Point3>, ticks: seq<Tick>)
    requires Acquire(nimgs, detectable, grid, ticks, Start).state.counter >= 1
    ensures Acquire(nimgs, detectable, grid, ticks, Start).state.imageBound
  {
    var e := Acquire(nimgs, detectable, grid, ticks, Start);
    AcquireRecords(nimgs, detectable, grid, ticks, Start);
    AcquireBindsImage(nimgs, detectable, grid, ticks, Start);
    AcceptedWereRead(ticks[..e.used]);
    var i :| 0 <= i < e.used && ticks[..e.used][i].frame.Found?;
    assert !ticks[i].frame.ReadFail?;
  }

  /** With a target of zero the loop body never runs, so `image` is never assigned. */
  lemma ZeroTargetReadsNothing(detectable: bool, grid: seq<Point3>, ticks: seq<Tick>)
    ensures var e := Acquire(0, detectable, grid, ticks, Start);
      e.used == 0 && e.reason == TargetReached && !e.state.imageBound
  {
  }

  /** With a pattern the detector refuses, the loop raises exactly when some iteration reads
      a frame before the target is met and before esc is pressed. */
  lemma {:induction false} RefusedPatternRaises(nimgs: int, grid: seq<Point3>, ticks: seq<Tick>, s: Capture)
    requires s.counter < nimgs
    ensures Acquire(nimgs, false, grid, ticks, s).reason == DetectorRaised
        <==> exists i :: 0 <= i < |ticks| && !ticks[i].frame.ReadFail? && forall j :: 0 <= j <= i ==> !ticks[j].escPressed
    decreases |ticks|
  {
    if |ticks| == 0 || ticks[0].escPressed {
    } else if !ticks[0].frame.ReadFail? {
      assert !ticks[0].frame.ReadFail? && forall j :: 0 <= j <= 0 ==> !ticks[j].escPressed;
    } else {
      RefusedPatternRaises(nimgs, grid, ticks[1..], s);
      if exists i :: 0 <= i < |ticks| && !ticks[i].frame.ReadFail? && forall j :: 0 <= j <= i ==> !ticks[j].escPressed {
        var i :| 0 <= i < |ticks| && !ticks[i].frame.ReadFail? && forall j :: 0 <= j <= i ==> !ticks[j].escPressed;
        assert !ticks[1..][i - 1].frame.ReadFail? && forall j :: 0 <= j <= i - 1 ==> !ticks[1..][j].escPressed;
      }
      if exists i :: 0 <= i < |ticks[1..]| && !ticks[1..][i].frame.ReadFail? && forall j :: 0 <= j <= i ==> !ticks[1..][j].escPressed {
        var i :| 0 <= i < |ticks[1..]| && !ticks[1..][i].frame.ReadFail? && forall j :: 0 <= j <= i ==> !ticks[1..][j].escPressed;
        assert forall j :: 1 <= j <= i + 1 ==> ticks[j] == ticks[1..][j - 1];
        assert !ticks[i + 1].frame.ReadFail? && forall j :: 0 <= j <= i + 1 ==> !ticks[j].escPressed;
      }
    }
  }

  /** The loop as the source writes it, with `continue` on a failed read. */
  method CaptureLoop(nimgs: int, detectable: bool, grid: seq<Point3>, ticks: seq<Tick>) returns (s: Capture, reason: StopReason, used: nat)
    ensures LoopEnd(s, reason, used) == Acquire(nimgs, detectable, grid, ticks, Start)
    ensures Aligned(s)
  {
    s := Start;
    used := 0;
    while s.counter < nimgs && used < |ticks| && !ticks[used].escPressed
      invariant used <= |ticks|
      invariant Aligned(s)
      invariant var e := Acquire(nimgs, detectable, grid, ticks[used..], s);
        Acquire(nimgs, detectable, grid, ticks, Start) == LoopEnd(e.state, e.reason, e.used + used)
      decreases |ticks| - used
    {
      var frame := ticks[used].frame;
      assert ticks[used..][1..] == ticks[used + 1..];
      if frame.ReadFail? {
        used := used + 1;
        continue;
      }
      if !detectable {
        break;
      }
      used := used + 1;
      s := s.(imageBound := true);
      if frame.Found? {
        s := s.(counter := s.counter + 1, worldPts := s.worldPts + [grid], imgPts := s.imgPts + [frame.corners]);
      }
    }
    if s.counter >= nimgs {
      reason := TargetReached;
    } else if used == |ticks| {
      reason := OutOfFrames;
    } else if ticks[used].escPressed {
      reason := Cancelled;
    } else {
      reason := DetectorRaised;
    }
  }
}
