/** The calibration target: the world coordinates of the checkerboard's inner corners,
    built once from the configured board geometry the way numpy builds them
    (`np.zeros((rows*cols, 3))` filled with `np.mgrid[0:rows, 0:cols].T.reshape(-1, 2)`). */
module Checkerboard {
  import opened Outcome
  import opened Document

  /** One corner in board units; the board lies in the plane z = 0. */
  datatype Point3 = Point3(x: int, y: int, z: int)

  /** Column `c` of the transposed mgrid: the corners (0, c), (1, c), ..., (rows - 1, c). */
  function Column(rows: nat, c: int): seq<Point3> {
    seq(rows, r => Point3(r, c, 0))
  }

  /** The first `cols` columns one after the other, as `reshape(-1, 2)` lays them out. */
  function Grid(rows: nat, cols: nat): (g: seq<Point3>)
    ensures |g| == rows * cols
    ensures forall i :: 0 <= i < |g| ==> g[i] == Point3(i % rows, i / rows, 0)
  {
    if cols == 0 then []
    else
      var g := Grid(rows, cols - 1) + Column(rows, cols - 1);
      forall i | rows * (cols - 1) <= i < |g| ensures g[i] == Point3(i % rows, i / rows, 0) {
        RowMajor(rows, cols - 1, i - rows * (cols - 1));
      }
      g
  }

  /** Splitting the index c * rows + r of a grid of `rows`-long columns. */
  lemma RowMajor(rows: nat, c: nat, r: nat)
    requires r < rows
    ensures (rows * c + r) / rows == c && (rows * c + r) % rows == r
  {
    var i := rows * c + r;
    var q, m := i / rows, i % rows;
    assert rows * (q - c) == r - m;
    if q - c >= 1 {
      Stretch(rows, q - c);
      assert false;
    } else if c - q >= 1 {
      Stretch(rows, c - q);
      assert false;
    }
  }

  lemma Stretch(rows: nat, k: int)
    requires k >= 1
    ensures rows * k >= rows
  {
  }

  /** Lines 25-26 of the calibration routine on the configured `rows` and `cols`: Python
      multiplies them (TypeError unless both are integers); numpy refuses a negative side,
      either as the length of the zero array or, since `mgrid` does not clamp an empty range
      `0:n` with n < 0 to zero points, as a negative dimension of the mgrid block. */
  function WorldPoints(rowsCfg: Node, colsCfg: Node): (r: Result<seq<Point3>>)
    ensures IntValue(rowsCfg).None? || IntValue(colsCfg).None? ==> r == Stop(Raise(TypeError))
    ensures r.Stop? ==> r.halt.Raise?
    ensures r.Ok? ==> IntValue(rowsCfg).Some? && IntValue(colsCfg).Some?
    ensures IntValue(rowsCfg).Some? && IntValue(colsCfg).Some? ==>
      var rows, cols := IntValue(rowsCfg).value, IntValue(colsCfg).value;
      && (r.Ok? <==> rows >= 0 && cols >= 0)
      && (r.Stop? ==> r == Stop(Raise(ValueError)))
      && (r.Ok? ==> |r.value| == rows * cols)
      && (r.Ok? && rows > 0 ==> forall i :: 0 <= i < |r.value| ==> r.value[i] == Point3(i % rows, i / rows, 0))
  {
    match (IntValue(rowsCfg), IntValue(colsCfg))
    case (Some(rows), Some(cols)) =>
      if rows < 0 || cols < 0 then Stop(Raise(ValueError))
      else Ok(Grid(rows, cols))
    case _ => Stop(Raise(TypeError))
  }

  /** `cv2.findChessboardCorners` accepts a pattern size only when both sides exceed 2;
      for any other size it raises instead of searching the image. */
  predicate Detectable(rows: int, cols: int) {
    rows > 2 && cols > 2
  }

  /** Every corner of the board appears in the grid, at its column-by-column position, so
      the grid lists each (row, column) pair of the board exactly once. */
  lemma GridCoversBoard(rows: nat, cols: nat, r: nat, c: nat)
    requires r < rows && c < cols
    ensures rows * c + r < |Grid(rows, cols)|
    ensures Grid(rows, cols)[rows * c + r] == Point3(r, c, 0)
  {
    assert rows * c + r < rows * (c + 1) <= rows * cols;
    RowMajor(rows, c, r);
  }

  /** Every grid point is a corner of the board, in the plane z = 0. */
  lemma GridWithinBoard(rows: nat, cols: nat, i: nat)
    requires i < |Grid(rows, cols)|
    ensures var p := Grid(rows, cols)[i]; 0 <= p.x < rows && 0 <= p.y < cols && p.z == 0
  {
    var g := Grid(rows, cols);
    assert rows > 0;
    var q := i / rows;
    assert i == rows * q + i % rows;
  }
}
