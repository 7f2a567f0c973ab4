/** Writing the solved intrinsics back into the configuration (lines 83-92 of the
    calibration routine): nine statements `params["intrinsics"][key] = float(m[row, col])`,
    run one after another. */
module Intrinsics {
  import opened Outcome
  import opened Document

  /** The camera matrix and distortion coefficients `cv2.calibrateCamera` returns, as rows
      of values; their entries are only ever copied. */
  datatype Solution = Solution(cameraMatrix: seq<seq<Float>>, distCoeffs: seq<seq<Float>>)

  datatype Source = CameraMatrix | DistCoeffs

  /** One write-back statement: the key it sets and the matrix entry it reads. */
  datatype Field = Field(key: string, source: Source, row: nat, col: nat)

  /** The nine statements, in source order. */
  const Fields: seq<Field> := [
    Field("fx", CameraMatrix, 0, 0),
    Field("fy", CameraMatrix, 1, 1),
    Field("cx", CameraMatrix, 0, 2),
    Field("cy", CameraMatrix, 1, 2),
    Field("k1", DistCoeffs, 0, 0),
    Field("k2", DistCoeffs, 0, 1),
    Field("p1", DistCoeffs, 0, 2),
    Field("p2", DistCoeffs, 0, 3),
    Field("k3", DistCoeffs, 0, 4)
  ]

  /** numpy `m[row, col]`; IndexError when the entry does not exist. */
  function At(m: seq<seq<Float>>, row: nat, col: nat): (r: Result<Float>)
    ensures r.Ok? <==> row < |m| && col < |m[row]|
    ensures r.Ok? ==> r.value == m[row][col]
    ensures r.Stop? ==> r == Stop(Raise(IndexError))
  {
    if row < |m| && col < |m[row]| then Ok(m[row][col]) else Stop(Raise(IndexError))
  }

  /** The value a write-back statement stores. */
  function ValueOf(sol: Solution, f: Field): Result<Float> {
    match f.source
    case CameraMatrix => At(sol.cameraMatrix, f.row, f.col)
    case DistCoeffs => At(sol.distCoeffs, f.row, f.col)
  }

  /** The entries of the `intrinsics` block when `params` is a dict and
      `params["intrinsics"]` is a dict too; None otherwise. */
  function Block(params: Node): Option<seq<Entry>> {
    if !params.Mapping? then None
    else match Lookup(params.entries, "intrinsics")
      case Some(Mapping(b)) => Some(b)
      case _ => None
  }

  /** Everything of a top-level mapping except the value of its `intrinsics` entry. */
  predicate SameOutsideIntrinsics(before: seq<Entry>, after: seq<Entry>) {
    && Keys(after) == Keys(before)
    && forall i :: 0 <= i < |before| && before[i].key != "intrinsics" ==> after[i] == before[i]
  }

  /** `params["intrinsics"][key] = v`: the lookup raises on a non-dict or a missing key, the
      item assignment raises TypeError unless the block is a dict; the block is updated in
      place, so the `intrinsics` entry keeps its position. */
  function Assign(params: Node, key: string, v: Float): (r: Result<Node>)
    ensures r.Ok? <==> Block(params).Some?
    ensures r.Stop? ==> r.halt.Raise?
    ensures r.Ok? ==> r.value.Mapping? && SameOutsideIntrinsics(params.entries, r.value.entries)
    ensures r.Ok? ==> Block(r.value) == Some(Put(Block(params).value, key, Real(v)))
  {
    var blk :- Index(params, "intrinsics");
    if !blk.Mapping? then Stop(Raise(TypeError))
    else
      var updated := Mapping(Put(blk.entries, key, Real(v)));
      ReplaceBlock(params.entries, updated);
      Ok(Mapping(Put(params.entries, "intrinsics", updated)))
  }

  /** Storing a new `intrinsics` value into a mapping that has one. */
  lemma ReplaceBlock(entries: seq<Entry>, updated: Node)
    requires Lookup(entries, "intrinsics").Some?
    ensures SameOutsideIntrinsics(entries, Put(entries, "intrinsics", updated))
    ensures Lookup(Put(entries, "intrinsics", updated), "intrinsics") == Some(updated)
  {
    FoundIffKey(entries, "intrinsics");
  }

  /** The write-back statements `fields`, one after another; the first failing one raises. */
  function WriteBack(params: Node, sol: Solution, fields: seq<Field>): (r: Result<Node>)
    ensures r.Ok? <==>
      && (|fields| == 0 || Block(params).Some?)
      && forall i :: 0 <= i < |fields| ==> ValueOf(sol, fields[i]).Ok?
    ensures r.Stop? ==> r.halt.Raise?
    ensures r.Ok? && |fields| > 0 ==>
      r.value.Mapping? && SameOutsideIntrinsics(params.entries, r.value.entries) && Block(r.value).Some?
    decreases |fields|
  {
    if |fields| == 0 then Ok(params)
    else
      ReadableStep(sol, fields);
      var v :- ValueOf(sol, fields[0]);
      var next :- Assign(params, fields[0].key, v);
      var r := WriteBack(next, sol, fields[1..]);
      if r.Ok? && |fields| > 1 then
        SameOutsideTrans(params.entries, next.entries, r.value.entries);
        r
      else r
  }

  /** All statements read existing entries exactly when the first and all the others do. */
  lemma ReadableStep(sol: Solution, fields: seq<Field>)
    requires |fields| > 0
    ensures (forall i :: 0 <= i < |fields| ==> ValueOf(sol, fields[i]).Ok?)
        <==> ValueOf(sol, fields[0]).Ok? && forall i :: 0 <= i < |fields[1..]| ==> ValueOf(sol, fields[1..][i]).Ok?
  {
    assert forall i :: 1 <= i < |fields| ==> fields[i] == fields[1..][i - 1];
  }

  lemma SameOutsideTrans(a: seq<Entry>, b: seq<Entry>, c: seq<Entry>)
    requires SameOutsideIntrinsics(a, b) && SameOutsideIntrinsics(b, c)
    ensures SameOutsideIntrinsics(a, c)
  {
  }

  /** The keys the statements `fields` write, in order. */
  function KeysOf(fields: seq<Field>): seq<string> {
    seq(|fields|, i requires 0 <= i < |fields| => fields[i].key)
  }

  lemma KeysOfCons(fields: seq<Field>)
    requires |fields| > 0
    ensures KeysOf(fields) == [fields[0].key] + KeysOf(fields[1..])
  {
  }

  /** The keys of `fields` that `keys` does not hold yet, in order. */
  function Missing(keys: seq<string>, fields: seq<string>): seq<string> {
    if |fields| == 0 then []
    else (if fields[0] in keys then [] else [fields[0]]) + Missing(keys, fields[1..])
  }

  predicate DistinctKeys(fields: seq<Field>) {
    forall i, j :: 0 <= i < j < |fields| ==> fields[i].key != fields[j].key
  }

  /** A key that none of `fields` mentions changes nothing about what is missing. */
  lemma {:induction false} MissingIgnoresOtherKey(keys: seq<string>, k: string, fields: seq<string>)
    requires k !in fields
    ensures Missing(keys + [k], fields) == Missing(keys, fields)
  {
    if |fields| > 0 {
      assert fields[0] in keys + [k] <==> fields[0] in keys;
      MissingIgnoresOtherKey(keys, k, fields[1..]);
    }
  }

  /** All the values the statements `fields` read exist. */
  predicate Readable(sol: Solution, fields: seq<Field>) {
    forall i :: 0 <= i < |fields| ==> ValueOf(sol, fields[i]).Ok?
  }

  /** The statements `fields` applied to the intrinsics block alone. */
  function Fill(block: seq<Entry>, sol: Solution, fields: seq<Field>): seq<Entry>
    requires Readable(sol, fields)
    decreases |fields|
  {
    if |fields| == 0 then block
    else Fill(Put(block, fields[0].key, Real(ValueOf(sol, fields[0]).value)), sol, fields[1..])
  }

  /** A successful write-back leaves the intrinsics block that `Fill` computes. */
  lemma {:induction false} WriteBackFills(params: Node, sol: Solution, fields: seq<Field>)
    requires |fields| > 0 && WriteBack(params, sol, fields).Ok?
    ensures Readable(sol, fields) && Block(params).Some?
    ensures Block(WriteBack(params, sol, fields).value) == Some(Fill(Block(params).value, sol, fields))
    decreases |fields|
  {
    var f, rest := fields[0], fields[1..];
    var v := ValueOf(sol, f).value;
    var next := Assign(params, f.key, v).value;
    assert WriteBack(params, sol, fields) == WriteBack(next, sol, rest);
    assert Block(next) == Some(Put(Block(params).value, f.key, Real(v)));
    if |rest| > 0 {
      WriteBackFills(next, sol, rest);
    }
  }

  /** The keys already in the block keep their order; the written keys that were missing
      are appended in statement order. */
  lemma {:induction false} FillKeyOrder(block: seq<Entry>, sol: Solution, fields: seq<Field>)
    requires Readable(sol, fields) && DistinctKeys(fields)
    ensures Keys(Fill(block, sol, fields)) == Keys(block) + Missing(Keys(block), KeysOf(fields))
    decreases |fields|
  {
    if |fields| > 0 {
      var f, rest := fields[0], fields[1..];
      var mid := Put(block, f.key, Real(ValueOf(sol, f).value));
      KeysOfCons(fields);
      FillTail(sol, fields);
      FillKeyOrder(mid, sol, rest);
      MissingStep(Keys(block), f.key, KeysOf(rest), Keys(mid));
    }
  }

  /** One step of the key-order argument: writing key `k` to a block with keys `ks`. */
  lemma MissingStep(ks: seq<string>, k: string, rest: seq<string>, mid: seq<string>)
    requires mid == if k in ks then ks else ks + [k]
    requires k !in rest
    ensures mid + Missing(mid, rest) == ks + Missing(ks, [k] + rest)
  {
    assert ([k] + rest)[0] == k && ([k] + rest)[1..] == rest;
    if k !in ks {
      MissingIgnoresOtherKey(ks, k, rest);
    }
  }

  /** A key that no statement writes keeps its value. */
  lemma {:induction false} FillKeepsOthers(block: seq<Entry>, sol: Solution, fields: seq<Field>, k: string)
    requires Readable(sol, fields) && k !in KeysOf(fields)
    ensures Lookup(Fill(block, sol, fields), k) == Lookup(block, k)
    decreases |fields|
  {
    if |fields| > 0 {
      var f, rest := fields[0], fields[1..];
      KeysOfCons(fields);
      FillKeepsOthers(Put(block, f.key, Real(ValueOf(sol, f).value)), sol, rest, k);
    }
  }

  /** Every written key holds the value of its matrix entry. */
  lemma {:induction false} FillStores(block: seq<Entry>, sol: Solution, fields: seq<Field>, i: nat)
    requires Readable(sol, fields) && DistinctKeys(fields) && i < |fields|
    ensures Lookup(Fill(block, sol, fields), fields[i].key) == Some(Real(ValueOf(sol, fields[i]).value))
    decreases |fields|
  {
    var f, rest := fields[0], fields[1..];
    var mid := Put(block, f.key, Real(ValueOf(sol, f).value));
    FillTail(sol, fields);
    if i > 0 {
      assert rest[i - 1] == fields[i];
      FillStores(mid, sol, rest, i - 1);
    } else {
      FillKeepsOthers(mid, sol, rest, f.key);
    }
  }

  /** The statements after the first read existing entries, write distinct keys, and none
      of them writes the first one's key. */
  lemma FillTail(sol: Solution, fields: seq<Field>)
    requires Readable(sol, fields) && DistinctKeys(fields) && |fields| > 0
    ensures Readable(sol, fields[1..]) && DistinctKeys(fields[1..])
    ensures fields[0].key !in KeysOf(fields[1..])
  {
    var rest := fields[1..];
    assert forall j :: 0 <= j < |rest| ==> rest[j] == fields[j + 1];
  }

  /** The solver output has every entry the nine statements read. */
  predicate Shaped(sol: Solution) {
    && |sol.cameraMatrix| >= 2 && |sol.cameraMatrix[0]| >= 3 && |sol.cameraMatrix[1]| >= 3
    && |sol.distCoeffs| >= 1 && |sol.distCoeffs[0]| >= 5
  }

  /** The nine statements read exactly the entries `Shaped` asks for. */
  lemma ShapedIffReadable(sol: Solution)
    ensures Readable(sol, Fields) <==> Shaped(sol)
  {
    assert ValueOf(sol, Fields[0]).Ok? <==> |sol.cameraMatrix| >= 1 && |sol.cameraMatrix[0]| >= 1;
    assert ValueOf(sol, Fields[2]).Ok? <==> |sol.cameraMatrix| >= 1 && |sol.cameraMatrix[0]| >= 3;
    assert ValueOf(sol, Fields[3]).Ok? <==> |sol.cameraMatrix| >= 2 && |sol.cameraMatrix[1]| >= 3;
    assert ValueOf(sol, Fields[8]).Ok? <==> |sol.distCoeffs| >= 1 && |sol.distCoeffs[0]| >= 5;
  }

  /** The nine statements write nine different keys. */
  lemma FieldsDistinct()
    ensures DistinctKeys(Fields)
  {
  }

  /** The keys the nine statements write and the entries they read. */
  lemma FieldValues(sol: Solution)
    requires Shaped(sol)
    ensures var cm, dc := sol.cameraMatrix, sol.distCoeffs;
      && Fields[0].key == "fx" && ValueOf(sol, Fields[0]) == Ok(cm[0][0])
      && Fields[1].key == "fy" && ValueOf(sol, Fields[1]) == Ok(cm[1][1])
      && Fields[2].key == "cx" && ValueOf(sol, Fields[2]) == Ok(cm[0][2])
      && Fields[3].key == "cy" && ValueOf(sol, Fields[3]) == Ok(cm[1][2])
      && Fields[4].key == "k1" && ValueOf(sol, Fields[4]) == Ok(dc[0][0])
      && Fields[5].key == "k2" && ValueOf(sol, Fields[5]) == Ok(dc[0][1])
      && Fields[6].key == "p1" && ValueOf(sol, Fields[6]) == Ok(dc[0][2])
      && Fields[7].key == "p2" && ValueOf(sol, Fields[7]) == Ok(dc[0][3])
      && Fields[8].key == "k3" && ValueOf(sol, Fields[8]) == Ok(dc[0][4])
  {
  }

  /** The calibration write-back succeeds exactly when `params["intrinsics"]` is a dict and
      the solver output has every entry the statements read; otherwise it raises. */
  lemma WriteBackSucceeds(params: Node, sol: Solution)
    ensures WriteBack(params, sol, Fields).Ok? <==> Block(params).Some? && Shaped(sol)
    ensures WriteBack(params, sol, Fields).Stop? ==> WriteBack(params, sol, Fields).halt.Raise?
  {
    ShapedIffReadable(sol);
  }

  /** A successful calibration write-back stores fx, fy, cx, cy from camera-matrix entries
      (0,0), (1,1), (0,2), (1,2) and k1, k2, p1, p2, k3 from distortion entries (0,0) to
      (0,4); it changes nothing outside the intrinsics block, keeps every other key of the
      block and the order of the keys already present, and appends the missing ones. */
  lemma StoreIntrinsics(params: Node, sol: Solution)
    requires Block(params).Some? && Shaped(sol)
    ensures WriteBack(params, sol, Fields).Ok?
    ensures
      var out := WriteBack(params, sol, Fields).value;
      var before, after := Block(params).value, Block(out).value;
      var cm, dc := sol.cameraMatrix, sol.distCoeffs;
      && SameOutsideIntrinsics(params.entries, out.entries)
      && Lookup(after, "fx") == Some(Real(cm[0][0]))
      && Lookup(after, "fy") == Some(Real(cm[1][1]))
      && Lookup(after, "cx") == Some(Real(cm[0][2]))
      && Lookup(after, "cy") == Some(Real(cm[1][2]))
      && Lookup(after, "k1") == Some(Real(dc[0][0]))
      && Lookup(after, "k2") == Some(Real(dc[0][1]))
      && Lookup(after, "p1") == Some(Real(dc[0][2]))
      && Lookup(after, "p2") == Some(Real(dc[0][3]))
      && Lookup(after, "k3") == Some(Real(dc[0][4]))
      && (forall k :: k !in KeysOf(Fields) ==> Lookup(after, k) == Lookup(before, k))
      && Keys(after) == Keys(before) + Missing(Keys(before), KeysOf(Fields))
  {
    WriteBackSucceeds(params, sol);
    ShapedIffReadable(sol);
    FieldsDistinct();
    FieldValues(sol);
    WriteBackFills(params, sol, Fields);
    var before := Block(params).value;
    FillKeyOrder(before, sol, Fields);
    forall k | k !in KeysOf(Fields)
      ensures Lookup(Fill(before, sol, Fields), k) == Lookup(before, k)
    {
      FillKeepsOthers(before, sol, Fields, k);
    }
    FillStores(before, sol, Fields, 0);
    FillStores(before, sol, Fields, 1);
    FillStores(before, sol, Fields, 2);
    FillStores(before, sol, Fields, 3);
    FillStores(before, sol, Fields, 4);
    FillStores(before, sol, Fields, 5);
    FillStores(before, sol, Fields, 6);
    FillStores(before, sol, Fields, 7);
    FillStores(before, sol, Fields, 8);
  }
}
