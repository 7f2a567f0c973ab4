/** The AprilTag side: loading the configuration, opening the camera and building the tag
    detector from seven configured parameters, and grabbing one grey-scale image. */
module AprilTagLocator {
  import opened Outcome
  import opened Document

  /** `load_config(path)` (lines 7-20) on the document `yaml.safe_load` returned for `path`:
      None for a path without a config suffix or a document that parsed to None. */
  function LoadConfig(path: string, doc: Node): (r: Option<Node>)
    ensures r.Some? <==> HasConfigSuffix(path) && !doc.Null?
    ensures r.Some? ==> r.value == doc
  {
    if !HasConfigSuffix(path) then None
    else if doc.Null? then None
    else Some(doc)
  }

  /** The keys `init_capture_apriltags` reads, in the order it reads them (lines 32-38). */
  const DetectorKeys: seq<string> :=
    ["family", "nthreads", "quad_decimate", "quad_sigma", "refine_edges", "decode_sharpening", "debug"]

  /** `[params[k] for k in keys]`, evaluated left to right: the first failing lookup raises. */
  function ParamValues(params: Node, keys: seq<string>): (r: Result<seq<Node>>)
    ensures r.Ok? <==> |keys| == 0 || (params.Mapping? && forall i :: 0 <= i < |keys| ==> keys[i] in Keys(params.entries))
    ensures r.Ok? ==> |r.value| == |keys|
    ensures r.Ok? && params.Mapping? ==>
      forall i :: 0 <= i < |keys| ==> Lookup(params.entries, keys[i]) == Some(r.value[i])
    ensures r.Stop? && !params.Mapping? ==> r == Stop(Raise(TypeError))
    ensures r.Stop? && params.Mapping? ==> r.halt.Raise? && r.halt.error.KeyError?
    decreases |keys|
  {
    if |keys| == 0 then Ok([])
    else
      AllKeysStep(if params.Mapping? then params.entries else [], keys);
      FoundIffKey(if params.Mapping? then params.entries else [], keys[0]);
      var v :- Index(params, keys[0]);
      var vs :- ParamValues(params, keys[1..]);
      assert forall i :: 1 <= i < |keys| ==> keys[i] == keys[1..][i - 1];
      Ok([v] + vs)
  }

  /** All keys are present exactly when the first one is and all the others are. */
  lemma AllKeysStep(entries: seq<Entry>, keys: seq<string>)
    requires |keys| > 0
    ensures (forall i :: 0 <= i < |keys| ==> keys[i] in Keys(entries))
        <==> keys[0] in Keys(entries) && forall i :: 0 <= i < |keys[1..]| ==> keys[1..][i] in Keys(entries)
  {
    assert forall i :: 1 <= i < |keys| ==> keys[i] == keys[1..][i - 1];
  }

  /** The KeyError names the first key, in reading order, that the mapping lacks. */
  lemma {:induction false} FirstMissingKey(params: Node, keys: seq<string>)
    requires params.Mapping? && ParamValues(params, keys).Stop?
    ensures exists i ::
              && 0 <= i < |keys|
              && ParamValues(params, keys) == Stop(Raise(KeyError(keys[i])))
              && keys[i] !in Keys(params.entries)
              && forall j :: 0 <= j < i ==> keys[j] in Keys(params.entries)
    decreases |keys|
  {
    if keys[0] !in Keys(params.entries) {
      assert Index(params, keys[0]) == Stop(Raise(KeyError(keys[0])));
    } else {
      FirstMissingKey(params, keys[1..]);
      var i :| 0 <= i < |keys[1..]| && ParamValues(params, keys[1..]) == Stop(Raise(KeyError(keys[1..][i])))
        && keys[1..][i] !in Keys(params.entries)
        && forall j :: 0 <= j < i ==> keys[1..][j] in Keys(params.entries);
      assert keys[i + 1] == keys[1..][i];
      assert forall j :: 1 <= j < i + 1 ==> keys[j] == keys[1..][j - 1];
    }
  }

  /** The seven detector arguments, each as the configuration gives it. */
  datatype DetectorArgs = DetectorArgs(
    families: Node, nthreads: Node, quadDecimate: Node, quadSigma: Node,
    refineEdges: Node, decodeSharpening: Node, debug: Node)

  /** The video capture device, and whether `isOpened()` reports it open. */
  datatype Camera = Camera(device: nat, isOpen: bool)

  /** What `init_capture_apriltags` returns: `[cap, detector]`. */
  datatype Session<D> = Session(camera: Camera, detector: D)

  /** The configuration handed to the parameter lookups: `load_config`'s None is Python
      None, which every lookup refuses. */
  function ConfigFor(confPath: string, doc: Node): Node {
    match LoadConfig(confPath, doc)
    case None => Null
    case Some(params) => params
  }

  /** The detector arguments, positionally, from the seven looked-up values. */
  function ArgsOf(vs: seq<Node>): DetectorArgs
    requires |vs| == 7
  {
    DetectorArgs(vs[0], vs[1], vs[2], vs[3], vs[4], vs[5], vs[6])
  }

  /** `init_capture_apriltags(confPath)` (lines 22-59): the camera check first (`exit(1)`),
      then the configuration and the seven lookups, `exit(2)` when any looked-up value is
      None, `exit(3)` when no detector was built; `build` stands for the `Detector`
      constructor. */
  function InitCaptureAprilTags<D>(cap: Camera, confPath: string, doc: Node,
                                   build: DetectorArgs -> Option<D>): (r: Result<Session<D>>)
    ensures !cap.isOpen ==> r == Stop(Exit(1))
    ensures r.Ok? ==> r.value.camera == cap
    ensures r.Stop? ==> r.halt in {Exit(1), Exit(2), Exit(3)} || r.halt.Raise?
  {
    if !cap.isOpen then Stop(Exit(1))
    else
      var params := ConfigFor(confPath, doc);
      var vs :- ParamValues(params, DetectorKeys);
      if Null in vs then Stop(Exit(2))
      else match build(ArgsOf(vs))
        case None => Stop(Exit(3))
        case Some(detector) => Ok(Session(cap, detector))
  }

  /** A configuration that holds all seven detector keys. */
  predicate Complete(params: Node) {
    params.Mapping? && forall i :: 0 <= i < |DetectorKeys| ==> DetectorKeys[i] in Keys(params.entries)
  }

  /** `param_list`: the detector arguments in the order the keys are read. */
  function ArgList(a: DetectorArgs): seq<Node> {
    [a.families, a.nthreads, a.quadDecimate, a.quadSigma, a.refineEdges, a.decodeSharpening, a.debug]
  }

  /** The detector arguments a complete configuration gives, key by key. */
  function Configured(params: Node): (a: DetectorArgs)
    requires Complete(params)
    ensures forall i :: 0 <= i < |DetectorKeys| ==> Lookup(params.entries, DetectorKeys[i]) == Some(ArgList(a)[i])
  {
    assert ParamValues(params, DetectorKeys).Ok?;
    var vs := ParamValues(params, DetectorKeys).value;
    ArgsRoundTrip(vs);
    ArgsOf(vs)
  }

  /** Keyword arguments and the positional list carry the same values in the same order. */
  lemma ArgsRoundTrip(vs: seq<Node>)
    requires |vs| == 7
    ensures ArgList(ArgsOf(vs)) == vs
  {
  }

  /** Some detector argument is None (`param_list.count(None) != 0`). */
  predicate HasNull(a: DetectorArgs) {
    Null in ArgList(a)
  }

  /** With the camera open: a path `load_config` refuses leaves None, whose lookups raise
      TypeError; a missing key raises KeyError for the first missing one; a None value
      exits with 2 whatever the constructor would do; otherwise the constructor gets the
      configured values and its answer decides between `exit(3)` and the session. */
  lemma InitOutcome<D>(cap: Camera, confPath: string, doc: Node, build: DetectorArgs -> Option<D>)
    requires cap.isOpen
    ensures var r := InitCaptureAprilTags(cap, confPath, doc, build);
      && (LoadConfig(confPath, doc).None? ==> r == Stop(Raise(TypeError)))
      && (LoadConfig(confPath, doc).Some? && !doc.Mapping? ==> r == Stop(Raise(TypeError)))
      && (LoadConfig(confPath, doc).Some? && doc.Mapping? && !Complete(doc) ==>
            exists i :: 0 <= i < |DetectorKeys| && r == Stop(Raise(KeyError(DetectorKeys[i])))
              && DetectorKeys[i] !in Keys(doc.entries)
              && forall j :: 0 <= j < i ==> DetectorKeys[j] in Keys(doc.entries))
      && (LoadConfig(confPath, doc).Some? && Complete(doc) && HasNull(Configured(doc)) ==>
            r == Stop(Exit(2)))
      && (LoadConfig(confPath, doc).Some? && Complete(doc) && !HasNull(Configured(doc)) ==>
            r == match build(Configured(doc))
                 case None => Stop(Exit(3))
                 case Some(detector) => Ok(Session(cap, detector)))
  {
    if LoadConfig(confPath, doc).None? {
      assert ConfigFor(confPath, doc) == Null;
    } else {
      assert ConfigFor(confPath, doc) == doc;
      if doc.Mapping? && !Complete(doc) {
        FirstMissingKey(doc, DetectorKeys);
      }
      if Complete(doc) {
        var vs := ParamValues(doc, DetectorKeys).value;
        ArgsRoundTrip(vs);
        assert Configured(doc) == ArgsOf(vs);
      }
    }
  }

  /** What `cap.read()` returns: failure, or a colour frame. */
  datatype Read<F> = ReadFailed | ReadOk(frame: F)

  /** `capture_image(cap)` (lines 61-68); `toGray` stands for the BGR-to-grey conversion. */
  function CaptureImage<F, G>(read: Read<F>, toGray: F -> G): (r: Option<G>)
    ensures r.None? <==> read.ReadFailed?
    ensures r.Some? ==> r.value == toGray(read.frame)
  {
    match read
    case ReadFailed => None
    case ReadOk(frame) => Some(toGray(frame))
  }
}
