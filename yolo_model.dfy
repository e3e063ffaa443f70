/**
 * The detector wrapper of app/models/yolo_model.py: a handle that refuses to
 * predict until its weights are loaded, and the flattening of the detector's
 * per-image results into one list of detections.
 *
 * The weights (the ultralytics YOLO object) are values of an opaque type
 * parameter N, and the detector call `self.model(img_array, conf=...)` is a
 * function parameter.
 */
module YoloModel {
  import opened Wrappers
  import opened ImageProcessing

  /** Corner coordinates of a box, in the pixel space of the image the detector saw. */
  datatype BBox = BBox(x1: real, y1: real, x2: real, y2: real)

  /** One detection as the service reports it. */
  datatype Detection = Detection(classId: int, className: string, confidence: real, bbox: BBox)

  /** One box of a detector result: its class index (already an integer), its confidence and row 0 of its `xyxy` tensor. */
  datatype RawBox = RawBox(cls: int, conf: real, xyxy: BBox)

  /** One detector result: its boxes, absent when the detector gave none, and its class-name table. */
  datatype RawResult = RawResult(boxes: Option<seq<RawBox>>, names: map<int, string>)

  /** Why predict failed: not loaded, the detector itself failed, or a class index has no name (a KeyError). */
  datatype PredictError = ModelNotLoaded | InferenceFailed(message: string) | UnknownClass(classId: int)

  /** The detector: weights, image and confidence threshold to its results, or the message of its exception. */
  type Detector<!N> = (N, Image, real) -> Result<seq<RawResult>, string>

  // ---------------------------------------------------------------------
  // _parse_results, as a specification
  // ---------------------------------------------------------------------

  /** The detection built from one box whose class index has a name. */
  function ToDetection(box: RawBox, names: map<int, string>): Detection
    requires box.cls in names
  {
    Detection(box.cls, names[box.cls], box.conf, box.xyxy)
  }

  /** The detections of one result's boxes, in box order, or the first class index without a name. */
  function ParseBoxes(boxes: seq<RawBox>, names: map<int, string>): Result<seq<Detection>, PredictError>
  {
    if boxes == [] then Success([])
    else
      match ParseBoxes(boxes[..|boxes| - 1], names)
      case Failure(e) => Failure(e)
      case Success(ds) =>
        var box := boxes[|boxes| - 1];
        if box.cls in names then Success(ds + [ToDetection(box, names)]) else Failure(UnknownClass(box.cls))
  }

  /** The detections of one result; a result without boxes gives none. */
  function ParseResult(result: RawResult): Result<seq<Detection>, PredictError> {
    if result.boxes.None? then Success([]) else ParseBoxes(result.boxes.value, result.names)
  }

  /** Two parse outcomes in sequence: the first failure, or both lists joined. */
  function Then(first: Result<seq<Detection>, PredictError>, second: Result<seq<Detection>, PredictError>): Result<seq<Detection>, PredictError> {
    match first
    case Failure(e) => Failure(e)
    case Success(ds) =>
      match second
      case Failure(e) => Failure(e)
      case Success(more) => Success(ds + more)
  }

  /** All results' detections, result after result, or the first failure. */
  function Parse(results: seq<RawResult>): Result<seq<Detection>, PredictError> {
    if results == [] then Success([])
    else Then(Parse(results[..|results| - 1]), ParseResult(results[|results| - 1]))
  }

  /** The number of boxes over the results that have boxes. */
  function BoxCount(results: seq<RawResult>): nat {
    if results == [] then 0
    else
      var last := results[|results| - 1];
      BoxCount(results[..|results| - 1]) + (if last.boxes.None? then 0 else |last.boxes.value|)
  }

  /** Every box of every result with boxes has a name in its result's table. */
  predicate Labelled(results: seq<RawResult>) {
    forall i :: 0 <= i < |results| && results[i].boxes.Some? ==> BoxesLabelled(results[i])
  }

  predicate BoxesLabelled(result: RawResult)
    requires result.boxes.Some?
  {
    forall k :: 0 <= k < |result.boxes.value| ==> result.boxes.value[k].cls in result.names
  }

  /**
   * One result's boxes parse exactly when every class index has a name; then
   * detection k is box k with its name looked up, and otherwise the error
   * names the first box's class index that has none.
   */
  lemma {:induction false} ParseBoxesAt(boxes: seq<RawBox>, names: map<int, string>)
    ensures ParseBoxes(boxes, names).Success? <==> forall k :: 0 <= k < |boxes| ==> boxes[k].cls in names
    ensures ParseBoxes(boxes, names).Success? ==>
      var ds := ParseBoxes(boxes, names).value;
      |ds| == |boxes| && forall k :: 0 <= k < |boxes| ==> ds[k] == ToDetection(boxes[k], names)
    ensures ParseBoxes(boxes, names).Failure? ==>
      exists j :: 0 <= j < |boxes| && boxes[j].cls !in names &&
        (forall k :: 0 <= k < j ==> boxes[k].cls in names) &&
        ParseBoxes(boxes, names).error == UnknownClass(boxes[j].cls)
  {
    if boxes != [] {
      var init := boxes[..|boxes| - 1];
      ParseBoxesAt(init, names);
      assert forall k :: 0 <= k < |init| ==> init[k] == boxes[k];
    }
  }

  /** Once a prefix of the boxes fails, the whole list fails the same way. */
  lemma {:induction false} ParseBoxesFailureSticks(boxes: seq<RawBox>, names: map<int, string>, n: nat)
    requires n <= |boxes|
    requires ParseBoxes(boxes[..n], names).Failure?
    ensures ParseBoxes(boxes, names) == ParseBoxes(boxes[..n], names)
    decreases |boxes| - n
  {
    if n < |boxes| {
      assert boxes[..n + 1][..n] == boxes[..n];
      ParseBoxesFailureSticks(boxes, names, n + 1);
    } else {
      assert boxes[..n] == boxes;
    }
  }

  lemma ThenAssociative(a: Result<seq<Detection>, PredictError>, b: Result<seq<Detection>, PredictError>, c: Result<seq<Detection>, PredictError>)
    ensures Then(Then(a, b), c) == Then(a, Then(b, c))
  {
    if a.Success? && b.Success? && c.Success? {
      assert (a.value + b.value) + c.value == a.value + (b.value + c.value);
    }
  }

  /**
   * Parsing keeps the outer order: the results of `front + back` give the
   * detections of `front` followed by those of `back`.
   */
  lemma {:induction false} ParseAppend(front: seq<RawResult>, back: seq<RawResult>)
    ensures Parse(front + back) == Then(Parse(front), Parse(back))
  {
    if back == [] {
      assert front + back == front;
      match Parse(front)
      case Failure(_) =>
      case Success(ds) => assert ds + [] == ds;
    } else {
      var init := back[..|back| - 1];
      assert (front + back)[..|front + back| - 1] == front + init;
      assert (front + back)[|front + back| - 1] == back[|back| - 1];
      ParseAppend(front, init);
      ThenAssociative(Parse(front), Parse(init), ParseResult(back[|back| - 1]));
    }
  }

  /** A single result parses to its own boxes' detections. */
  lemma ParseSingle(result: RawResult)
    ensures Parse([result]) == ParseResult(result)
  {
    assert [result][..0] == [];
    match ParseResult(result)
    case Failure(_) =>
    case Success(ds) => assert [] + ds == ds;
  }

  /** A result whose boxes are absent contributes nothing, wherever it stands. */
  lemma ParseSkipsMissingBoxes(front: seq<RawResult>, result: RawResult, back: seq<RawResult>)
    requires result.boxes.None?
    ensures Parse(front + [result] + back) == Parse(front + back)
  {
    ParseAppend(front + [result], back);
    ParseAppend(front, [result]);
    ParseSingle(result);
    ParseAppend(front, back);
    match Parse(front)
    case Failure(_) =>
    case Success(ds) => assert ds + [] == ds;
  }

  /** Parsing fails only on a class index without a name. */
  lemma {:induction false} ParseErrorIsUnknownClass(results: seq<RawResult>)
    ensures Parse(results).Failure? ==> Parse(results).error.UnknownClass?
  {
    if results != [] {
      ParseErrorIsUnknownClass(results[..|results| - 1]);
      var last := results[|results| - 1];
      if last.boxes.Some? {
        ParseBoxesAt(last.boxes.value, last.names);
      }
    }
  }

  /** Parsing succeeds exactly when every box present has a class name, and then yields one detection per box present. */
  lemma {:induction false} ParseLength(results: seq<RawResult>)
    ensures Parse(results).Success? <==> Labelled(results)
    ensures Parse(results).Success? ==> |Parse(results).value| == BoxCount(results)
  {
    if results != [] {
      var init := results[..|results| - 1];
      var last := results[|results| - 1];
      ParseLength(init);
      if last.boxes.Some? {
        ParseBoxesAt(last.boxes.value, last.names);
      }
      assert forall i :: 0 <= i < |init| ==> init[i] == results[i];
      if !Labelled(init) {
        var i :| 0 <= i < |init| && init[i].boxes.Some? && !BoxesLabelled(init[i]);
        assert results[i] == init[i];
      }
    }
  }

  // ---------------------------------------------------------------------
  // predict, as a specification
  // ---------------------------------------------------------------------

  /**
   * What predict returns for a handle in the given state: refused while not
   * loaded, before the detector is asked; otherwise the detector's failure
   * or its parsed results.
   */
  function Inference<N>(loaded: bool, model: Option<N>, threshold: real, image: Image, detector: Detector<N>): Result<seq<Detection>, PredictError>
    requires loaded ==> model.Some?
  {
    if !loaded then Failure(ModelNotLoaded)
    else
      match detector(model.value, image, threshold)
      case Failure(message) => Failure(InferenceFailed(message))
      case Success(raw) => Parse(raw)
  }

  /** predict reports "Model not loaded" exactly when the weights are not loaded. */
  lemma InferenceRefusedUntilLoaded<N>(loaded: bool, model: Option<N>, threshold: real, image: Image, detector: Detector<N>)
    requires loaded ==> model.Some?
    ensures Inference(loaded, model, threshold, image, detector) == Failure(ModelNotLoaded) <==> !loaded
  {
    if loaded && detector(model.value, image, threshold).Success? {
      ParseErrorIsUnknownClass(detector(model.value, image, threshold).value);
    }
  }

  /** On success, predict's detections are the detector's boxes, one per box present, with the class names looked up. */
  lemma InferenceSuccess<N>(loaded: bool, model: Option<N>, threshold: real, image: Image, detector: Detector<N>)
    requires loaded ==> model.Some?
    requires Inference(loaded, model, threshold, image, detector).Success?
    ensures loaded && detector(model.value, image, threshold).Success?
    ensures var raw := detector(model.value, image, threshold).value;
      Labelled(raw) && Inference(loaded, model, threshold, image, detector).value == Parse(raw).value &&
      |Parse(raw).value| == BoxCount(raw)
  {
    ParseLength(detector(model.value, image, threshold).value);
  }

  // ---------------------------------------------------------------------
  // class YOLOModel
  // ---------------------------------------------------------------------

  /** The detector handle: its configuration and its load state. */
  class YOLOModel<N> {
    const modelPath: string
    const confidenceThreshold: real
    var model: Option<N>
    var isLoaded: bool

    /** A handle is loaded only when it holds weights. */
    ghost predicate Valid()
      reads this
    {
      isLoaded ==> model.Some?
    }

    /** A fresh handle keeps its path and threshold and holds no weights. */
    constructor (modelPath: string, confidenceThreshold: real)
      ensures Valid()
      ensures this.modelPath == modelPath && this.confidenceThreshold == confidenceThreshold
      ensures model == None && !isLoaded
    {
      this.modelPath := modelPath;
      this.confidenceThreshold := confidenceThreshold;
      model := None;
      isLoaded := false;
    }

    /**
     * load_model: build the weights from the path; on success store them and
     * then mark the handle loaded; on failure report the error and change
     * nothing (the assignments are never reached).
     */
    method LoadModel(construct: string -> Result<N, string>) returns (outcome: Outcome<string>)
      requires Valid()
      modifies this
      ensures Valid()
      ensures construct(modelPath).Success? ==>
        outcome == Pass && model == Some(construct(modelPath).value) && isLoaded
      ensures construct(modelPath).Failure? ==>
        outcome == Fail(construct(modelPath).error) && model == old(model) && isLoaded == old(isLoaded)
    {
      var built := construct(modelPath);
      if built.Failure? {
        return Fail(built.error);
      }
      model := Some(built.value);
      isLoaded := true;
      outcome := Pass;
    }

    /** predict: refuse while not loaded, otherwise run the detector with the threshold and parse its results. */
    method Predict(image: Image, detector: Detector<N>) returns (r: Result<seq<Detection>, PredictError>)
      requires Valid()
      ensures r == Inference(isLoaded, model, confidenceThreshold, image, detector)
    {
      if !isLoaded {
        return Failure(ModelNotLoaded);
      }
      var results := detector(model.value, image, confidenceThreshold);
      if results.Failure? {
        return Failure(InferenceFailed(results.error));
      }
      r := ParseResults(results.value);
    }

    /** _parse_results: the nested loop that appends one detection per box, skipping results without boxes. */
    static method ParseResults(results: seq<RawResult>) returns (r: Result<seq<Detection>, PredictError>)
      ensures r == Parse(results)
    {
      var detections: seq<Detection> := [];
      var i := 0;
      while i < |results|
        invariant 0 <= i <= |results|
        invariant Parse(results[..i]) == Success(detections)
      {
        var result := results[i];
        assert results[..i + 1][..i] == results[..i];
        ghost var before := detections;
        if result.boxes.Some? {
          var boxes := result.boxes.value;
          var j := 0;
          assert boxes[..0] == [] && detections[|before|..] == [];
          while j < |boxes|
            invariant 0 <= j <= |boxes|
            invariant |before| <= |detections| && detections[..|before|] == before
            invariant ParseBoxes(boxes[..j], result.names) == Success(detections[|before|..])
          {
            var box := boxes[j];
            assert boxes[..j + 1][..j] == boxes[..j];
            if box.cls !in result.names {
              ParseBoxesFailureSticks(boxes, result.names, j + 1);
              assert boxes[..|boxes|] == boxes;
              ParseFailureSticks(results, i + 1);
              return Failure(UnknownClass(box.cls));
            }
            var detection := ToDetection(box, result.names);
            assert (detections + [detection])[|before|..] == detections[|before|..] + [detection];
            detections := detections + [detection];
            j := j + 1;
          }
          assert boxes[..j] == boxes;
        }
        assert detections == before + detections[|before|..];
        i := i + 1;
      }
      assert results[..i] == results;
      return Success(detections);
    }
  }

  /** Once a prefix of the results fails, all of them fail the same way. */
  lemma ParseFailureSticks(results: seq<RawResult>, n: nat)
    requires n <= |results|
    requires Parse(results[..n]).Failure?
    ensures Parse(results) == Parse(results[..n])
  {
    assert results == results[..n] + results[n..];
    ParseAppend(results[..n], results[n..]);
  }
}
