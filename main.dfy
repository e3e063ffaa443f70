/**
 * The /predict request of app/main.py: read the upload, pre-check it, decode,
 * normalise, predict, and map the boxes back to the original image, with the
 * source's mapping of failures to HTTP status codes.
 *
 * Reading the upload and decoding the bytes (PIL's open, verify and reopen)
 * are parameters: their outcome is given, not computed.
 */
module Main {
  import opened Wrappers
  import opened ImageProcessing
  import opened YoloModel

  newtype byte = x: int | 0 <= x < 256

  /** Default weights path and confidence threshold of the service. */
  const ModelPath: string := "models/yolov8n.pt"
  const ConfidenceThreshold: real := 0.5

  /** The upload's declared metadata. */
  datatype Upload = Upload(filename: Option<string>, contentType: Option<string>)

  /** Bytes to a decoded image, or the message of the decoder's exception. */
  type Decoder = seq<byte> -> Result<Image, string>

  /** Why the image-processing block failed. */
  datatype Cause =
    | DecodeFailed(message: string)
    | ProcessFailed(message: string)
    | DivisionByZero
    | PredictFailed(error: PredictError)

  /** The response: the predictions, or an HTTP error with its detail. */
  datatype Response =
    | Predictions(filename: string, predictions: seq<Detection>, totalObjects: nat)
    | HttpError(status: nat, detail: string)

  /** Multipliers from processed-image coordinates to original-image coordinates. */
  datatype Scale = Scale(x: real, y: real)

  const InvalidImageFile: string := "Invalid image file"
  const NoImageData: string := "No image data received"

  // ---------------------------------------------------------------------
  // Messages
  // ---------------------------------------------------------------------

  function DigitChar(d: nat): char
    requires d < 10
  {
    "0123456789"[d]
  }

  /** Decimal digits of a natural number, as `str` writes them. */
  function NatToString(n: nat): string
    decreases n
  {
    if n < 10 then [DigitChar(n)] else NatToString(n / 10) + [DigitChar(n % 10)]
  }

  /** `str` of an integer. */
  function IntToString(i: int): string {
    if i < 0 then "-" + NatToString(-i) else NatToString(i)
  }

  /** `str` of the exception behind a processing failure. */
  function CauseText(cause: Cause): string {
    match cause
    case DecodeFailed(message) => message
    case ProcessFailed(message) => message
    case DivisionByZero => "division by zero"
    case PredictFailed(ModelNotLoaded) => "Model not loaded"
    case PredictFailed(InferenceFailed(message)) => message
    case PredictFailed(UnknownClass(classId)) => IntToString(classId)
  }

  /** The detail of the 400 reply for a failure inside the image-processing block. */
  function ProcessingDetail(cause: Cause): string {
    "Failed to process image: " + CauseText(cause) + ". Please ensure the file is a valid image format (JPEG, PNG, etc.)"
  }

  /** The detail of the 500 reply. */
  function PredictionFailedDetail(message: string): string {
    "Prediction failed: " + message
  }

  // ---------------------------------------------------------------------
  // Scale factors and box rescaling
  // ---------------------------------------------------------------------

  /** original / processed per axis; a processed side of 0 is a division by zero. */
  function ScaleFactors(original: Image, processed: Image): Result<Scale, Cause> {
    if processed.width == 0 || processed.height == 0 then Failure(DivisionByZero)
    else Success(Scale(original.width as real / processed.width as real,
                       original.height as real / processed.height as real))
  }

  function ScaleBox(b: BBox, scale: Scale): BBox {
    BBox(b.x1 * scale.x, b.y1 * scale.y, b.x2 * scale.x, b.y2 * scale.y)
  }

  function Rescaled(d: Detection, scale: Scale): Detection {
    d.(bbox := ScaleBox(d.bbox, scale))
  }

  /** Every detection with its box multiplied by the factors. */
  function RescaleAll(ds: seq<Detection>, scale: Scale): seq<Detection> {
    seq(|ds|, k requires 0 <= k < |ds| => Rescaled(ds[k], scale))
  }

  /** Every detection with its box divided by the factors: the inverse of RescaleAll. */
  function UnscaleAll(ds: seq<Detection>, scale: Scale): seq<Detection>
    requires scale.x != 0.0 && scale.y != 0.0
  {
    seq(|ds|, k requires 0 <= k < |ds| =>
      var b := ds[k].bbox;
      ds[k].(bbox := BBox(b.x1 / scale.x, b.y1 / scale.y, b.x2 / scale.x, b.y2 / scale.y)))
  }

  lemma QuotientAtLeastOne(a: real, b: real)
    requires 0.0 < b <= a
    ensures a / b >= 1.0
  {
    var q := a / b;
    assert (q - 1.0) * b == a - b;
  }

  lemma ProductBetween(c: real, d: real, s: real)
    requires 0.0 <= c <= d && 0.0 <= s
    ensures 0.0 <= c * s <= d * s
  {
    assert (d - c) * s >= 0.0;
  }

  /** The factors multiplied by the processed sides give back the original sides. */
  lemma ScaleFactorsInvert(original: Image, processed: Image)
    requires ScaleFactors(original, processed).Success?
    ensures var s := ScaleFactors(original, processed).value;
      s.x * processed.width as real == original.width as real &&
      s.y * processed.height as real == original.height as real
  {
  }

  /** The factors are 1 when process_image did not resize. */
  lemma ScaleFactorsUnresized(image: Image)
    requires !Oversized(image) && image.width > 0 && image.height > 0
    ensures ProcessImage(image).Success?
    ensures ScaleFactors(image, ProcessImage(image).value) == Success(Scale(1.0, 1.0))
  {
    ProcessImageKeepsSmall(image);
    var w, h := image.width as real, image.height as real;
    assert w / w == 1.0 && h / h == 1.0;
  }

  /**
   * Once process_image has succeeded, the factors fail exactly when the
   * decoded image itself has a side of 0 (a resize to a side of 0 having
   * been refused already), and otherwise are at least 1: coordinates only
   * grow back.
   */
  lemma ScaleFactorsOfProcessed(image: Image)
    ensures ProcessImage(image).Success? ==>
      (ScaleFactors(image, ProcessImage(image).value).Failure? <==> image.width == 0 || image.height == 0)
    ensures ProcessImage(image).Success? && ScaleFactors(image, ProcessImage(image).value).Success? ==>
      ScaleFactors(image, ProcessImage(image).value).value.x >= 1.0 &&
      ScaleFactors(image, ProcessImage(image).value).value.y >= 1.0
  {
    if ProcessImage(image).Success? {
      ProcessImageBounds(image);
      var p := ProcessImage(image).value;
      if !Oversized(image) {
        ProcessImageKeepsSmall(image);
      }
      if p.width > 0 && p.height > 0 {
        QuotientAtLeastOne(image.width as real, p.width as real);
        QuotientAtLeastOne(image.height as real, p.height as real);
      }
    }
  }

  /** The rescale keeps length and order and changes only the box coordinates, each by its axis factor. */
  lemma RescalePreserves(ds: seq<Detection>, scale: Scale)
    ensures |RescaleAll(ds, scale)| == |ds|
    ensures forall k :: 0 <= k < |ds| ==>
      var r, d := RescaleAll(ds, scale)[k], ds[k];
      && r.classId == d.classId && r.className == d.className && r.confidence == d.confidence
      && r.bbox.x1 == d.bbox.x1 * scale.x && r.bbox.x2 == d.bbox.x2 * scale.x
      && r.bbox.y1 == d.bbox.y1 * scale.y && r.bbox.y2 == d.bbox.y2 * scale.y
  {
  }

  /** Dividing each rescaled coordinate by its factor gives back the detections. */
  lemma RescaleRoundTrip(ds: seq<Detection>, scale: Scale)
    requires scale.x != 0.0 && scale.y != 0.0
    ensures UnscaleAll(RescaleAll(ds, scale), scale) == ds
  {
    var back := UnscaleAll(RescaleAll(ds, scale), scale);
    forall k | 0 <= k < |ds|
      ensures back[k] == ds[k]
    {
      var b := ds[k].bbox;
      assert (b.x1 * scale.x) / scale.x == b.x1;
      assert (b.y1 * scale.y) / scale.y == b.y1;
      assert (b.x2 * scale.x) / scale.x == b.x2;
      assert (b.y2 * scale.y) / scale.y == b.y2;
    }
  }

  /** With factors of 1 the rescale changes nothing. */
  lemma RescaleIdentity(ds: seq<Detection>)
    ensures RescaleAll(ds, Scale(1.0, 1.0)) == ds
  {
    var r := RescaleAll(ds, Scale(1.0, 1.0));
    forall k | 0 <= k < |ds|
      ensures r[k] == ds[k]
    {
      var b := ds[k].bbox;
      assert ScaleBox(b, Scale(1.0, 1.0)) == b;
    }
  }

  /** A coordinate inside the processed image lands inside the original image. */
  lemma RescaleWithinOriginal(original: Image, processed: Image, c: real)
    requires ScaleFactors(original, processed).Success?
    ensures 0.0 <= c <= processed.width as real ==>
      0.0 <= c * ScaleFactors(original, processed).value.x <= original.width as real
    ensures 0.0 <= c <= processed.height as real ==>
      0.0 <= c * ScaleFactors(original, processed).value.y <= original.height as real
  {
    var s := ScaleFactors(original, processed).value;
    ScaleFactorsInvert(original, processed);
    assert s.x >= 0.0 && s.y >= 0.0;
    if 0.0 <= c <= processed.width as real {
      ProductBetween(c, processed.width as real, s.x);
    }
    if 0.0 <= c <= processed.height as real {
      ProductBetween(c, processed.height as real, s.y);
    }
  }

  /** Two boxes at factor 2 double every coordinate, in order. */
  lemma RescaleExample()
    ensures RescaleAll([Detection(0, "person", 0.9, BBox(10.0, 10.0, 100.0, 100.0)),
                        Detection(2, "car", 0.8, BBox(200.0, 200.0, 300.0, 400.0))], Scale(2.0, 2.0))
         == [Detection(0, "person", 0.9, BBox(20.0, 20.0, 200.0, 200.0)),
             Detection(2, "car", 0.8, BBox(400.0, 400.0, 600.0, 800.0))]
  {
  }

  /** The rescale loop of predict_objects, applied in place to the prediction list. */
  method Rescale(preds: array<Detection>, scale: Scale)
    modifies preds
    ensures preds[..] == RescaleAll(old(preds[..]), scale)
  {
    var i := 0;
    while i < preds.Length
      invariant 0 <= i <= preds.Length
      invariant forall k :: 0 <= k < i ==> preds[k] == Rescaled(old(preds[k]), scale)
      invariant forall k :: i <= k < preds.Length ==> preds[k] == old(preds[k])
    {
      var b := preds[i].bbox;
      preds[i] := preds[i].(bbox := BBox(b.x1 * scale.x, b.y1 * scale.y, b.x2 * scale.x, b.y2 * scale.y));
      i := i + 1;
    }
  }

  // ---------------------------------------------------------------------
  // predict_objects, as a specification
  // ---------------------------------------------------------------------

  /** The inner block: decode, process, scale factors, predict, rescale; its first failure. */
  function Process<N>(bytes: seq<byte>, decode: Decoder, loaded: bool, model: Option<N>, threshold: real,
                      detector: Detector<N>): Result<seq<Detection>, Cause>
    requires loaded ==> model.Some?
  {
    match decode(bytes)
    case Failure(message) => Failure(DecodeFailed(message))
    case Success(image) =>
      match ProcessImage(image)
      case Failure(message) => Failure(ProcessFailed(message))
      case Success(processed) =>
        match ScaleFactors(image, processed)
        case Failure(cause) => Failure(cause)
        case Success(scale) =>
          match Inference(loaded, model, threshold, processed, detector)
          case Failure(e) => Failure(PredictFailed(e))
          case Success(ds) => Success(RescaleAll(ds, scale))
  }

  /**
   * The reply to one upload: a failed read (or rewind) is a 500; then the
   * pre-check, then the empty-payload check, each a 400; then any failure of
   * the inner block is a 400 naming its cause.
   */
  function Respond<N>(upload: Upload, read: Result<seq<byte>, string>, decode: Decoder,
                      loaded: bool, model: Option<N>, threshold: real, detector: Detector<N>): Response
    requires loaded ==> model.Some?
  {
    match read
    case Failure(message) => HttpError(500, PredictionFailedDetail(message))
    case Success(bytes) =>
      if !ValidateImage(upload.filename, upload.contentType) then HttpError(400, InvalidImageFile)
      else if |bytes| == 0 then HttpError(400, NoImageData)
      else
        match Process(bytes, decode, loaded, model, threshold, detector)
        case Failure(cause) => HttpError(400, ProcessingDetail(cause))
        case Success(ds) => Predictions(upload.filename.value, ds, |ds|)
  }

  /** Only a failure to read or rewind the upload is a server error; every other failure is a 400. */
  lemma RespondStatus<N>(upload: Upload, read: Result<seq<byte>, string>, decode: Decoder,
                         loaded: bool, model: Option<N>, threshold: real, detector: Detector<N>)
    requires loaded ==> model.Some?
    ensures var resp := Respond(upload, read, decode, loaded, model, threshold, detector);
      (resp.HttpError? && resp.status == 500 <==> read.Failure?) &&
      (resp.HttpError? ==> resp.status == 400 || resp.status == 500)
  {
  }

  /** A refused upload gets "Invalid image file" before the payload is looked at, empty or not. */
  lemma RespondInvalidFirst<N>(upload: Upload, bytes: seq<byte>, decode: Decoder,
                               loaded: bool, model: Option<N>, threshold: real, detector: Detector<N>)
    requires loaded ==> model.Some?
    requires !ValidateImage(upload.filename, upload.contentType)
    ensures Respond(upload, Success(bytes), decode, loaded, model, threshold, detector) == HttpError(400, InvalidImageFile)
  {
  }

  /** An accepted upload with no bytes gets "No image data received", whatever the decoder and the detector would do. */
  lemma RespondEmptyPayload<N>(upload: Upload, decode: Decoder, loaded: bool, model: Option<N>, threshold: real,
                              detector: Detector<N>, decode': Decoder, detector': Detector<N>)
    requires loaded ==> model.Some?
    requires ValidateImage(upload.filename, upload.contentType)
    ensures Respond(upload, Success([]), decode, loaded, model, threshold, detector) == HttpError(400, NoImageData)
    ensures Respond(upload, Success([]), decode, loaded, model, threshold, detector) ==
            Respond(upload, Success([]), decode', loaded, model, threshold, detector')
  {
  }

  /**
   * An image whose resize would have a side of 0 is refused by the resize
   * inside the block, and the detector is not asked.
   */
  lemma RespondResizeRefused<N>(upload: Upload, bytes: seq<byte>, decode: Decoder,
                                loaded: bool, model: Option<N>, threshold: real, detector: Detector<N>)
    requires loaded ==> model.Some?
    requires ValidateImage(upload.filename, upload.contentType) && |bytes| > 0
    requires decode(bytes).Success? && ProcessImage(decode(bytes).value).Failure?
    ensures Respond(upload, Success(bytes), decode, loaded, model, threshold, detector) ==
            HttpError(400, ProcessingDetail(ProcessFailed(ResizeRefusal)))
  {
    ProcessImageRefusal(decode(bytes).value);
  }

  /**
   * A decoded image with a side of 0 fails inside the block, and the detector
   * is not asked: when oversized its resize is refused; otherwise it is kept
   * as it is and the scale factors divide by zero.
   */
  lemma RespondZeroDimension<N>(upload: Upload, bytes: seq<byte>, decode: Decoder,
                                loaded: bool, model: Option<N>, threshold: real, detector: Detector<N>)
    requires loaded ==> model.Some?
    requires ValidateImage(upload.filename, upload.contentType) && |bytes| > 0
    requires decode(bytes).Success? && (decode(bytes).value.width == 0 || decode(bytes).value.height == 0)
    ensures Respond(upload, Success(bytes), decode, loaded, model, threshold, detector) ==
            HttpError(400, ProcessingDetail(
              if Oversized(decode(bytes).value) then ProcessFailed(ResizeRefusal) else DivisionByZero))
  {
    var image := decode(bytes).value;
    ProcessImageRefusal(image);
    if !Oversized(image) {
      ProcessImageKeepsSmall(image);
    }
  }

  /** An unloaded model is reported as a failure of the block, once the image has been decoded and sized. */
  lemma RespondNotLoaded<N>(upload: Upload, bytes: seq<byte>, decode: Decoder,
                            model: Option<N>, threshold: real, detector: Detector<N>)
    requires ValidateImage(upload.filename, upload.contentType) && |bytes| > 0
    requires decode(bytes).Success? && decode(bytes).value.width > 0 && decode(bytes).value.height > 0
    requires ProcessImage(decode(bytes).value).Success?
    ensures Respond(upload, Success(bytes), decode, false, model, threshold, detector) ==
            HttpError(400, ProcessingDetail(PredictFailed(ModelNotLoaded)))
  {
    ScaleFactorsOfProcessed(decode(bytes).value);
  }

  /**
   * A valid one-pixel-wide, 3000-pixel-tall upload would be resized to width
   * 0, which the resize refuses: the reply is a 400 with the resize's message.
   */
  lemma ThinImageExample<N>(upload: Upload, bytes: seq<byte>, decode: Decoder,
                            loaded: bool, model: Option<N>, threshold: real, detector: Detector<N>)
    requires loaded ==> model.Some?
    requires ValidateImage(upload.filename, upload.contentType) && |bytes| > 0
    requires decode(bytes) == Success(Image(1, 3000, "L"))
    ensures Respond(upload, Success(bytes), decode, loaded, model, threshold, detector) ==
            HttpError(400, ProcessingDetail(ProcessFailed(ResizeRefusal)))
  {
    ProcessImageExamples();
  }

  /**
   * A successful reply echoes the filename, counts its predictions, and holds
   * the detector's boxes (all of them labelled, one per box) multiplied by
   * original / processed, in the detector's order; an image within the bound
   * keeps the detector's coordinates unchanged.
   */
  lemma RespondSuccess<N>(upload: Upload, read: Result<seq<byte>, string>, decode: Decoder,
                          loaded: bool, model: Option<N>, threshold: real, detector: Detector<N>)
    requires loaded ==> model.Some?
    requires Respond(upload, read, decode, loaded, model, threshold, detector).Predictions?
    ensures read.Success? && decode(read.value).Success? && loaded
    ensures ProcessImage(decode(read.value).value).Success?
    ensures var resp := Respond(upload, read, decode, loaded, model, threshold, detector);
      var image := decode(read.value).value;
      var processed := ProcessImage(image).value;
      && upload.filename == Some(resp.filename)
      && resp.totalObjects == |resp.predictions|
      && detector(model.value, processed, threshold).Success?
      && var raw := detector(model.value, processed, threshold).value;
      && Labelled(raw) && resp.totalObjects == BoxCount(raw)
      && ScaleFactors(image, processed).Success?
      && resp.predictions == RescaleAll(Parse(raw).value, ScaleFactors(image, processed).value)
      && (!Oversized(image) ==> resp.predictions == Parse(raw).value)
  {
    var image := decode(read.value).value;
    var processed := ProcessImage(image).value;
    InferenceSuccess(loaded, model, threshold, processed, detector);
    var raw := detector(model.value, processed, threshold).value;
    RescalePreserves(Parse(raw).value, ScaleFactors(image, processed).value);
    if !Oversized(image) {
      ScaleFactorsUnresized(image);
      RescaleIdentity(Parse(raw).value);
    }
  }

  // ---------------------------------------------------------------------
  // The service
  // ---------------------------------------------------------------------

  /** Module start-up and the start-up hook: build the handle from the defaults and load it. */
  method Startup<N>(construct: string -> Result<N, string>) returns (yolo: YOLOModel<N>, outcome: Outcome<string>)
    ensures fresh(yolo) && yolo.Valid()
    ensures yolo.modelPath == ModelPath && yolo.confidenceThreshold == ConfidenceThreshold
    ensures yolo.isLoaded <==> construct(ModelPath).Success?
    ensures yolo.model == (if construct(ModelPath).Success? then Some(construct(ModelPath).value) else None)
    ensures outcome == (if construct(ModelPath).Success? then Pass else Fail(construct(ModelPath).error))
  {
    yolo := new YOLOModel(ModelPath, ConfidenceThreshold);
    outcome := yolo.LoadModel(construct);
  }

  /** predict_objects: the stages in the source's order. */
  method PredictObjects<N>(upload: Upload, read: Result<seq<byte>, string>, decode: Decoder,
                           yolo: YOLOModel<N>, detector: Detector<N>) returns (resp: Response)
    requires yolo.Valid()
    ensures resp == Respond(upload, read, decode, yolo.isLoaded, yolo.model, yolo.confidenceThreshold, detector)
  {
    if read.Failure? {
      return HttpError(500, PredictionFailedDetail(read.error));
    }
    var imageBytes := read.value;
    if !ValidateImage(upload.filename, upload.contentType) {
      return HttpError(400, InvalidImageFile);
    }
    if |imageBytes| == 0 {
      return HttpError(400, NoImageData);
    }
    var outcome := ProcessUpload(imageBytes, decode, yolo, detector);
    match outcome
    case Failure(cause) =>
      resp := HttpError(400, ProcessingDetail(cause));
    case Success(results) =>
      resp := Predictions(upload.filename.value, results, |results|);
  }

  /**
   * The try block of predict_objects: decode, process, scale factors,
   * predict, and the in-place rescale of the predictions; its first failure.
   */
  method ProcessUpload<N>(imageBytes: seq<byte>, decode: Decoder, yolo: YOLOModel<N>, detector: Detector<N>)
    returns (outcome: Result<seq<Detection>, Cause>)
    requires yolo.Valid()
    ensures outcome == Process(imageBytes, decode, yolo.isLoaded, yolo.model, yolo.confidenceThreshold, detector)
  {
    var decoded := decode(imageBytes);
    if decoded.Failure? {
      return Failure(DecodeFailed(decoded.error));
    }
    var image := decoded.value;
    var originalWidth, originalHeight := image.width, image.height;
    var processing := ProcessImage(image);
    if processing.Failure? {
      return Failure(ProcessFailed(processing.error));
    }
    var processedImage := processing.value;
    var processedWidth, processedHeight := processedImage.width, processedImage.height;
    if processedWidth == 0 {
      return Failure(DivisionByZero);
    }
    var scaleX := originalWidth as real / processedWidth as real;
    if processedHeight == 0 {
      return Failure(DivisionByZero);
    }
    var scaleY := originalHeight as real / processedHeight as real;
    var results := yolo.Predict(processedImage, detector);
    if results.Failure? {
      return Failure(PredictFailed(results.error));
    }
    var ds := results.value;
    var preds := new Detection[|ds|](k requires 0 <= k < |ds| => ds[k]);
    assert preds[..] == ds;
    Rescale(preds, Scale(scaleX, scaleY));
    outcome := Success(preds[..]);
  }
}
