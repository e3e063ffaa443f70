# YOLO object-detection service: a verified model of its request core

This project models, in Dafny, the core of a small FastAPI service that accepts
an image upload, runs a YOLO detector on it and returns the detected objects
with their boxes in the coordinates of the uploaded image. It covers three
parts of the service:

- `image_processing.dfy` (module `ImageProcessing`, pure) covers the upload pre-check
  `validate_image`. It checks for a non-empty filename, an allowed lower-cased
  extension as `os.path.splitext` finds it, and an `image/` content type. It
  also covers `process_image`: conversion to RGB, then the bounded resize to
  `MaxDimension = 1920`, where the longer side becomes exactly 1920 and the
  shorter side is truncated. Pillow's `resize` refuses a new side of 0 with
  `ValueError("height and width must be > 0")`, so `ProcessImage` returns a
  `Result`. An image is modelled as `(width, height, mode)`.
- `yolo_model.dfy` (module `YoloModel`) covers the `YOLOModel` class. The class
  holds its path and threshold, a `model` field and an `isLoaded` flag.
  `LoadModel` builds the weights. `Predict` refuses to run until they are
  loaded. `ParseResults` is the nested loop that flattens the detector's
  results into a list of detections. It skips results without boxes and
  looks up each class name. The loop is proved against the specification
  function `Parse`.
- `main.dfy` (module `Main`) covers `predict_objects`, in the source's stage
  order: read the bytes, pre-check, check the payload is not empty, decode,
  process, compute the scale factors, predict, then rescale the boxes in
  place over an array. The try block is the method `ProcessUpload`, proved
  equal to the specification function `Process`. The method `PredictObjects`
  is proved equal to the specification function `Respond`. The lemmas about
  `Respond` state how failures map to HTTP statuses, which check takes
  precedence, and what a successful reply contains.
- `wrappers.dfy` holds `Option`, `Result` and `Outcome`.

Some inputs are parameters of the model, not computed by it:

- the result of reading the upload and rewinding it (`file.read()` and
  `file.seek(0)`, lines 40 and 43 of `main.py`): a failure of either is a
  failed read;
- the image decoder (PIL's open, verify and reopen);
- the weights constructor (`YOLO(path)`), with the weights as an opaque type `N`;
- the detector call itself, as a function of the weights, the processed
  image and the confidence threshold.

Box coordinates and scale factors are `real`, so the arithmetic is exact.

The model follows what the code does, including where a reader might expect
otherwise:

- The shorter side is truncated (`int(...)`), not rounded.
- An image whose shorter side would truncate to 0 (a 1x3000 upload, say) is
  not rejected up front. The resize at line 48 of `image_processing.py`
  refuses it, and the reply is a 400 carrying the message
  "height and width must be > 0". The division at lines 75–76 of `main.py`
  fails with "division by zero" only for a decoded image that has a side of 0
  and is small enough not to be resized.
- A model that is not loaded gets a 400 ("Failed to process image: Model not
  loaded. ..."), not a server error.
- No upload-size limit is enforced: `MAX_IMAGE_SIZE_MB` is read but never used.
- A failed load does not move the handle into a failed state. The
  assignments are never reached, so the handle is left exactly as it was.
- A missing class name (`result.names[...]` raising `KeyError`) fails the
  whole prediction. The model returns `UnknownClass`, and the caller turns it
  into a 400.

## Model

| member | source | states |
|---|---|---|
| `ImageProcessing.RFind` | app/utils/image_processing.py:19 | the index `splitext` searches from is the last occurrence of the character, or -1 when there is none |
| `ImageProcessing.SplitExt` | app/utils/image_processing.py:19 | root + extension is the name; a non-empty extension starts with its only dot, holds no slash, and is preceded in the last path component by a non-dot character |
| `ImageProcessing.SplitExtFindsDot` | app/utils/image_processing.py:19 | conversely, a dot in the last path component preceded there by a non-dot character always yields a non-empty extension, starting at or after that dot |
| `ImageProcessing.ExtensionOfStem` | app/utils/image_processing.py:19 | a slash-free name with a non-dot character before its last dot has as extension everything from that dot; dots earlier in the stem do not count ("archive.tar" + ".gz") |
| `ImageProcessing.ExtensionOfDotsOnly` | app/utils/image_processing.py:19 | a name made of leading dots and a dot-free rest (".png", "..png", "noext") has no extension |
| `ImageProcessing.ExtensionAfterSlash` | app/utils/image_processing.py:19 | a dot in a directory part does not start an extension |
| `ImageProcessing.ExtensionPhotoExample` | app/utils/image_processing.py:19 | "photo.png" has extension ".png" |
| `ImageProcessing.ExtensionLeadingDotExamples` | app/utils/image_processing.py:19 | ".png" and "..png" have no extension |
| `ImageProcessing.ExtensionMissingExamples` | app/utils/image_processing.py:19 | "noext" and "dir.d/file" have no extension |
| `ImageProcessing.ExtensionLower` | app/utils/image_processing.py:19 | the extension of the lower-cased name is the lower-cased extension |
| `ImageProcessing.ValidateImage` | app/utils/image_processing.py:11-27 | definition of `validate_image`: the filename check, the lower-cased extension check and the content-type check, in the source's order; its properties are the `ValidateImage…` rows below |
| `ImageProcessing.ValidateImageNeedsFilename` | app/utils/image_processing.py:16-17 | a missing or empty filename is refused whatever the content type |
| `ImageProcessing.ValidateImageIff` | app/utils/image_processing.py:15-27 | accepted exactly when the filename is present and non-empty, its lower-cased extension is in the allow-set, and the content type is present and starts with "image/" |
| `ImageProcessing.ValidateImageCaseInsensitive` | app/utils/image_processing.py:19-21 | a name is accepted exactly when its lower-cased spelling is |
| `ImageProcessing.ValidateImageRejectsExecutable` | app/utils/image_processing.py:19-21 | "malware.exe" with "application/octet-stream" is refused |
| `ImageProcessing.ValidateImageRejectsDotName` | app/utils/image_processing.py:19-21 | ".png" is refused even with "image/png" |
| `ImageProcessing.ValidateImageContentTypeExamples` | app/utils/image_processing.py:24-25 | "photo.png" and "PHOTO.PNG" pass with "image/png"; "text/plain" and a missing content type are refused |
| `ImageProcessing.TargetSize` | app/utils/image_processing.py:33-46 | definition of the geometry `process_image` computes: RGB mode, then the longer side set to 1920 and the shorter one truncated when a side exceeds 1920; its properties are the `TargetSize…` rows below |
| `ImageProcessing.ProcessImage` | app/utils/image_processing.py:29-50 | definition of `process_image`: the target geometry, or the resize's refusal of a new side of 0; its properties are the `ProcessImage…` rows below |
| `ImageProcessing.ProcessImageMode` | app/utils/image_processing.py:34-35 | a processed image is always RGB, and an RGB image within the bound comes back unchanged |
| `ImageProcessing.ProcessImageKeepsSmall` | app/utils/image_processing.py:38-39 | width and height at most 1920 are kept and never refused, even a side of 0 |
| `ImageProcessing.ProcessImageRefusal` | app/utils/image_processing.py:39-48 | processing fails exactly when the image is resized and short*1920 < long, so that the new shorter side would be 0; the failure carries the resize's message |
| `ImageProcessing.TargetSizeLongSide` | app/utils/image_processing.py:39-46 | when a side exceeds 1920, the width becomes 1920 if strictly wider, otherwise the height does (squares included), and the other side becomes short*1920/long truncated |
| `ImageProcessing.TargetSizeAspect` | app/utils/image_processing.py:41-46 | the scaled shorter side is the largest whole number not exceeding the exact proportional value |
| `ImageProcessing.TargetSizeBounds` | app/utils/image_processing.py:39-46 | the computed sides are at most 1920 and neither is larger than the original side |
| `ImageProcessing.ProcessImageBounds` | app/utils/image_processing.py:39-48 | a processed image is the computed geometry, both its sides are at most 1920, and neither side has grown |
| `ImageProcessing.ProcessImageIdempotent` | app/utils/image_processing.py:29-50 | processing an already processed image again gives the same result |
| `ImageProcessing.ProcessImageExamples` | app/utils/image_processing.py:39-48 | 4000x2000 gives 1920x960; 800x600 RGBA gives 800x600 RGB; 1x3000 would need 0x1920 and is refused |
| `YoloModel.ParseBoxes` | app/models/yolo_model.py:64-76 | definition of the inner loop of `_parse_results` over one result's boxes, stopping at the first missing class name; its properties are in `ParseBoxesAt` |
| `YoloModel.ParseResult` | app/models/yolo_model.py:61-76 | definition of one pass of the outer loop: no detections when the boxes are None, else its boxes parsed |
| `YoloModel.Parse` | app/models/yolo_model.py:57-78 | definition of `_parse_results`: the results' detections concatenated in order, or the first failure; its properties are the `Parse…` rows below, and `ParseResults` is proved equal to it |
| `YoloModel.ParseBoxesAt` | app/models/yolo_model.py:64-76 | one result's boxes parse exactly when every class index has a name; then detection k is box k with class name names[class_id] and the `xyxy[0]` corners; otherwise the error names the first unnamed class index |
| `YoloModel.ParseAppend` | app/models/yolo_model.py:61-78 | parsing results `front + back` gives the detections of `front` followed by those of `back`, or the first failure |
| `YoloModel.ParseSingle` | app/models/yolo_model.py:61-64 | a single result parses to its own boxes' detections, or to none when its boxes are absent |
| `YoloModel.ParseSkipsMissingBoxes` | app/models/yolo_model.py:62-63 | a result whose boxes are None contributes nothing, wherever it stands |
| `YoloModel.ParseErrorIsUnknownClass` | app/models/yolo_model.py:67 | parsing fails only at a class-name lookup |
| `YoloModel.ParseLength` | app/models/yolo_model.py:61-76 | parsing succeeds exactly when every present box has a name, and then yields one detection per present box |
| `YoloModel.Inference` | app/models/yolo_model.py:28-51 | definition of `predict` on the handle's state: refused unless loaded, otherwise the detector's failure or its parsed results; its properties are the `Inference…` rows below |
| `YoloModel.InferenceRefusedUntilLoaded` | app/models/yolo_model.py:32-33 | predict reports "Model not loaded" exactly when the handle is not loaded |
| `YoloModel.InferenceSuccess` | app/models/yolo_model.py:35-47 | a successful predict means the model was loaded, the detector succeeded, every box was labelled, and the result is the parsed list, one detection per box |
| `YoloModel.YOLOModel.constructor` | app/models/yolo_model.py:11-15 | a fresh handle keeps its path and threshold, holds no model and is not loaded |
| `YoloModel.YOLOModel.LoadModel` | app/models/yolo_model.py:17-26 | on success stores the weights built from the path and marks the handle loaded; on failure reports the error and leaves model and flag as they were |
| `YoloModel.YOLOModel.Predict` | app/models/yolo_model.py:28-51 | the result is the Inference specification for the handle's current state: refused unless loaded, otherwise the detector's failure or its parsed results |
| `YoloModel.YOLOModel.ParseResults` | app/models/yolo_model.py:57-78 | the nested loop computes exactly Parse of its input, including the early KeyError exit |
| `Main.ScaleFactors` | app/main.py:75-76 | definition of the scale factors original / processed per axis, failing with a division by zero on a processed side of 0; its properties are the `ScaleFactors…` rows below |
| `Main.ScaleFactorsInvert` | app/main.py:75-76 | scale_x times the processed width is the original width, and the same holds for height |
| `Main.ScaleFactorsUnresized` | app/main.py:66-76 | an image with both sides between 1 and 1920 is processed, and both its factors are 1 |
| `Main.ScaleFactorsOfProcessed` | app/main.py:69-76 | after a successful process_image the factors fail exactly when the decoded image has a side of 0, and are otherwise at least 1 |
| `Main.RescaleAll` | app/main.py:82-86 | definition of the rescale loop on values; its properties are the `Rescale…` rows below, and `Rescale` is proved equal to it |
| `Main.RescalePreserves` | app/main.py:82-86 | the rescale keeps length and order, keeps class id, class name and confidence, multiplies x1 and x2 by scale_x and y1 and y2 by scale_y |
| `Main.RescaleRoundTrip` | app/main.py:75-86 | dividing every rescaled coordinate by its nonzero factor gives back the original detections |
| `Main.RescaleIdentity` | app/main.py:82-86 | factors of 1 leave the detections unchanged |
| `Main.RescaleWithinOriginal` | app/main.py:75-86 | a coordinate inside the processed image lands inside the original image |
| `Main.RescaleExample` | app/main.py:82-86 | boxes (10,10,100,100) and (200,200,300,400) at factor 2 become (20,20,200,200) and (400,400,600,800) |
| `Main.Rescale` | app/main.py:82-86 | the in-place loop leaves the array equal to RescaleAll of its old contents |
| `Main.Process` | app/main.py:53-99 | definition of the inner try block: decode, process, scale factors, predict, rescale, and the cause of its first failure; `ProcessUpload` is proved equal to it |
| `Main.Respond` | app/main.py:33-106 | definition of the reply to one upload, with the source's order of checks and its status codes; its properties are the `Respond…` rows below, and `PredictObjects` is proved equal to it |
| `Main.RespondStatus` | app/main.py:94-106 | the reply is a 500 exactly when reading or rewinding the upload (lines 40 and 43) failed; every other error is a 400 |
| `Main.RespondInvalidFirst` | app/main.py:46-51 | a refused upload gets 400 "Invalid image file", even with an empty payload |
| `Main.RespondEmptyPayload` | app/main.py:50-51 | an accepted upload with no bytes gets 400 "No image data received", and the reply does not depend on the decoder or the detector |
| `Main.RespondResizeRefused` | app/main.py:69-99 | an image whose resize is refused gives the 400 processing reply with the resize's message, before the detector is asked |
| `Main.RespondZeroDimension` | app/main.py:69-99 | a decoded side of 0 gives the 400 processing reply: with the resize's message when the image is oversized, with "division by zero" otherwise |
| `Main.RespondNotLoaded` | app/main.py:79-99 | an unloaded model, once the image is decoded with non-zero sides and processed, gives the 400 processing reply with cause "Model not loaded" |
| `Main.ThinImageExample` | app/main.py:69-99 | a valid 1x3000 upload gets the 400 processing reply with the resize's message "height and width must be > 0" |
| `Main.RespondSuccess` | app/main.py:88-92 | a successful reply echoes the filename. Its total_objects equals the number of predictions and of present boxes. The predictions are the parsed detector output multiplied by original/processed, in the same order, and are left unchanged when the image was not resized |
| `Main.Startup` | app/main.py:19-26 | the handle is built from the default path and threshold; after start-up it holds the weights built from that path and is loaded when they could be built, and otherwise holds no weights, is not loaded and reports the constructor's error |
| `Main.ProcessUpload` | app/main.py:53-92 | the try block (decode, process, scale factors, predict, in-place rescale) returns exactly Process for the handle's state, stopping at its first failure |
| `Main.PredictObjects` | app/main.py:33-106 | the imperative pipeline returns exactly Respond for the handle's state; it has no modifies clause, so it changes no shared state |

## Left out

- Concurrency: `async`/`await`, `run_in_executor` and the start-up hook's timing. `LoadModel`, `Predict` and `PredictObjects` are sequential methods. A request that arrives before loading finishes is modelled as one that sees `isLoaded == false`.
- Pixels: PIL decoding with its verify-then-reopen, the behaviour of `convert("RGB")` on pixels, LANCZOS resampling and the image's `format` attribute. These are library code. Decoding is a parameter, and only `(width, height, mode)` is modelled.
- `ImageProcessing.ProcessImage`: of the library's checks inside `resize`, only its refusal of a side of 0 is modelled, as a failure carrying its message (`ResizeRefusal`, which Pillow's C resampler raises).
- Lazy pixel loading: Pillow reads pixels only when `convert` or `resize` needs them (lines 35 and 48 of `image_processing.py`), so any exception `convert` or `resize` raises there other than the refusal of a side of 0 (a truncated or corrupt file, an unsupported mode, exhausted memory) gets a 400 from the same try block. `ProcessImage` can fail only with that refusal, so the model expresses those other exceptions only through the decoder parameter, which must report them as decoding failures.
- The detector: the YOLO network, `np.array(image)` and the confidence filtering all happen inside the opaque detector function, which receives the threshold. How a box's class index and corners are read out of tensors is also abstracted, into the `RawBox` fields.
- `ImageProcessing.ProcessImage`: the integer division `(short * 1920) / long` stands for Python's float division and truncation. The two agree for any realistic image size, but not for sizes where doubles lose integer precision.
- `Main.RescalePreserves`: coordinates and factors are exact reals, so floating-point rounding of the products and quotients is not modelled.
- `ImageProcessing.Lower`: case is folded for ASCII letters only. Outside A–Z, Python's full Unicode `lower()` maps only KELVIN SIGN to an ASCII character ("k"); LATIN CAPITAL I WITH DOT ABOVE becomes "i" followed by a combining dot, which is not ASCII. No allowed extension can arise from either, so membership in the allow-set comes out the same; this agreement is argued here, not proved.
- `ImageProcessing.SplitExt`: models the POSIX `os.path.splitext`, with `/` as the only separator. The Windows variant also splits on `\` and drive letters.
- Configuration from the environment (`MODEL_PATH`, `CONFIDENCE_THRESHOLD`, `MAX_IMAGE_SIZE`): fixed constants here. `MAX_IMAGE_SIZE_MB` is not used anywhere in the code.
- `health_check`, `get_model_info` and `get_image_info`: dictionary construction with nothing to verify.
- Logging, JSON serialisation, and `HTTPException` as an object. A reply is a status and a detail string.
- Aliasing: in the source, the rescale mutates the same dictionaries `predict` returned. Here the predictions are copied into a fresh array, which is rescaled in place and returned.
- `streamlit_app.py`, `test_api.py` and `setup_model.py` are a UI client, a manual smoke script and a weight-download script. They are not part of this model.
