# Frame sampler, region extraction and box drawing of the detection script

This project models the core of `yolo.py`, the script that reads a video,
samples its frames, runs a pretrained person detector on the sampled ones,
hands the detected regions to an external logic sink and draws the boxes.

The model covers these steps:

- **The object.** `Pipeline.ObjectDetection` is a class. Its fields are the
  detector configuration and the capture's reported `width` and `height`,
  which `GetVideoFromFile` sets.
- **The call.** `Run` models `__call__`:
  - if the capture is not opened, the assertion fails (`NotOpened`);
  - otherwise the target rate is clamped to the source's rate;
  - then `ReadLoop` reads frames until a read fails. The counter is bumped
    on every successful read. A frame off the stride is only shown. On a scored frame,
    the list of regions goes to the sink with the capture's reported size,
    and then `plot_boxes` draws the frame.
- **The trace.** The external calls (window display, rectangle, label, sink)
  are recorded as a trace of `Types.Event`s. Each method's result is tied to
  a reference function:
  - `Regions.FrameRegions` for the faces list;
  - `Renderer.Drawing` for `plot_boxes`;
  - `Pipeline.Expected` / `Pipeline.Streamed` for a whole run.
  The properties are proved about those functions.
- **Sampling.** The stride is `math.floor(frame_rate / fps)`. Frame `k` (the
  1-based counter value) is scored when `k % stride == 0`, using Python's
  floored `%` (`Sampler.PyMod`). When `fps` is 0, or the floor is 0, Python
  raises ZeroDivisionError. This happens inside the loop, on the first frame
  read, so it is modelled as the `ZeroDivision` outcome with the counter at 1.
- **Pixels.** Pixel coordinates are `int(c * dimension)`, i.e. truncation
  toward zero (`Geometry.Trunc`). They are taken from the shape of the
  current frame.

Behaviour of the code that is easy to misread:

- The division by zero is not rejected when the rates are configured. It
  happens at the first scoring test. An empty video drains without error
  whatever the rates.
- The label "Total Targets: n" is written inside the per-row loop. It is
  written n times, and not at all when there are no detections.
- Pixels are truncated with `int()`, not rounded. So a normalised coordinate
  taken to a pixel and back drifts down by less than one pixel
  (`Geometry.PixelDrift`). A pixel taken to a fraction and back is exact
  in exact arithmetic (`Geometry.PixelRoundTrip`).
- The stride is recomputed on every iteration. Since it depends only on the
  two rates, it is the same value every time. This is why the model can use
  one stride for the whole stream.

## Model

| member | source | states |
|---|---|---|
| Geometry.Trunc | yolo.py:118 | Python's int(): the result is the integer toward zero within one unit of the argument, on each sign |
| Geometry.TruncMonotone | yolo.py:118 | int() never decreases when its argument grows |
| Geometry.ToPixel | yolo.py:76 | a normalised coordinate in [0, 1] lands on a pixel between 0 and the dimension |
| Geometry.PixelMonotone | yolo.py:76 | a larger normalised coordinate never gives an earlier pixel |
| Geometry.PixelRoundTrip | yolo.py:118 | pixel → fraction of the dimension → pixel recovers the pixel exactly |
| Geometry.PixelDrift | yolo.py:118 | fraction → pixel → fraction loses less than one pixel's width, and never rounds up |
| Sampler.ClampFps | yolo.py:95-97 | the target rate is lowered to the source's rate when it exceeds it, and is otherwise kept |
| Sampler.PyMod | yolo.py:107 | Python's %: the remainder has the divisor's sign and is zero exactly when the divisor divides the number |
| Sampler.Stride | yolo.py:107 | a stride exists only for a nonzero target rate, and it is never zero |
| Sampler.StrideIsFloor | yolo.py:107 | the stride is the floor of frame_rate / fps; it is missing (ZeroDivisionError) exactly when fps is 0 or the ratio lies in [0, 1) |
| Sampler.ScoredIffMultiple | yolo.py:107 | whatever the stride's sign, frame k is scored iff k is a multiple of the stride's magnitude |
| Sampler.CountScoredIsQuotient | yolo.py:106-107 | among counter values 1..n, n div m frames are scored, m being the stride's magnitude |
| Sampler.NthScored | yolo.py:106-107 | each scored frame comes m frames after the previous one (m the stride's magnitude), so every one is at least m |
| Sampler.NthScoredIsMultiple | yolo.py:106-107 | the (j+1)-th scored counter value is (j+1) times the stride's magnitude |
| Sampler.NthScoredIsScored | yolo.py:107 | that counter value passes the scoring test |
| Sampler.ScoredIsNext | yolo.py:106-107 | a scored frame n is the next scored frame after the CountScored(n-1) earlier ones |
| Sampler.IsScored | yolo.py:107 | definition: frame k is scored when Python's k % stride is 0 |
| Sampler.CountScored | yolo.py:106-107 | definition: the number of scored counter values among 1..n |
| Sampler.CountScoredByOne | yolo.py:107 | with stride 1, every counter value is scored |
| Sampler.ClampedStrideIsOne | yolo.py:95-97 | a target rate above a positive source rate is clamped to it: the stride is 1 and every frame is scored |
| Sampler.PositiveRatesGiveStride | yolo.py:95-97 | positive source and target rates always give a stride of at least 1 |
| Sampler.ZeroRateHasNoStride | yolo.py:107 | a zero source rate, or a zero target with a non-negative source rate, leaves no stride |
| Sampler.ThirtyToTen | yolo.py:95-109 | a 30 fps source sampled at 10 fps scores frames 3, 6, 9 and only shows 1, 2, 4, 5, 7, 8 |
| Regions.FrameRegions | yolo.py:116-119 | definition: one RegionOf per detector row, in row order |
| Regions.RegionOf | yolo.py:118-119 | the region carries the frame's counter value, and a normalised box's corner lies within the frame |
| Regions.ExtractRegions | yolo.py:114-119 | the loop builds exactly one region per detector row, in row order, with the widths and heights x2-x1, y2-y1 |
| Regions.RegionInsideFrame | yolo.py:114-119 | a normalised, well-ordered box gives a region inside the frame with non-negative extent |
| Regions.RegionsInsideFrame | yolo.py:116-120 | every region handed to the sink for such a frame lies inside that frame |
| Renderer.RectangleOf | yolo.py:74-78 | the row's rectangle belongs to the current frame; a normalised box's corners lie within the frame |
| Renderer.DrawRows | yolo.py:74-80 | definition: a rectangle and a label with the total count for each of the first i rows |
| Renderer.Drawing | yolo.py:70-81 | definition: the calls of plot_boxes, the rows' drawing followed by one display |
| Renderer.PlotBoxes | yolo.py:62-83 | plot_boxes makes the calls of Drawing (a rectangle and a label per row, then one display) and returns the same frame; the drawing is recorded only as trace events |
| Renderer.DrawRowsLayout | yolo.py:74-80 | row j contributes call 2j (its rectangle) and call 2j+1 (the label with the total count) |
| Renderer.DrawRowsRectangles | yolo.py:74-78 | the loop draws exactly one rectangle per row, in row order |
| Renderer.DrawRowsLabels | yolo.py:74-80 | the loop writes "Total Targets: n" once per row |
| Renderer.DrawRowsNothingElse | yolo.py:74-80 | the loop neither shows the frame nor calls the sink |
| Renderer.DrawingShowsOnce | yolo.py:81 | plot_boxes shows the frame exactly once and never calls the sink |
| Renderer.DrawingCounts | yolo.py:70-83 | for n rows: n rectangles in row order, n labels with count n, one display, no sink call |
| Renderer.NoDetectionsNoLabel | yolo.py:74-81 | without detections the frame is only shown, with no label at all |
| Pipeline.FrameEvents | yolo.py:106-122 | definition: one loop iteration, a display off the stride, or the sink call followed by plot_boxes on a scored frame |
| Pipeline.StreamEvents | yolo.py:101-122 | definition: the calls of the first n iterations, frame i having counter value i + 1 |
| Pipeline.Streamed | yolo.py:99-122 | definition: no frames drain at once, a missing stride raises on the first frame with the counter at 1, otherwise all frames are streamed |
| Pipeline.Expected | yolo.py:85-122 | definition: a capture that is not opened fails the assertion, otherwise the clamped rate's stride drives Streamed |
| Pipeline.ReadFrames | yolo.py:101-104 | the loop gets exactly the frames up to the first failed read |
| Pipeline.FrameSinks | yolo.py:107-120 | each frame read calls the sink once if it is scored, otherwise not at all |
| Pipeline.ObjectDetection.constructor | yolo.py:26-30 | confidence threshold 0.3, the configured IoU threshold, and only class 0 kept |
| Pipeline.ObjectDetection.GetVideoFromFile | yolo.py:32-42 | opens the capture and records its reported width and height |
| Pipeline.ObjectDetection.Run | yolo.py:85-124 | the call's trace, outcome and final counter are those of Expected; width and height are the capture's |
| Pipeline.ObjectDetection.ReadLoop | yolo.py:99-122 | the read loop's trace, outcome and counter are those of Streamed for the frames read and the stride |
| Pipeline.FrameShownOnce | yolo.py:108-109 | a frame read is shown exactly once, scored or not |
| Pipeline.FrameSinkCalls | yolo.py:107-122 | a frame read calls the sink exactly when it is scored |
| Pipeline.ShowsUpTo | yolo.py:106-109 | the displays of frames 1..n, in order |
| Pipeline.StreamShowsEveryFrame | yolo.py:101-122 | over n frames read, every frame is shown exactly once, in reading order |
| Pipeline.SinkCalls | yolo.py:107-120 | the sink calls due over n frames are all sink calls |
| Pipeline.StreamSinks | yolo.py:101-122 | the sink calls in the trace are exactly the ones due, in order |
| Pipeline.StreamSinkCount | yolo.py:106-120 | the sink is called once per scored frame |
| Pipeline.StreamSinkAt | yolo.py:106-120 | the j-th sink call is for the frame numbered NthScored(j), with that frame's regions and the capture's size |
| Pipeline.StreamSinkSchedule | yolo.py:106-120 | CountScored(n) sink calls, the j-th for frame NthScored(j) with its regions |
| Pipeline.EmptyBatchStillNotifiesSink | yolo.py:113-122 | a scored frame with no detections still calls the sink with an empty list, then is only shown |
| Pipeline.PositiveRatesDrain | yolo.py:95-122 | positive rates: the source is drained, the counter ends at the frame count, each frame is shown once, n / stride sink calls carry the capture's size |
| Pipeline.SinkCallsByOne | yolo.py:106-120 | with stride 1 there is one sink call per frame, the j-th for frame j+1 |
| Pipeline.ClampedRunScoresEveryFrame | yolo.py:95-120 | a target above a positive source rate scores every frame read: one sink call per frame, in order |
| Pipeline.ZeroDivisionOnFirstFrame | yolo.py:99-107 | the call raises ZeroDivisionError iff the capture opened, a first frame was read and there is no stride; the counter is then 1 and nothing was shown or sent |
| Pipeline.ZeroSourceRate | yolo.py:91-107 | a zero source rate fails on the first frame read, but an empty video drains |

## Left out

- Model loading, inference and device selection (`load_model`, `score_frame`, torch): these are foreign calls. Each frame carries the detector rows it would produce, as the model's input.
- Detector thresholding (confidence, IoU, class filter): settings of the foreign detector. The constructor records them, but their effect on the rows is not modelled.
- Video decoding, pixel contents, `cv2.startWindowThread`, `player.release()`, `cv2.destroyAllWindows()` and `cv2.waitKey(10)`: these are I/O. The capture is a value giving `isOpened`, the rate, the size and the sequence of read results.
- The logic sink `webcam.logic` is not part of this model. Its calls are recorded in the trace, with their arguments.
- Each faces entry holds the frame image itself. The model stands in the frame's 1-based counter value for it.
- Label text, colours, fonts and stroke widths: a label is recorded by its count, and a rectangle by its corners.
- Floating-point arithmetic: the rates, sizes and coordinates are exact reals, so rounding of `frame_rate / fps` and of `row[i] * shape` is not modelled. NaN and infinite rates are not modelled either.
- The `int(...)` of the capture's width and height at lines 92-93 is computed but never used before it is overwritten at line 114. The model omits it.
- `settings.VIDEO_INPUT`, `settings.CAM_FMS` and `settings.IOU_THRESHOLD` are parameters: the video source, `camFps` and `iouThreshold`.
- Python's `assert player.isOpened()` is modelled as the `NotOpened` outcome. Running Python with `-O` would skip that assertion, and this is not modelled.
- Pipeline.ObjectDetection.constructor: Python never sets `width` and `height` before the video is opened. The model starts them at 0, and they are always overwritten before use.
