/** The ObjectDetection object and its call: open the video, clamp the target
    rate, then read frames until a read fails, showing the frames that are not
    sampled and, on the sampled ones, handing the regions to the logic sink and
    drawing the boxes. */
module Pipeline {
  import opened Types
  import opened Geometry
  import opened Sampler
  import opened Regions
  import opened Renderer

  /** What the video capture reports when it is opened (whether it opened,
      its frame rate, width and height) and what each successive read returns:
      a frame, or None for a failed read. Reads past the end fail too. */
  datatype VideoSource = VideoSource(isOpened: bool, fps: real, width: real, height: real, stream: seq<Option<Frame>>)

  /** The result of one read at position pos of the stream. */
  function ReadAt(stream: seq<Option<Frame>>, pos: nat): Option<Frame>
  {
    if pos < |stream| then stream[pos] else None
  }

  /** The frames the loop gets before the first failed read. */
  function ReadFrames(stream: seq<Option<Frame>>): (frames: seq<Frame>)
    ensures |frames| <= |stream|
    ensures forall i :: 0 <= i < |frames| ==> stream[i] == Some(frames[i])
    ensures |frames| < |stream| ==> stream[|frames|] == None
  {
    if stream == [] || stream[0].None? then []
    else [stream[0].value] + ReadFrames(stream[1..])
  }

  /** How a run ends: the source was drained; Python raised ZeroDivisionError
      in the scoring test; or the assertion that the capture is open failed. */
  datatype Outcome = Drained | ZeroDivision | NotOpened

  /** The calls made for the k-th frame read. */
  function FrameEvents(k: nat, frame: Frame, stride: int, width: real, height: real): seq<Event>
    requires stride != 0
  {
    if IsScored(k, stride) then [Logic(FrameRegions(k, frame), width, height)] + Drawing(k, frame)
    else [Show(k)]
  }

  /** The calls made while streaming the first n frames, the i-th having
      counter value i + 1. */
  function StreamEvents(frames: seq<Frame>, n: nat, stride: int, width: real, height: real): seq<Event>
    requires stride != 0 && n <= |frames|
  {
    if n == 0 then []
    else StreamEvents(frames, n - 1, stride, width, height) + FrameEvents(n, frames[n - 1], stride, width, height)
  }

  /** The observable result of a run: the calls made, how it ended and the
      final value of the frame counter. */
  datatype Session = Session(events: seq<Event>, outcome: Outcome, currentFrame: nat)

  /** How the read loop ends for the frames read before the first failed
      read, given the stride (None where the scoring test divides by zero):
      no frame means no test; otherwise the first test either raises or every
      frame is handled. */
  function Streamed(frames: seq<Frame>, stride: Option<int>, width: real, height: real): Session
    requires stride.Some? ==> stride.value != 0
  {
    if frames == [] then Session([], Drained, 0)
    else if stride.None? then Session([], ZeroDivision, 1)
    else Session(StreamEvents(frames, |frames|, stride.value, width, height), Drained, |frames|)
  }

  /** The run the source's call performs on a video source with the
      configured target rate. The sink gets the width and height the capture
      reported when it was opened. */
  function Expected(source: VideoSource, camFps: real): Session
  {
    if !source.isOpened then Session([], NotOpened, 0)
    else Streamed(ReadFrames(source.stream), Stride(source.fps, ClampFps(camFps, source.fps)), source.width, source.height)
  }

  class ObjectDetection {
    /** The detector's configuration: confidence threshold, IoU threshold
        and the classes it keeps (0 is "person"). */
    var confidence: real
    var iou: real
    var classes: seq<int>
    /** The capture's reported width and height, set when the video is opened. */
    var width: real
    var height: real

    constructor (iouThreshold: real)
      ensures confidence == 0.3 && iou == iouThreshold && classes == [0]
      ensures width == 0.0 && height == 0.0
    {
      confidence := 0.3;
      iou := iouThreshold;
      classes := [0];
      width, height := 0.0, 0.0;
    }

    /** Opens the video and records its reported width and height. */
    method GetVideoFromFile(source: VideoSource) returns (player: VideoSource)
      modifies this`width, this`height
      ensures player == source
      ensures width == source.width && height == source.height
    {
      player := source;
      width := player.width;
      height := player.height;
    }

    /** The object's call: the capture is opened and the target rate clamped
        to the source's, then the frames are read. */
    method Run(source: VideoSource, camFps: real) returns (events: seq<Event>, outcome: Outcome, currentFrame: nat)
      modifies this`width, this`height
      ensures width == source.width && height == source.height
      ensures Session(events, outcome, currentFrame) == Expected(source, camFps)
    {
      var player := GetVideoFromFile(source);
      if !player.isOpened {
        events, outcome, currentFrame := [], NotOpened, 0;
        return;
      }
      var frameRate := player.fps;
      var fps := camFps;
      if fps > frameRate {
        fps := frameRate;
      }
      events, outcome, currentFrame := ReadLoop(player, frameRate, fps);
    }

    /** The read loop of the call: read until a read fails, bump the counter,
        show a frame off the stride, and on a scored frame send its regions
        to the sink with the capture's reported size and draw its boxes. */
    method ReadLoop(player: VideoSource, frameRate: real, fps: real) returns (events: seq<Event>, outcome: Outcome, currentFrame: nat)
      ensures Session(events, outcome, currentFrame) == Streamed(ReadFrames(player.stream), Stride(frameRate, fps), width, height)
    {
      events, currentFrame := [], 0;
      ghost var frames := ReadFrames(player.stream);
      ghost var ratio := Stride(frameRate, fps);
      ghost var s := if ratio.Some? then ratio.value else 1;
      while true
        invariant currentFrame <= |frames|
        invariant 0 < currentFrame ==> ratio == Some(s)
        invariant events == StreamEvents(frames, currentFrame, s, width, height)
        decreases |frames| - currentFrame
      {
        var read := ReadAt(player.stream, currentFrame);
        if read.None? {
          break;
        }
        var frame := read.value;
        assert frame == frames[currentFrame];
        currentFrame := currentFrame + 1;
        var stride := Stride(frameRate, fps);
        if stride.None? {
          outcome := ZeroDivision;
          return;
        }
        if !IsScored(currentFrame, stride.value) {
          events := events + [Show(currentFrame)];
          continue;
        }
        var faces := ExtractRegions(currentFrame, frame);
        var sink := Logic(faces, width, height);
        var drawn;
        drawn, frame := PlotBoxes(currentFrame, frame);
        events := events + ([sink] + drawn);
      }
      outcome := Drained;
    }
  }

  /** The sink call due for the k-th frame read: one exactly when it is scored. */
  function FrameSinks(k: nat, frame: Frame, stride: int, width: real, height: real): (r: seq<Event>)
    requires stride != 0
    ensures |r| == (if IsScored(k, stride) then 1 else 0)
  {
    if IsScored(k, stride) then [Logic(FrameRegions(k, frame), width, height)] else []
  }

  /** A frame read is shown exactly once, scored or not. */
  lemma FrameShownOnce(k: nat, frame: Frame, stride: int, width: real, height: real)
    requires stride != 0
    ensures Filter(FrameEvents(k, frame, stride, width, height), ShowKind) == [Show(k)]
  {
    if IsScored(k, stride) {
      DrawingShowsOnce(k, frame);
      SinkThenDrawing(Logic(FrameRegions(k, frame), width, height), Drawing(k, frame), k);
    } else {
      FilterSingle(Show(k), ShowKind);
    }
  }

  /** A frame read calls the sink exactly when it is scored. */
  lemma FrameSinkCalls(k: nat, frame: Frame, stride: int, width: real, height: real)
    requires stride != 0
    ensures Filter(FrameEvents(k, frame, stride, width, height), LogicKind) == FrameSinks(k, frame, stride, width, height)
  {
    if IsScored(k, stride) {
      DrawingShowsOnce(k, frame);
      SinkThenDrawing(Logic(FrameRegions(k, frame), width, height), Drawing(k, frame), k);
    } else {
      FilterSingle(Show(k), LogicKind);
    }
  }

  /** A sink call followed by calls that show frame k once and call no sink. */
  lemma SinkThenDrawing(sink: Event, drawing: seq<Event>, k: nat)
    requires sink.Logic?
    requires Filter(drawing, ShowKind) == [Show(k)] && Filter(drawing, LogicKind) == []
    ensures Filter([sink] + drawing, ShowKind) == [Show(k)]
    ensures Filter([sink] + drawing, LogicKind) == [sink]
  {
    FilterSingle(sink, ShowKind);
    FilterSingle(sink, LogicKind);
    FilterAppend([sink], drawing, ShowKind);
    FilterAppend([sink], drawing, LogicKind);
  }

  /** The window displays of frames 1..n, in order. */
  function ShowsUpTo(n: nat): (r: seq<Event>)
    ensures |r| == n
    ensures forall i :: 0 <= i < n ==> r[i] == Show(i + 1)
  {
    if n == 0 then [] else ShowsUpTo(n - 1) + [Show(n)]
  }

  /** Every frame read is shown exactly once, in reading order, whether it is
      scored or only displayed. */
  lemma {:induction false} StreamShowsEveryFrame(frames: seq<Frame>, n: nat, stride: int, width: real, height: real)
    requires stride != 0 && n <= |frames|
    ensures Filter(StreamEvents(frames, n, stride, width, height), ShowKind) == ShowsUpTo(n)
  {
    if n > 0 {
      var before := StreamEvents(frames, n - 1, stride, width, height);
      var step := FrameEvents(n, frames[n - 1], stride, width, height);
      StreamShowsEveryFrame(frames, n - 1, stride, width, height);
      FrameShownOnce(n, frames[n - 1], stride, width, height);
      FilterStep(before, step, ShowKind, ShowsUpTo(n - 1), [Show(n)]);
    }
  }

  /** The sink calls due while streaming the first n frames: one per scored
      frame, with that frame's regions and the capture's reported size. */
  function SinkCalls(frames: seq<Frame>, n: nat, stride: int, width: real, height: real): (r: seq<Event>)
    requires stride != 0 && n <= |frames|
    ensures forall i :: 0 <= i < |r| ==> r[i].Logic?
  {
    if n == 0 then []
    else
      SinkCalls(frames, n - 1, stride, width, height) + FrameSinks(n, frames[n - 1], stride, width, height)
  }

  /** The sink calls of the trace are exactly the ones due. */
  lemma {:induction false} StreamSinks(frames: seq<Frame>, n: nat, stride: int, width: real, height: real)
    requires stride != 0 && n <= |frames|
    ensures Filter(StreamEvents(frames, n, stride, width, height), LogicKind) == SinkCalls(frames, n, stride, width, height)
  {
    if n > 0 {
      StreamSinks(frames, n - 1, stride, width, height);
      FrameSinkCalls(n, frames[n - 1], stride, width, height);
      FilterStep(StreamEvents(frames, n - 1, stride, width, height), FrameEvents(n, frames[n - 1], stride, width, height), LogicKind,
        SinkCalls(frames, n - 1, stride, width, height), FrameSinks(n, frames[n - 1], stride, width, height));
    }
  }

  /** Over n frames read the sink is called once per scored frame. */
  lemma {:induction false} StreamSinkCount(frames: seq<Frame>, n: nat, stride: int, width: real, height: real)
    requires stride != 0 && n <= |frames|
    ensures |SinkCalls(frames, n, stride, width, height)| == CountScored(n, stride)
  {
    if n > 0 {
      StreamSinkCount(frames, n - 1, stride, width, height);
    }
  }

  /** The j-th sink call is for the frame whose counter value is
      NthScored(j, stride), the (j + 1)-th multiple of |stride|; it carries
      that frame's regions and the capture's reported width and height. */
  lemma {:induction false} StreamSinkAt(frames: seq<Frame>, n: nat, stride: int, width: real, height: real, j: nat)
    requires stride != 0 && n <= |frames|
    requires j < |SinkCalls(frames, n, stride, width, height)|
    ensures 1 <= NthScored(j, stride) <= n
    ensures SinkCalls(frames, n, stride, width, height)[j] ==
      Logic(FrameRegions(NthScored(j, stride), frames[NthScored(j, stride) - 1]), width, height)
  {
    var before := SinkCalls(frames, n - 1, stride, width, height);
    if j < |before| {
      StreamSinkAt(frames, n - 1, stride, width, height, j);
    } else {
      StreamSinkCount(frames, n - 1, stride, width, height);
      ScoredIsNext(n, stride);
    }
  }

  /** The sink calls in order: there is one per scored frame, and the j-th
      is for frame NthScored(j, stride). */
  lemma StreamSinkSchedule(frames: seq<Frame>, n: nat, stride: int, width: real, height: real)
    requires stride != 0 && n <= |frames|
    ensures var sinks := SinkCalls(frames, n, stride, width, height);
      |sinks| == CountScored(n, stride) &&
      forall j :: 0 <= j < |sinks| ==>
        1 <= NthScored(j, stride) <= n &&
        sinks[j] == Logic(FrameRegions(NthScored(j, stride), frames[NthScored(j, stride) - 1]), width, height)
  {
    StreamSinkCount(frames, n, stride, width, height);
    var sinks := SinkCalls(frames, n, stride, width, height);
    forall j | 0 <= j < |sinks|
      ensures 1 <= NthScored(j, stride) <= n
      ensures sinks[j] == Logic(FrameRegions(NthScored(j, stride), frames[NthScored(j, stride) - 1]), width, height)
    {
      StreamSinkAt(frames, n, stride, width, height, j);
    }
  }

  /** An empty detection batch on a scored frame still calls the sink, with
      an empty region list, and then only shows the frame. */
  lemma EmptyBatchStillNotifiesSink(k: nat, frame: Frame, stride: int, width: real, height: real)
    requires stride != 0 && IsScored(k, stride) && frame.detections == []
    ensures FrameEvents(k, frame, stride, width, height) == [Logic([], width, height), Show(k)]
  {
    NoDetectionsNoLabel(k, frame);
    assert FrameRegions(k, frame) == [];
  }

  /** An opened source with a first frame and a stride is drained: the calls
      are those of streaming every frame read, and the counter ends at the
      number of frames read. */
  lemma DrainedRun(source: VideoSource, camFps: real, stride: int)
    requires source.isOpened && Stride(source.fps, ClampFps(camFps, source.fps)) == Some(stride)
    ensures var frames := ReadFrames(source.stream);
      var run := Expected(source, camFps);
      run.outcome == Drained && run.currentFrame == |frames| &&
      run.events == StreamEvents(frames, |frames|, stride, source.width, source.height)
  {
  }

  /** With positive rates an opened source is drained: the counter ends at
      the number of frames read, each is shown once, and the sink calls are
      the ones due, n / stride of them, always with the capture's reported
      size. */
  lemma PositiveRatesDrain(source: VideoSource, camFps: real)
    requires source.isOpened && 0.0 < source.fps && 0.0 < camFps
    ensures var run := Expected(source, camFps);
      var frames := ReadFrames(source.stream);
      var stride := Stride(source.fps, ClampFps(camFps, source.fps));
      stride.Some? && 1 <= stride.value &&
      run.outcome == Drained && run.currentFrame == |frames| &&
      Filter(run.events, ShowKind) == ShowsUpTo(|frames|) &&
      Filter(run.events, LogicKind) == SinkCalls(frames, |frames|, stride.value, source.width, source.height) &&
      |Filter(run.events, LogicKind)| == |frames| / stride.value &&
      forall e :: e in Filter(run.events, LogicKind) ==> e == Logic(e.regions, source.width, source.height)
  {
    var frames := ReadFrames(source.stream);
    var n := |frames|;
    PositiveRatesGiveStride(source.fps, camFps);
    var s := Stride(source.fps, ClampFps(camFps, source.fps)).value;
    DrainedRun(source, camFps, s);
    StreamShowsEveryFrame(frames, n, s, source.width, source.height);
    StreamSinks(frames, n, s, source.width, source.height);
    StreamSinkSchedule(frames, n, s, source.width, source.height);
    CountScoredIsQuotient(n, s);
  }

  /** With stride 1 every frame read is scored: one sink call per frame, the
      j-th for the frame with counter value j + 1. */
  lemma SinkCallsByOne(frames: seq<Frame>, n: nat, width: real, height: real)
    requires n <= |frames|
    ensures var sinks := SinkCalls(frames, n, 1, width, height);
      |sinks| == n &&
      forall j :: 0 <= j < |sinks| ==> sinks[j] == Logic(FrameRegions(j + 1, frames[j]), width, height)
  {
    StreamSinkCount(frames, n, 1, width, height);
    CountScoredByOne(n);
    var sinks := SinkCalls(frames, n, 1, width, height);
    forall j | 0 <= j < |sinks|
      ensures sinks[j] == Logic(FrameRegions(j + 1, frames[j]), width, height)
    {
      StreamSinkAt(frames, n, 1, width, height, j);
    }
  }

  /** A target rate above the source's positive rate scores every frame read:
      one sink call per frame, the k-th for the k-th frame. */
  lemma ClampedRunScoresEveryFrame(source: VideoSource, camFps: real)
    requires source.isOpened && 0.0 < source.fps < camFps
    ensures var run := Expected(source, camFps);
      var frames := ReadFrames(source.stream);
      var sinks := Filter(run.events, LogicKind);
      run.outcome == Drained && |sinks| == |frames| &&
      forall j :: 0 <= j < |sinks| ==> sinks[j] == Logic(FrameRegions(j + 1, frames[j]), source.width, source.height)
  {
    var frames := ReadFrames(source.stream);
    ClampedStrideIsOne(camFps, source.fps);
    DrainedRun(source, camFps, 1);
    StreamSinks(frames, |frames|, 1, source.width, source.height);
    SinkCallsByOne(frames, |frames|, source.width, source.height);
  }

  /** The division by zero happens inside the loop: a run raises it exactly
      when the capture opened, a first frame was read, and there is no stride;
      the counter then stands at 1 and nothing was shown or sent. */
  lemma ZeroDivisionOnFirstFrame(source: VideoSource, camFps: real)
    ensures Expected(source, camFps).outcome == ZeroDivision <==>
      source.isOpened && ReadFrames(source.stream) != [] &&
      Stride(source.fps, ClampFps(camFps, source.fps)).None?
    ensures Expected(source, camFps).outcome == ZeroDivision ==>
      Expected(source, camFps).events == [] && Expected(source, camFps).currentFrame == 1
  {
  }

  /** A zero source rate fails on the first frame read, but an empty video
      drains without error whatever the rates. */
  lemma ZeroSourceRate(source: VideoSource, camFps: real)
    requires source.isOpened && source.fps == 0.0
    ensures ReadFrames(source.stream) != [] ==> Expected(source, camFps).outcome == ZeroDivision
    ensures ReadFrames(source.stream) == [] ==> Expected(source, camFps) == Session([], Drained, 0)
  {
    ZeroRateHasNoStride(camFps, source.fps);
  }
}
