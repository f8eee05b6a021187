/** plot_boxes: for each of the n detector rows a rectangle is drawn and the
    label "Total Targets: n" is written (the label call sits inside the loop),
    then the frame is shown and returned. */
module Renderer {
  import opened Types
  import opened Geometry

  /** The rectangle drawn for one row, corners in pixels of the current frame. */
  function RectangleOf(k: nat, d: Detection, width: nat, height: nat): (e: Event)
    ensures e.Rectangle? && e.frame == k
    ensures Normalised(d) ==> 0 <= e.x1 <= width && 0 <= e.x2 <= width &&
                              0 <= e.y1 <= height && 0 <= e.y2 <= height
  {
    Rectangle(k, ToPixel(d.x1, width), ToPixel(d.y1, height), ToPixel(d.x2, width), ToPixel(d.y2, height))
  }

  /** The drawing calls of the loop body for the first i rows, total being
      the count written into every label. */
  function DrawRows(k: nat, rows: seq<Detection>, i: nat, total: nat, width: nat, height: nat): seq<Event>
    requires i <= |rows|
  {
    if i == 0 then []
    else DrawRows(k, rows, i - 1, total, width, height) + [RectangleOf(k, rows[i - 1], width, height), PutText(k, total)]
  }

  /** Everything plot_boxes does to frame k. */
  function Drawing(k: nat, frame: Frame): seq<Event>
  {
    var n := |frame.detections|;
    DrawRows(k, frame.detections, n, n, frame.width, frame.height) + [Show(k)]
  }

  method PlotBoxes(k: nat, frame: Frame) returns (events: seq<Event>, result: Frame)
    ensures events == Drawing(k, frame)
    ensures result == frame
  {
    var n := |frame.detections|;
    var xShape, yShape := frame.width, frame.height;
    events := [];
    for i := 0 to n
      invariant events == DrawRows(k, frame.detections, i, n, xShape, yShape)
    {
      var row := frame.detections[i];
      var x1, y1 := ToPixel(row.x1, xShape), ToPixel(row.y1, yShape);
      var x2, y2 := ToPixel(row.x2, xShape), ToPixel(row.y2, yShape);
      events := events + [Rectangle(k, x1, y1, x2, y2)];
      events := events + [PutText(k, n)];
    }
    events := events + [Show(k)];
    result := frame;
  }

  /** Row j of the loop contributes the calls at 2j (its rectangle) and 2j+1
      (the label with the total count). */
  lemma {:induction false} DrawRowsLayout(k: nat, rows: seq<Detection>, i: nat, total: nat, width: nat, height: nat)
    requires i <= |rows|
    ensures |DrawRows(k, rows, i, total, width, height)| == 2 * i
    ensures forall j :: 0 <= j < i ==>
      DrawRows(k, rows, i, total, width, height)[2 * j] == RectangleOf(k, rows[j], width, height) &&
      DrawRows(k, rows, i, total, width, height)[2 * j + 1] == PutText(k, total)
  {
    if i > 0 {
      DrawRowsLayout(k, rows, i - 1, total, width, height);
    }
  }

  /** The events of one kind among a row's two calls. */
  lemma RowKinds(k: nat, d: Detection, total: nat, width: nat, height: nat)
    ensures var tail := [RectangleOf(k, d, width, height), PutText(k, total)];
      Filter(tail, RectangleKind) == [RectangleOf(k, d, width, height)] &&
      Filter(tail, TextKind) == [PutText(k, total)] &&
      Filter(tail, ShowKind) == [] && Filter(tail, LogicKind) == []
  {
    var rect, text := RectangleOf(k, d, width, height), PutText(k, total);
    assert [rect, text] == [rect] + [text];
    FilterAppend([rect], [text], RectangleKind);
    FilterAppend([rect], [text], TextKind);
    FilterAppend([rect], [text], ShowKind);
    FilterAppend([rect], [text], LogicKind);
  }

  /** The loop draws exactly one rectangle per row, in row order. */
  lemma {:induction false} DrawRowsRectangles(k: nat, rows: seq<Detection>, i: nat, total: nat, width: nat, height: nat)
    requires i <= |rows|
    ensures Filter(DrawRows(k, rows, i, total, width, height), RectangleKind) ==
      seq(i, j requires 0 <= j < i => RectangleOf(k, rows[j], width, height))
  {
    if i > 0 {
      DrawRowsRectangles(k, rows, i - 1, total, width, height);
      FilterAppend(DrawRows(k, rows, i - 1, total, width, height), [RectangleOf(k, rows[i - 1], width, height), PutText(k, total)], RectangleKind);
      RowKinds(k, rows[i - 1], total, width, height);
    }
  }

  /** The loop writes the label once per row. */
  lemma {:induction false} DrawRowsLabels(k: nat, rows: seq<Detection>, i: nat, total: nat, width: nat, height: nat)
    requires i <= |rows|
    ensures Filter(DrawRows(k, rows, i, total, width, height), TextKind) == seq(i, j => PutText(k, total))
  {
    if i > 0 {
      DrawRowsLabels(k, rows, i - 1, total, width, height);
      FilterAppend(DrawRows(k, rows, i - 1, total, width, height), [RectangleOf(k, rows[i - 1], width, height), PutText(k, total)], TextKind);
      RowKinds(k, rows[i - 1], total, width, height);
    }
  }

  /** The loop neither shows the frame nor calls the sink. */
  lemma {:induction false} DrawRowsNothingElse(k: nat, rows: seq<Detection>, i: nat, total: nat, width: nat, height: nat)
    requires i <= |rows|
    ensures Filter(DrawRows(k, rows, i, total, width, height), ShowKind) == []
    ensures Filter(DrawRows(k, rows, i, total, width, height), LogicKind) == []
  {
    if i > 0 {
      var tail := [RectangleOf(k, rows[i - 1], width, height), PutText(k, total)];
      DrawRowsNothingElse(k, rows, i - 1, total, width, height);
      FilterAppend(DrawRows(k, rows, i - 1, total, width, height), tail, ShowKind);
      FilterAppend(DrawRows(k, rows, i - 1, total, width, height), tail, LogicKind);
      RowKinds(k, rows[i - 1], total, width, height);
    }
  }

  /** plot_boxes shows the frame once and never calls the sink. */
  lemma DrawingShowsOnce(k: nat, frame: Frame)
    ensures Filter(Drawing(k, frame), ShowKind) == [Show(k)]
    ensures Filter(Drawing(k, frame), LogicKind) == []
  {
    var n := |frame.detections|;
    var rows := DrawRows(k, frame.detections, n, n, frame.width, frame.height);
    DrawRowsNothingElse(k, frame.detections, n, n, frame.width, frame.height);
    FilterAppend(rows, [Show(k)], ShowKind);
    FilterAppend(rows, [Show(k)], LogicKind);
    FilterSingle(Show(k), ShowKind);
    FilterSingle(Show(k), LogicKind);
  }

  /** For n rows plot_boxes draws n rectangles and writes the label
      "Total Targets: n" n times, shows the frame once and calls no sink. */
  lemma DrawingCounts(k: nat, frame: Frame)
    ensures var n := |frame.detections|;
      Filter(Drawing(k, frame), RectangleKind) ==
        seq(n, i requires 0 <= i < n => RectangleOf(k, frame.detections[i], frame.width, frame.height)) &&
      Filter(Drawing(k, frame), TextKind) == seq(n, i => PutText(k, n)) &&
      Filter(Drawing(k, frame), ShowKind) == [Show(k)] &&
      Filter(Drawing(k, frame), LogicKind) == []
  {
    var n := |frame.detections|;
    var rows := DrawRows(k, frame.detections, n, n, frame.width, frame.height);
    DrawRowsRectangles(k, frame.detections, n, n, frame.width, frame.height);
    DrawRowsLabels(k, frame.detections, n, n, frame.width, frame.height);
    DrawingShowsOnce(k, frame);
    FilterAppend(rows, [Show(k)], RectangleKind);
    FilterAppend(rows, [Show(k)], TextKind);
  }

  /** With no detections the frame is only shown: no rectangle, and no label
      either, not even "Total Targets: 0". */
  lemma NoDetectionsNoLabel(k: nat, frame: Frame)
    requires frame.detections == []
    ensures Drawing(k, frame) == [Show(k)]
    ensures Filter(Drawing(k, frame), TextKind) == []
  {
    DrawingCounts(k, frame);
  }
}
