/** The list of regions built for the logic sink on a scored frame: one
    (frame, x1, y1, x2 - x1, y2 - y1) per detector row, in row order, with
    pixels taken from the current frame's shape. */
module Regions {
  import opened Types
  import opened Geometry

  function RegionOf(k: nat, d: Detection, width: nat, height: nat): (r: Region)
    ensures r.frame == k
    ensures Normalised(d) ==> 0 <= r.x <= width && 0 <= r.y <= height
  {
    var x1 := ToPixel(d.x1, width);
    var y1 := ToPixel(d.y1, height);
    var x2 := ToPixel(d.x2, width);
    var y2 := ToPixel(d.y2, height);
    Region(k, x1, y1, x2 - x1, y2 - y1)
  }

  /** The regions of the k-th frame, one per detector row. */
  function FrameRegions(k: nat, frame: Frame): seq<Region>
  {
    seq(|frame.detections|, i requires 0 <= i < |frame.detections| =>
      RegionOf(k, frame.detections[i], frame.width, frame.height))
  }

  /** The loop that fills the list, appending row by row. */
  method ExtractRegions(k: nat, frame: Frame) returns (faces: seq<Region>)
    ensures faces == FrameRegions(k, frame)
  {
    faces := [];
    for i := 0 to |frame.detections|
      invariant faces == FrameRegions(k, frame)[..i]
    {
      var row := frame.detections[i];
      var x1, y1 := ToPixel(row.x1, frame.width), ToPixel(row.y1, frame.height);
      var x2, y2 := ToPixel(row.x2, frame.width), ToPixel(row.y2, frame.height);
      faces := faces + [Region(k, x1, y1, x2 - x1, y2 - y1)];
    }
  }

  /** A normalised, well-ordered box gives a region that lies inside the frame
      and has a non-negative extent. */
  lemma RegionInsideFrame(k: nat, d: Detection, width: nat, height: nat)
    requires Normalised(d) && Ordered(d)
    ensures var r := RegionOf(k, d, width, height);
      0 <= r.x && 0 <= r.w && r.x + r.w <= width &&
      0 <= r.y && 0 <= r.h && r.y + r.h <= height
  {
    PixelMonotone(d.x1, d.x2, width);
    PixelMonotone(d.y1, d.y2, height);
  }

  /** Every region handed to the sink for a frame whose rows are all
      normalised and well ordered lies inside that frame. */
  lemma RegionsInsideFrame(k: nat, frame: Frame)
    requires forall d :: d in frame.detections ==> Normalised(d) && Ordered(d)
    ensures forall r :: r in FrameRegions(k, frame) ==>
      r.frame == k && 0 <= r.x && 0 <= r.w && r.x + r.w <= frame.width &&
      0 <= r.y && 0 <= r.h && r.y + r.h <= frame.height
  {
    forall r | r in FrameRegions(k, frame)
      ensures r.frame == k && 0 <= r.x && 0 <= r.w && r.x + r.w <= frame.width &&
              0 <= r.y && 0 <= r.h && r.y + r.h <= frame.height
    {
      var i :| 0 <= i < |FrameRegions(k, frame)| && FrameRegions(k, frame)[i] == r;
      RegionInsideFrame(k, frame.detections[i], frame.width, frame.height);
    }
  }
}
