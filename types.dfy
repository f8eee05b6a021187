/** The values the detection script passes around: detector rows, decoded
    frames, the regions handed to the logic sink, and the trace of external
    calls (window display, drawing, sink) that one run makes. */
module Types {

  datatype Option<+T> = None | Some(value: T)

  /** One row of the detector's output: the normalised box [x1, y1, x2, y2],
      the confidence that follows it in the same row, and the class label
      that comes from the last column. */
  datatype Detection = Detection(x1: real, y1: real, x2: real, y2: real, confidence: real, classId: int)

  /** The detector reports every coordinate as a fraction of the frame. */
  predicate Normalised(d: Detection)
  {
    0.0 <= d.x1 <= 1.0 && 0.0 <= d.y1 <= 1.0 && 0.0 <= d.x2 <= 1.0 && 0.0 <= d.y2 <= 1.0
  }

  /** The first corner is the top-left one. */
  predicate Ordered(d: Detection)
  {
    d.x1 <= d.x2 && d.y1 <= d.y2
  }

  /** A decoded frame: its shape (columns and rows of the pixel buffer) and the
      rows the pretrained detector returns when it is scored. The pixels
      themselves are not modelled. */
  datatype Frame = Frame(width: nat, height: nat, detections: seq<Detection>)

  /** An entry of the list given to the sink: the frame it refers to (by its
      1-based counter value), the top-left pixel and the extent. */
  datatype Region = Region(frame: nat, x: int, y: int, w: int, h: int)

  /** The external calls a run makes, in order. */
  datatype Event =
    | Show(frame: nat)                                             // the frame is shown in the 'video' window
    | Rectangle(frame: nat, x1: int, y1: int, x2: int, y2: int)     // an unfilled red rectangle, 1 px stroke
    | PutText(frame: nat, count: nat)                               // the label "Total Targets: <count>" at (30, 30)
    | Logic(regions: seq<Region>, width: real, height: real)        // the external logic sink

  datatype Kind = ShowKind | RectangleKind | TextKind | LogicKind

  function KindOf(e: Event): Kind
  {
    match e
    case Show(_) => ShowKind
    case Rectangle(_, _, _, _, _) => RectangleKind
    case PutText(_, _) => TextKind
    case Logic(_, _, _) => LogicKind
  }

  /** The events of one kind among the first n of a trace, in trace order. */
  function FilterPrefix(events: seq<Event>, n: nat, kind: Kind): (r: seq<Event>)
    requires n <= |events|
    ensures |r| <= n
    ensures forall i :: 0 <= i < |r| ==> KindOf(r[i]) == kind
  {
    if n == 0 then []
    else FilterPrefix(events, n - 1, kind) + (if KindOf(events[n - 1]) == kind then [events[n - 1]] else [])
  }

  /** The events of one kind, in trace order. */
  function Filter(events: seq<Event>, kind: Kind): (r: seq<Event>)
    ensures |r| <= |events|
    ensures forall i :: 0 <= i < |r| ==> KindOf(r[i]) == kind
  {
    FilterPrefix(events, |events|, kind)
  }

  /** Filtering a prefix only looks at that prefix. */
  lemma {:induction false} FilterPrefixOfAppend(a: seq<Event>, b: seq<Event>, n: nat, kind: Kind)
    requires n <= |a|
    ensures FilterPrefix(a + b, n, kind) == FilterPrefix(a, n, kind)
  {
    if n > 0 {
      FilterPrefixOfAppend(a, b, n - 1, kind);
      assert (a + b)[n - 1] == a[n - 1];
    }
  }

  lemma {:induction false} FilterPrefixAppend(a: seq<Event>, b: seq<Event>, j: nat, kind: Kind)
    requires j <= |b|
    ensures FilterPrefix(a + b, |a| + j, kind) == Filter(a, kind) + FilterPrefix(b, j, kind)
  {
    if j == 0 {
      FilterPrefixOfAppend(a, b, |a|, kind);
    } else {
      var e := b[j - 1];
      var tail := if KindOf(e) == kind then [e] else [];
      assert (a + b)[|a| + j - 1] == e;
      assert FilterPrefix(a + b, |a| + j, kind) == FilterPrefix(a + b, |a| + (j - 1), kind) + tail;
      assert FilterPrefix(b, j, kind) == FilterPrefix(b, j - 1, kind) + tail;
      FilterPrefixAppend(a, b, j - 1, kind);
    }
  }

  /** Filtering distributes over concatenation. */
  lemma FilterAppend(a: seq<Event>, b: seq<Event>, kind: Kind)
    ensures Filter(a + b, kind) == Filter(a, kind) + Filter(b, kind)
  {
    FilterPrefixAppend(a, b, |b|, kind);
  }

  /** Filtering a concatenation whose halves filter to x and y gives x + y. */
  lemma FilterStep(a: seq<Event>, b: seq<Event>, kind: Kind, x: seq<Event>, y: seq<Event>)
    requires Filter(a, kind) == x && Filter(b, kind) == y
    ensures Filter(a + b, kind) == x + y
  {
    FilterAppend(a, b, kind);
  }

  lemma FilterSingle(e: Event, kind: Kind)
    ensures Filter([e], kind) == if KindOf(e) == kind then [e] else []
  {
  }
}
