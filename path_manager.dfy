/** The path manager: a polyline with its arc-length index, rebuilt in place by createPath,
    and the loops that query it. Each loop is a method proved equal to the function in
    PathGeometry that specifies it; the class methods delegate to these loops. */
module PathManagerModel {
  import opened Wrappers
  import opened PathGeometry

  /** calculatePathLengths' loop: one length and one start per consecutive pair of points,
      the running total accumulated front to back. */
  method ComputeArcIndex(points: seq<Point>, metric: Metric) returns (lengths: seq<real>, starts: seq<real>, total: real)
    ensures Path(points, lengths, starts, total) == ArcIndex(points, metric)
  {
    ghost var all := SegmentLengths(points, metric);
    lengths := [];
    starts := [];
    total := 0.0;
    var i := 0;
    while i < |points| - 1
      invariant 0 <= i <= SegmentCount(points)
      invariant lengths == all[..i]
      invariant starts == Starts(lengths)
      invariant total == Sum(lengths)
    {
      var segmentLength := metric(points[i], points[i + 1]);
      StartsSnoc(lengths, segmentLength);
      SumSnoc(lengths, segmentLength);
      assert all[..i + 1] == all[..i] + [segmentLength];
      lengths := lengths + [segmentLength];
      starts := starts + [total];
      total := total + segmentLength;
      i := i + 1;
    }
    assert all[..i] == all;
  }

  /** getPositionOnPath's scan: the first segment whose range holds the target distance,
      interpolated; otherwise the fallback point. */
  method PositionOnPath(p: Path, progress: real) returns (pos: Point)
    requires NoZeroSegments(p)
    ensures pos == PositionAt(p, progress)
  {
    var q := Clamp01(progress);
    var targetDistance := q * p.total;
    assert targetDistance == TargetDistance(p, progress);
    var i := 0;
    while i < |p.starts|
      invariant 0 <= i <= |p.starts|
      invariant FirstSegmentFrom(p, targetDistance, 0) == FirstSegmentFrom(p, targetDistance, i)
    {
      if i < |p.lengths| && p.starts[i] <= targetDistance <= p.starts[i] + p.lengths[i] && i + 1 < |p.points| {
        assert FirstSegmentFrom(p, targetDistance, i) == Some(i);
        var segmentProgress := (targetDistance - p.starts[i]) / p.lengths[i];
        return Lerp(p.points[i], p.points[i + 1], segmentProgress);
      }
      i := i + 1;
    }
    assert FirstSegmentFrom(p, targetDistance, i) == None;
    if |p.points| == 0 {
      pos := Origin;
    } else if q < 0.5 {
      pos := p.points[0];
    } else {
      pos := p.points[|p.points| - 1];
    }
  }

  /** getProgressFromPosition's scan over progress i / 100, keeping the first sample of least
      distance; `closestDistance` None stands for the initial Infinity. */
  method NearestProgress(p: Path, metric: Metric, cursor: Point) returns (closestProgress: real)
    requires NoZeroSegments(p)
    ensures closestProgress == ProgressFromPosition(p, metric, cursor)
  {
    closestProgress := 0.0;
    var closestDistance: Option<real> := None;
    ghost var best: nat := 0;
    var i: nat := 0;
    while i <= ProgressSamples
      invariant i <= ProgressSamples + 1
      invariant i == 0 ==> closestDistance.None?
      invariant i > 0 ==> best == NearestSampleUpTo(p, metric, cursor, i - 1)
      invariant i > 0 ==> closestDistance == Some(SampleDistance(p, metric, cursor, best))
      invariant i > 0 ==> closestProgress == SampleProgress(best)
    {
      var progress := (i as real) / 100.0;
      var pathPos := PositionOnPath(p, progress);
      var distance := metric(cursor, pathPos);
      if closestDistance.None? || distance < closestDistance.value {
        closestDistance := Some(distance);
        closestProgress := progress;
        best := i;
      }
      i := i + 1;
    }
  }

  /** One sample of getNextValidProgress's window: its progress and its distance to the cursor. */
  method WindowSample(p: Path, metric: Metric, w: Window, i: nat) returns (progress: real, distance: real)
    requires NoZeroSegments(p)
    ensures progress == WindowProgress(w, i)
    ensures distance == WindowDistance(p, metric, w, i)
  {
    progress := w.current + ((i as real) / 50.0) * (w.lookAhead - w.current);
    assert progress == WindowProgress(w, i);
    var pathPos := PositionOnPath(p, progress);
    distance := metric(w.cursor, pathPos);
  }

  /** The running best of the window scan after one more sample. */
  lemma BestInWindowStep(p: Path, metric: Metric, w: Window, i: nat)
    requires NoZeroSegments(p)
    ensures var b := BestInWindow(p, metric, w, i);
      BestInWindow(p, metric, w, i + 1) ==
        if Qualifies(p, metric, w, i) && (b.None? || WindowDistance(p, metric, w, i) < WindowDistance(p, metric, w, b.value))
        then Some(i) else b
  {
  }

  /** getNextValidProgress's scan over its forward window; `bestDistance` None stands for
      the initial Infinity, and the result is None (null) unless some sample moved the best
      progress past the current one. */
  method NextValid(p: Path, metric: Metric, cursor: Point, currentProgress: real,
                   maxAdvancement: real, tolerance: real) returns (r: Option<real>)
    requires NoZeroSegments(p)
    ensures r == NextValidProgress(p, metric, cursor, currentProgress, maxAdvancement, tolerance)
  {
    var maxLookAhead := Min(currentProgress + maxAdvancement, 1.0);
    var w := Window(cursor, currentProgress, maxLookAhead, tolerance);
    var bestProgress := currentProgress;
    var bestDistance: Option<real> := None;
    ghost var b: Option<nat> := None;
    var i: nat := 0;
    while i <= WindowSamples
      invariant i <= WindowSamples + 1
      invariant b == BestInWindow(p, metric, w, i)
      invariant b.None? ==> bestDistance.None? && bestProgress == currentProgress
      invariant b.Some? ==> bestDistance == Some(WindowDistance(p, metric, w, b.value))
      invariant b.Some? ==> bestProgress == WindowProgress(w, b.value)
    {
      var progress, distance := WindowSample(p, metric, w, i);
      BestInWindowStep(p, metric, w, i);
      if distance <= tolerance && progress > currentProgress && (bestDistance.None? || distance < bestDistance.value) {
        bestDistance := Some(distance);
        bestProgress := progress;
        b := Some(i);
      }
      i := i + 1;
    }
    if bestProgress > currentProgress {
      r := Some(bestProgress);
    } else {
      r := None;
    }
  }

  /** createPath's input: a polyline generated from a centre, a scale and a configuration. */
  class PathManager {
    var pathPoints: seq<Point>
    var pathSegmentLengths: seq<real>
    var pathSegmentStarts: seq<real>
    var totalPathLength: real
    /** Phaser.Math.Distance.Between and the trigonometry of Math. */
    const metric: Metric
    const trig: Trig

    /** The four fields as one indexed path. */
    function Model(): Path
      reads this
    {
      Path(pathPoints, pathSegmentLengths, pathSegmentStarts, totalPathLength)
    }

    /** The index always describes the current points. */
    ghost predicate Valid()
      reads this
    {
      Model() == ArcIndex(pathPoints, metric)
    }

    /** A new manager has no points and an empty index. */
    constructor (metric: Metric, trig: Trig)
      ensures Valid()
      ensures pathPoints == [] && totalPathLength == 0.0
      ensures this.metric == metric && this.trig == trig
    {
      this.metric := metric;
      this.trig := trig;
      pathPoints := [];
      pathSegmentLengths := [];
      pathSegmentStarts := [];
      totalPathLength := 0.0;
    }

    /** createPath: the points are regenerated from the configuration (curved-up of size 100
        when none is given) and the index rebuilt for them. */
    method CreatePath(center: Point, scaleFactor: real, config: Option<PathConfig>)
      modifies this
      ensures pathPoints == GeneratedPoints(center, scaleFactor, config.GetOr(DefaultPathConfig), trig)
      ensures Valid()
    {
      var pathConfig := config.GetOr(DefaultPathConfig);
      pathPoints := GeneratePathPoints(center, scaleFactor, pathConfig);
      CalculatePathLengths();
    }

    /** generatePathPoints: the selected shape around the shifted centre, rotated when the
        rotation is non-zero. */
    method GeneratePathPoints(center: Point, scaleFactor: real, config: PathConfig) returns (points: seq<Point>)
      ensures points == GeneratedPoints(center, scaleFactor, config, trig)
      ensures |points| >= 2
    {
      var placement := Place(center, scaleFactor, config);
      var c, size := placement.centre, placement.size;
      match ShapeOf(config.kind) {
        case CurvedUp => points := CurvedUpPoints(c, size);
        case CurvedDown => points := CurvedDownPoints(c, size);
        case Spiral => points := CreateSpiralPath(c, size);
        case Zigzag => points := CreateZigzagPath(c, size);
        case Circle => points := CreateCirclePath(c, size);
        case StraightLine => points := StraightLinePoints(c, size);
        case SCurve => points := SCurvePoints(c, size);
        case Heart => points := CreateHeartPath(c, size);
      }
      if config.rotation != 0.0 {
        points := Rotate(points, c, config.rotation, trig);
      }
    }

    /** createSpiralPath's loop: 21 samples, two turns, radius growing to `size`. */
    method CreateSpiralPath(c: Point, size: real) returns (points: seq<Point>)
      ensures points == SpiralPoints(c, size, trig)
    {
      points := [];
      var i: nat := 0;
      while i <= SpiralSteps
        invariant i <= SpiralSteps + 1
        invariant |points| == i
        invariant forall j :: 0 <= j < i ==> points[j] == SpiralPoint(c, size, trig, j)
      {
        points := points + [SpiralPoint(c, size, trig, i)];
        i := i + 1;
      }
    }

    /** createZigzagPath's loop: 7 vertices alternating between the two rows. */
    method CreateZigzagPath(c: Point, size: real) returns (points: seq<Point>)
      ensures points == ZigzagPoints(c, size)
    {
      points := [];
      var i: nat := 0;
      while i <= ZigzagSegments
        invariant i <= ZigzagSegments + 1
        invariant |points| == i
        invariant forall j :: 0 <= j < i ==> points[j] == ZigzagPoint(c, size, j)
      {
        points := points + [ZigzagPoint(c, size, i)];
        i := i + 1;
      }
    }

    /** createCirclePath's loop: 17 samples of one full turn. */
    method CreateCirclePath(c: Point, size: real) returns (points: seq<Point>)
      ensures points == CirclePoints(c, size, trig)
    {
      points := [];
      var i: nat := 0;
      while i <= CircleSteps
        invariant i <= CircleSteps + 1
        invariant |points| == i
        invariant forall j :: 0 <= j < i ==> points[j] == CirclePoint(c, size, trig, j)
      {
        points := points + [CirclePoint(c, size, trig, i)];
        i := i + 1;
      }
    }

    /** createHeartPath's loop: 31 samples of the heart curve. */
    method CreateHeartPath(c: Point, size: real) returns (points: seq<Point>)
      ensures points == HeartPoints(c, size, trig)
    {
      points := [];
      var i: nat := 0;
      while i <= HeartSteps
        invariant i <= HeartSteps + 1
        invariant |points| == i
        invariant forall j :: 0 <= j < i ==> points[j] == HeartPoint(c, size, trig, j)
      {
        points := points + [HeartPoint(c, size, trig, i)];
        i := i + 1;
      }
    }

    /** calculatePathLengths: the index is rebuilt for the current points. */
    method CalculatePathLengths()
      modifies this
      ensures pathPoints == old(pathPoints)
      ensures Valid()
    {
      pathSegmentLengths, pathSegmentStarts, totalPathLength := ComputeArcIndex(pathPoints, metric);
    }

    /** getPositionOnPath. */
    method GetPositionOnPath(progress: real) returns (pos: Point)
      requires NoZeroSegments(Model())
      ensures pos == PositionAt(Model(), progress)
    {
      pos := PositionOnPath(Model(), progress);
    }

    /** getProgressFromPosition. */
    method GetProgressFromPosition(cursor: Point) returns (progress: real)
      requires NoZeroSegments(Model())
      ensures progress == ProgressFromPosition(Model(), metric, cursor)
    {
      progress := NearestProgress(Model(), metric, cursor);
    }

    /** getNextValidProgress. */
    method GetNextValidProgress(cursor: Point, currentProgress: real, maxAdvancement: real, tolerance: real)
      returns (r: Option<real>)
      requires NoZeroSegments(Model())
      ensures r == NextValidProgress(Model(), metric, cursor, currentProgress, maxAdvancement, tolerance)
    {
      r := NextValid(Model(), metric, cursor, currentProgress, maxAdvancement, tolerance);
    }

    /** isPositionOnPath. */
    method IsPositionOnPath(cursor: Point, progress: real, tolerance: real) returns (b: bool)
      requires NoZeroSegments(Model())
      ensures b == OnPathAt(Model(), metric, cursor, progress, tolerance)
    {
      var pathPosition := GetPositionOnPath(progress);
      b := metric(cursor, pathPosition) <= tolerance;
    }

    /** getStartPoint: the first point, if any. */
    function GetStartPoint(): (r: Option<Point>)
      reads this
      ensures r.Some? <==> |pathPoints| > 0
      ensures r.Some? ==> r.value == pathPoints[0]
    {
      if |pathPoints| == 0 then None else Some(pathPoints[0])
    }

    /** getEndPoint: the last point, if any. */
    function GetEndPoint(): (r: Option<Point>)
      reads this
      ensures r.Some? <==> |pathPoints| > 0
      ensures r.Some? ==> r.value == pathPoints[|pathPoints| - 1]
    {
      if |pathPoints| == 0 then None else Some(pathPoints[|pathPoints| - 1])
    }
  }

  /** A created path always has a start and an end point, and with segments of positive
      length they are the positions at progress 0 and 1. */
  lemma EndpointsArePositions(m: PathManager)
    requires m.Valid() && |m.pathPoints| >= 2
    requires PositiveSegments(m.Model())
    ensures m.GetStartPoint() == Some(PositionAt(m.Model(), 0.0))
    ensures m.GetEndPoint() == Some(PositionAt(m.Model(), 1.0))
  {
    PositionAtStart(m.pathPoints, m.metric);
    PositionAtEnd(m.pathPoints, m.metric);
  }
}
