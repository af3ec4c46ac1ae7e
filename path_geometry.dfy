/** The path geometry engine as pure functions: the shape generators, the
    arc-length index over a polyline, and the position / progress queries.
    Numbers are reals. The game library's Euclidean distance (a square root) and
    its trigonometry are parameters: `Metric` and `Trig`. */
module PathGeometry {
  import opened Wrappers

  datatype Point = Point(x: real, y: real)

  const Origin: Point := Point(0.0, 0.0)

  /** Phaser.Math.Distance.Between. Nothing about it is assumed unless a lemma says so. */
  type Metric = (Point, Point) -> real

  /** Math.PI, Math.cos and Math.sin. */
  datatype Trig = Trig(pi: real, cos: real -> real, sin: real -> real)

  function Cos(trig: Trig, a: real): real { trig.cos(a) }

  function Sin(trig: Trig, a: real): real { trig.sin(a) }

  function Min(a: real, b: real): real { if a <= b then a else b }

  function Max(a: real, b: real): real { if a >= b then a else b }

  /** Phaser.Math.Linear on both coordinates: (b - a) * t + a. */
  function Lerp(a: Point, b: Point, t: real): (r: Point)
    ensures t == 0.0 ==> r == a
    ensures t == 1.0 ==> r == b
  {
    Point((b.x - a.x) * t + a.x, (b.y - a.y) * t + a.y)
  }

  /** Phaser.Math.Clamp(p, 0, 1). */
  function Clamp01(p: real): (r: real)
    ensures 0.0 <= r <= 1.0
    ensures 0.0 <= p <= 1.0 ==> r == p
    ensures p < 0.0 ==> r == 0.0
    ensures p > 1.0 ==> r == 1.0
  {
    Max(0.0, Min(1.0, p))
  }

  // ---------------------------------------------------------------------------
  // Shapes and their generators
  // ---------------------------------------------------------------------------

  datatype PathType = CurvedUp | CurvedDown | Spiral | Zigzag | Circle | StraightLine | SCurve | Heart

  /** A path configuration. `kind` is None for an undefined type or a tag outside the
      enumeration; `rotation`, `offsetX` and `offsetY` hold 0 where the field is absent,
      which is how `field || 0` reads them. */
  datatype PathConfig = PathConfig(kind: Option<PathType>, size: real, rotation: real, offsetX: real, offsetY: real)

  /** The configuration createPath uses when it is given none: curved-up, size 100. */
  const DefaultPathConfig: PathConfig := PathConfig(Some(CurvedUp), 100.0, 0.0, 0.0, 0.0)

  /** The generator a configuration selects: an unknown or undefined tag means curved-up. */
  function ShapeOf(kind: Option<PathType>): (t: PathType)
    ensures kind.Some? ==> t == kind.value
    ensures kind.None? ==> t == CurvedUp
  {
    kind.GetOr(CurvedUp)
  }

  function CurvedUpPoints(c: Point, s: real): seq<Point> {
    [ Point(c.x - s, c.y + s),
      Point(c.x - s * 0.8, c.y + s * 0.6),
      Point(c.x - s * 0.4, c.y + s * 0.2),
      Point(c.x, c.y - s * 0.2),
      Point(c.x + s * 0.4, c.y - s * 0.6),
      Point(c.x + s * 0.8, c.y - s),
      Point(c.x + s, c.y - s * 1.4) ]
  }

  function CurvedDownPoints(c: Point, s: real): seq<Point> {
    [ Point(c.x - s, c.y - s),
      Point(c.x - s * 0.8, c.y - s * 0.6),
      Point(c.x - s * 0.4, c.y - s * 0.2),
      Point(c.x, c.y + s * 0.2),
      Point(c.x + s * 0.4, c.y + s * 0.6),
      Point(c.x + s * 0.8, c.y + s),
      Point(c.x + s, c.y + s * 1.4) ]
  }

  function StraightLinePoints(c: Point, s: real): seq<Point> {
    [ Point(c.x - s, c.y), Point(c.x + s, c.y) ]
  }

  function SCurvePoints(c: Point, s: real): seq<Point> {
    [ Point(c.x - s, c.y + s),
      Point(c.x - s * 0.5, c.y + s * 0.5),
      Point(c.x, c.y),
      Point(c.x + s * 0.5, c.y - s * 0.5),
      Point(c.x + s, c.y - s) ]
  }

  /** Sample counts of the sampled shapes: i runs over 0..steps inclusive. */
  const ZigzagSegments: nat := 6
  const SpiralSteps: nat := 20
  const CircleSteps: nat := 16
  const HeartSteps: nat := 30

  /** Zigzag vertex i: x sweeps from c.x - s to c.x + s, y alternates between c.y - s/2 and c.y + s/2. */
  function ZigzagPoint(c: Point, s: real, i: nat): Point {
    Point(c.x + ((i as real) / 6.0 - 0.5) * s * 2.0,
          c.y + (if i % 2 == 0 then -s * 0.5 else s * 0.5))
  }

  /** Spiral sample i: two turns, radius growing linearly from 0 to s. */
  function SpiralPoint(c: Point, s: real, trig: Trig, i: nat): Point {
    var angle := (i as real) / 20.0 * 2.0 * trig.pi * 2.0;
    var radius := (i as real) / 20.0 * s;
    Point(c.x + Cos(trig, angle) * radius, c.y + Sin(trig, angle) * radius)
  }

  /** Circle sample i: radius s, one full turn. */
  function CirclePoint(c: Point, s: real, trig: Trig, i: nat): Point {
    var angle := (i as real) / 16.0 * trig.pi * 2.0;
    Point(c.x + Cos(trig, angle) * s, c.y + Sin(trig, angle) * s)
  }

  /** Heart sample i: x = 16 sin^3 t, y = 13 cos t - 5 cos 2t - 2 cos 3t - cos 4t,
      scaled by s / 16 with the y axis flipped. */
  function HeartPoint(c: Point, s: real, trig: Trig, i: nat): Point {
    var t := (i as real) / 30.0 * trig.pi * 2.0;
    var sn := Sin(trig, t);
    var hx := 16.0 * (sn * sn * sn);
    var hy := 13.0 * Cos(trig, t) - 5.0 * Cos(trig, 2.0 * t) - 2.0 * Cos(trig, 3.0 * t) - Cos(trig, 4.0 * t);
    var scale := s / 16.0;
    Point(c.x + hx * scale, c.y - hy * scale)
  }

  function ZigzagPoints(c: Point, s: real): seq<Point> {
    seq(ZigzagSegments + 1, i requires 0 <= i <= ZigzagSegments => ZigzagPoint(c, s, i))
  }

  function SpiralPoints(c: Point, s: real, trig: Trig): seq<Point> {
    seq(SpiralSteps + 1, i requires 0 <= i <= SpiralSteps => SpiralPoint(c, s, trig, i))
  }

  function CirclePoints(c: Point, s: real, trig: Trig): seq<Point> {
    seq(CircleSteps + 1, i requires 0 <= i <= CircleSteps => CirclePoint(c, s, trig, i))
  }

  function HeartPoints(c: Point, s: real, trig: Trig): seq<Point> {
    seq(HeartSteps + 1, i requires 0 <= i <= HeartSteps => HeartPoint(c, s, trig, i))
  }

  /** The generator table: the polyline of one shape around centre c with size s.
      Every shape has at least two points, so a generated path always has a start,
      an end and at least one segment. */
  function ShapePoints(kind: PathType, c: Point, s: real, trig: Trig): (ps: seq<Point>)
    ensures |ps| == match kind
                    case CurvedUp => 7
                    case CurvedDown => 7
                    case Spiral => 21
                    case Zigzag => 7
                    case Circle => 17
                    case StraightLine => 2
                    case SCurve => 5
                    case Heart => 31
    ensures |ps| >= 2
  {
    match kind
    case CurvedUp => CurvedUpPoints(c, s)
    case CurvedDown => CurvedDownPoints(c, s)
    case Spiral => SpiralPoints(c, s, trig)
    case Zigzag => ZigzagPoints(c, s)
    case Circle => CirclePoints(c, s, trig)
    case StraightLine => StraightLinePoints(c, s)
    case SCurve => SCurvePoints(c, s)
    case Heart => HeartPoints(c, s, trig)
  }

  /** One point turned by the angle whose cosine and sine are cs and sn, about c. */
  function RotatePoint(p: Point, c: Point, cs: real, sn: real): Point {
    var dx := p.x - c.x;
    var dy := p.y - c.y;
    Point(c.x + dx * cs - dy * sn, c.y + dx * sn + dy * cs)
  }

  /** rotatePoints: every point turned rigidly about c by `rotation`. */
  function Rotate(ps: seq<Point>, c: Point, rotation: real, trig: Trig): (r: seq<Point>)
    ensures |r| == |ps|
  {
    var cs := Cos(trig, rotation);
    var sn := Sin(trig, rotation);
    seq(|ps|, i requires 0 <= i < |ps| => RotatePoint(ps[i], c, cs, sn))
  }

  /** Where and how large generatePathPoints draws a shape. */
  datatype Placement = Placement(centre: Point, size: real)

  /** The scaling step of generatePathPoints: the size and both offsets are multiplied by the
      scale factor, and the shape is centred on the given centre moved by the scaled offsets. */
  function Place(center: Point, scale: real, config: PathConfig): Placement {
    Placement(Point(center.x + config.offsetX * scale, center.y + config.offsetY * scale), config.size * scale)
  }

  /** The rotation step of generatePathPoints: applied about c only when non-zero. */
  function Oriented(pts: seq<Point>, c: Point, rotation: real, trig: Trig): (r: seq<Point>)
    ensures |r| == |pts|
  {
    if rotation != 0.0 then Rotate(pts, c, rotation, trig) else pts
  }

  /** The selected shape at a placement, rotated about its centre. */
  function Shaped(pl: Placement, config: PathConfig, trig: Trig): (ps: seq<Point>)
    ensures |ps| >= 2
  {
    Oriented(ShapePoints(ShapeOf(config.kind), pl.centre, pl.size, trig), pl.centre, config.rotation, trig)
  }

  /** generatePathPoints: size and offsets scaled, the shape selected (curved-up for an
      unknown tag), and the rotation applied about the shifted centre only when non-zero. */
  function GeneratedPoints(center: Point, scale: real, config: PathConfig, trig: Trig): (ps: seq<Point>)
    ensures |ps| >= 2
  {
    Shaped(Place(center, scale, config), config, trig)
  }

  /** generatePathPoints step by step: the shape of the configured tag (curved-up for a missing
      one) drawn around the centre moved by the scaled offsets, at the scaled size, and turned
      about that centre exactly when the rotation is non-zero. */
  lemma GenerationFollowsConfig(center: Point, scale: real, config: PathConfig, trig: Trig)
    ensures var c := Point(center.x + config.offsetX * scale, center.y + config.offsetY * scale);
            var shape := ShapePoints(ShapeOf(config.kind), c, config.size * scale, trig);
            && (config.rotation == 0.0 ==> GeneratedPoints(center, scale, config, trig) == shape)
            && (config.rotation != 0.0 ==> GeneratedPoints(center, scale, config, trig) == Rotate(shape, c, config.rotation, trig))
  {
    var c := Point(center.x + config.offsetX * scale, center.y + config.offsetY * scale);
    var shape := ShapePoints(ShapeOf(config.kind), c, config.size * scale, trig);
    assert Place(center, scale, config) == Placement(c, config.size * scale);
    assert GeneratedPoints(center, scale, config, trig) == Oriented(shape, c, config.rotation, trig);
  }

  /** createPath without a configuration draws the curved-up shape of size 100, scaled, around
      the centre itself. */
  lemma DefaultPathIsCurvedUp(center: Point, scale: real, trig: Trig)
    ensures GeneratedPoints(center, scale, DefaultPathConfig, trig) == CurvedUpPoints(center, 100.0 * scale)
  {
    assert Place(center, scale, DefaultPathConfig).centre == center;
  }

  /** Rotating by an angle of cosine 1 and sine 0 leaves every point in place. */
  lemma RotateByZeroIsIdentity(ps: seq<Point>, c: Point, trig: Trig)
    requires Cos(trig, 0.0) == 1.0 && Sin(trig, 0.0) == 0.0
    ensures Rotate(ps, c, 0.0, trig) == ps
  {
    var r := Rotate(ps, c, 0.0, trig);
    forall i | 0 <= i < |ps|
      ensures r[i] == ps[i]
    {
      assert r[i] == RotatePoint(ps[i], c, 1.0, 0.0);
    }
  }

  /** Squared distance between two points. */
  function SqDist(p: Point, q: Point): real {
    (p.x - q.x) * (p.x - q.x) + (p.y - q.y) * (p.y - q.y)
  }

  /** A rotation about c keeps each point's distance to c, given cos^2 + sin^2 = 1. */
  lemma RotatePointKeepsRadius(p: Point, c: Point, cs: real, sn: real)
    requires cs * cs + sn * sn == 1.0
    ensures SqDist(RotatePoint(p, c, cs, sn), c) == SqDist(p, c)
  {
    var dx := p.x - c.x;
    var dy := p.y - c.y;
    var q := RotatePoint(p, c, cs, sn);
    assert q.x - c.x == dx * cs - dy * sn;
    assert q.y - c.y == dx * sn + dy * cs;
    calc {
      SqDist(q, c);
      (dx * cs - dy * sn) * (dx * cs - dy * sn) + (dx * sn + dy * cs) * (dx * sn + dy * cs);
      (dx * dx + dy * dy) * (cs * cs + sn * sn);
      dx * dx + dy * dy;
    }
  }

  /** Turning by an angle and then by its opposite restores the point. */
  lemma RotatePointRoundTrip(p: Point, c: Point, cs: real, sn: real)
    requires cs * cs + sn * sn == 1.0
    ensures RotatePoint(RotatePoint(p, c, cs, sn), c, cs, -sn) == p
  {
    var dx := p.x - c.x;
    var dy := p.y - c.y;
    var q := RotatePoint(p, c, cs, sn);
    var ex := dx * cs - dy * sn;
    var ey := dx * sn + dy * cs;
    assert q.x - c.x == ex && q.y - c.y == ey;
    calc {
      ex * cs - ey * (-sn);
      dx * (cs * cs + sn * sn);
      dx;
    }
    calc {
      ex * (-sn) + ey * cs;
      dy * (cs * cs + sn * sn);
      dy;
    }
  }

  /** The trigonometric facts the rotation lemmas rely on, for one angle. */
  predicate TrigLawsAt(trig: Trig, a: real) {
    && Cos(trig, -a) == Cos(trig, a)
    && Sin(trig, -a) == -Sin(trig, a)
    && Cos(trig, a) * Cos(trig, a) + Sin(trig, a) * Sin(trig, a) == 1.0
  }

  /** rotatePoints is rigid: it keeps every point's distance to the centre. */
  lemma RotateKeepsRadii(ps: seq<Point>, c: Point, rotation: real, trig: Trig)
    requires TrigLawsAt(trig, rotation)
    ensures forall i :: 0 <= i < |ps| ==> SqDist(Rotate(ps, c, rotation, trig)[i], c) == SqDist(ps[i], c)
  {
    forall i | 0 <= i < |ps|
      ensures SqDist(Rotate(ps, c, rotation, trig)[i], c) == SqDist(ps[i], c)
    {
      RotatePointKeepsRadius(ps[i], c, Cos(trig, rotation), Sin(trig, rotation));
    }
  }

  /** rotatePoints by -rotation undoes rotatePoints by rotation. */
  lemma RotateRoundTrip(ps: seq<Point>, c: Point, rotation: real, trig: Trig)
    requires TrigLawsAt(trig, rotation)
    ensures Rotate(Rotate(ps, c, rotation, trig), c, -rotation, trig) == ps
  {
    var r := Rotate(ps, c, rotation, trig);
    var back := Rotate(r, c, -rotation, trig);
    forall i | 0 <= i < |ps|
      ensures back[i] == ps[i]
    {
      RotatePointRoundTrip(ps[i], c, Cos(trig, rotation), Sin(trig, rotation));
    }
  }

  /** The spiral starts at its centre (radius 0). */
  lemma SpiralStartsAtCentre(c: Point, s: real, trig: Trig)
    ensures SpiralPoints(c, s, trig)[0] == c
  {
    assert SpiralPoints(c, s, trig)[0] == SpiralPoint(c, s, trig, 0);
  }

  /** The circle is closed when cos and sin agree at 0 and at 2 pi. */
  lemma CircleIsClosed(c: Point, s: real, trig: Trig)
    requires Cos(trig, trig.pi * 2.0) == Cos(trig, 0.0) && Sin(trig, trig.pi * 2.0) == Sin(trig, 0.0)
    ensures CirclePoints(c, s, trig)[CircleSteps] == CirclePoints(c, s, trig)[0]
  {
    var full := trig.pi * 2.0;
    assert (16 as real) / 16.0 * trig.pi * 2.0 == full;
    assert (0 as real) / 16.0 * trig.pi * 2.0 == 0.0;
    assert CirclePoint(c, s, trig, 16) == Point(c.x + Cos(trig, full) * s, c.y + Sin(trig, full) * s);
    assert CirclePoint(c, s, trig, 0) == Point(c.x + Cos(trig, 0.0) * s, c.y + Sin(trig, 0.0) * s);
  }

  /** The zigzag runs from (c.x - s, c.y - s/2) to (c.x + s, c.y - s/2), alternating between
      the two rows on the way. */
  lemma ZigzagShape(c: Point, s: real)
    ensures ZigzagPoints(c, s)[0] == Point(c.x - s, c.y - s * 0.5)
    ensures ZigzagPoints(c, s)[ZigzagSegments] == Point(c.x + s, c.y - s * 0.5)
    ensures forall i :: 0 <= i < ZigzagSegments ==> ZigzagPoints(c, s)[i].y != ZigzagPoints(c, s)[i + 1].y || s == 0.0
  {
    assert ZigzagPoints(c, s)[0] == ZigzagPoint(c, s, 0);
    assert ZigzagPoints(c, s)[ZigzagSegments] == ZigzagPoint(c, s, ZigzagSegments);
  }

  // ---------------------------------------------------------------------------
  // The arc-length index
  // ---------------------------------------------------------------------------

  /** A polyline with its arc-length index: segment lengths, cumulative segment starts and
      the total length (the four fields PathManager keeps). */
  datatype Path = Path(points: seq<Point>, lengths: seq<real>, starts: seq<real>, total: real)

  /** Number of segments of a polyline: max(0, |points| - 1). */
  function SegmentCount(points: seq<Point>): nat {
    if |points| == 0 then 0 else |points| - 1
  }

  function SegmentLengths(points: seq<Point>, metric: Metric): (ls: seq<real>)
    ensures |ls| == SegmentCount(points)
  {
    seq(SegmentCount(points), i requires 0 <= i < SegmentCount(points) => metric(points[i], points[i + 1]))
  }

  /** Sum of a sequence, accumulated front to back as the source's running total is. */
  function Sum(s: seq<real>): real {
    if s == [] then 0.0 else Sum(s[..|s| - 1]) + s[|s| - 1]
  }

  /** Segment i starts where the lengths of segments 0..i-1 add up to. */
  function Starts(ls: seq<real>): (ss: seq<real>)
    ensures |ss| == |ls|
  {
    seq(|ls|, i requires 0 <= i < |ls| => Sum(ls[..i]))
  }

  /** The index calculatePathLengths builds for `points`. */
  function ArcIndex(points: seq<Point>, metric: Metric): Path {
    var ls := SegmentLengths(points, metric);
    Path(points, ls, Starts(ls), Sum(ls))
  }

  lemma SumSnoc(ls: seq<real>, x: real)
    ensures Sum(ls + [x]) == Sum(ls) + x
  {
    assert (ls + [x])[..|ls|] == ls;
  }

  lemma SumPrefixStep(ls: seq<real>, i: nat)
    requires i < |ls|
    ensures Sum(ls[..i + 1]) == Sum(ls[..i]) + ls[i]
  {
    assert ls[..i + 1] == ls[..i] + [ls[i]];
    SumSnoc(ls[..i], ls[i]);
  }

  lemma StartsSnoc(ls: seq<real>, x: real)
    ensures Starts(ls + [x]) == Starts(ls) + [Sum(ls)]
  {
    var l := ls + [x];
    forall i | 0 <= i < |ls|
      ensures Starts(l)[i] == Starts(ls)[i]
    {
      assert l[..i] == ls[..i];
    }
    assert l[..|ls|] == ls;
  }

  /** The cumulative-sum invariant of the index: the first segment starts at 0, each
      segment starts where the previous one ends, and the last one ends at the total. */
  lemma {:induction false} IndexIsCumulative(points: seq<Point>, metric: Metric, i: nat)
    requires i < SegmentCount(points)
    ensures var p := ArcIndex(points, metric);
      && |p.lengths| == |p.starts| == SegmentCount(points)
      && p.starts[0] == 0.0
      && (i + 1 < |p.starts| ==> p.starts[i] + p.lengths[i] == p.starts[i + 1])
      && (i + 1 == |p.starts| ==> p.starts[i] + p.lengths[i] == p.total)
  {
    var ls := SegmentLengths(points, metric);
    assert ls[..0] == [];
    SumPrefixStep(ls, i);
    assert ls[..|ls|] == ls;
  }

  /** With every segment of positive length, a later prefix of the lengths sums to strictly more. */
  lemma {:induction false} PrefixSumsIncrease(ls: seq<real>, i: nat, j: nat)
    requires forall k :: 0 <= k < |ls| ==> ls[k] > 0.0
    requires i < j <= |ls|
    ensures Sum(ls[..i]) < Sum(ls[..j])
  {
    SumPrefixStep(ls, j - 1);
    if i < j - 1 {
      PrefixSumsIncrease(ls, i, j - 1);
    }
  }

  /** Every segment other than the last ends strictly before the total length. */
  lemma SegmentEndsBeforeTotal(ls: seq<real>, k: nat)
    requires forall j :: 0 <= j < |ls| ==> ls[j] > 0.0
    requires k + 1 < |ls|
    ensures Starts(ls)[k] + ls[k] < Sum(ls)
  {
    SumPrefixStep(ls, k);
    PrefixSumsIncrease(ls, k + 1, |ls|);
    assert ls[..|ls|] == ls;
  }

  /** A distance that is positive between distinct points, as the Euclidean distance is. */
  ghost predicate Separates(metric: Metric) {
    forall a: Point, b: Point :: a != b ==> metric(a, b) > 0.0
  }

  /** No two consecutive vertices of the polyline coincide. */
  predicate NoRepeatedVertex(points: seq<Point>) {
    forall i :: 0 <= i < |points| - 1 ==> points[i] != points[i + 1]
  }

  /** Under a separating distance, a polyline without repeated consecutive vertices has an
      index of positive segment lengths. */
  lemma DistinctVerticesGivePositiveSegments(points: seq<Point>, metric: Metric)
    requires Separates(metric) && NoRepeatedVertex(points)
    ensures PositiveSegments(ArcIndex(points, metric))
  {
    var p := ArcIndex(points, metric);
    forall k | 0 <= k < |p.lengths|
      ensures p.lengths[k] > 0.0
    {
      assert points[k] != points[k + 1];
    }
  }

  /** A curved-up path of positive size repeats no vertex: its x coordinates strictly increase. */
  lemma CurvedUpHasNoRepeatedVertex(c: Point, s: real)
    requires s > 0.0
    ensures NoRepeatedVertex(CurvedUpPoints(c, s))
  {
    var ps := CurvedUpPoints(c, s);
    forall i | 0 <= i < |ps| - 1
      ensures ps[i] != ps[i + 1]
    {
      assert ps[i].x < ps[i + 1].x;
    }
  }

  // ---------------------------------------------------------------------------
  // Position at a progress value
  // ---------------------------------------------------------------------------

  /** The segment test of getPositionOnPath: the entries exist and the target distance lies
      in [start, start + length]; a segment without its two end points is skipped. */
  predicate OnSegment(p: Path, d: real, k: nat) {
    && k < |p.starts|
    && k < |p.lengths|
    && k + 1 < |p.points|
    && p.starts[k] <= d <= p.starts[k] + p.lengths[k]
  }

  /** The first segment at or after i that contains distance d, scanning in order. */
  function FirstSegmentFrom(p: Path, d: real, i: nat): (r: Option<nat>)
    decreases |p.starts| - i
    ensures r.Some? ==> i <= r.value && OnSegment(p, d, r.value)
    ensures r.Some? ==> forall j :: i <= j < r.value ==> !OnSegment(p, d, j)
    ensures r.None? ==> forall j :: i <= j ==> !OnSegment(p, d, j)
  {
    if i >= |p.starts| then None
    else if OnSegment(p, d, i) then Some(i)
    else FirstSegmentFrom(p, d, i + 1)
  }

  /** A zero-length segment makes getPositionOnPath divide 0 by 0; the model excludes it. */
  predicate NoZeroSegments(p: Path) {
    forall k :: 0 <= k < |p.lengths| ==> p.lengths[k] != 0.0
  }

  /** Every segment has positive length (true of the index of a polyline without repeated
      consecutive points under a distance). */
  predicate PositiveSegments(p: Path) {
    forall k :: 0 <= k < |p.lengths| ==> p.lengths[k] > 0.0
  }

  /** The fallback of getPositionOnPath: first point below one half, else the last point,
      the origin when there are no points. */
  function Fallback(points: seq<Point>, q: real): Point {
    if |points| == 0 then Origin
    else if q < 0.5 then points[0]
    else points[|points| - 1]
  }

  /** getPositionOnPath: the point at fractional arc length `progress` (clamped to [0,1]). */
  function PositionAt(p: Path, progress: real): Point
    requires NoZeroSegments(p)
  {
    var d := TargetDistance(p, progress);
    match FirstSegmentFrom(p, d, 0)
    case Some(k) => Lerp(p.points[k], p.points[k + 1], (d - p.starts[k]) / p.lengths[k])
    case None => Fallback(p.points, Clamp01(progress))
  }

  /** The distance along the path that getPositionOnPath looks for. */
  function TargetDistance(p: Path, progress: real): real {
    Clamp01(progress) * p.total
  }

  /** The scan finds segment k when k holds distance d and no segment from i up to k does. */
  lemma {:induction false} FirstSegmentFound(p: Path, d: real, i: nat, k: nat)
    requires i <= k && OnSegment(p, d, k)
    requires forall j :: i <= j < k ==> !OnSegment(p, d, j)
    ensures FirstSegmentFrom(p, d, i) == Some(k)
    decreases k - i
  {
    if i < k {
      FirstSegmentFound(p, d, i + 1, k);
    }
  }

  /** The scan finds nothing when no segment from i on holds distance d. */
  lemma {:induction false} FirstSegmentAbsent(p: Path, d: real, i: nat)
    requires forall j :: i <= j ==> !OnSegment(p, d, j)
    ensures FirstSegmentFrom(p, d, i) == None
    decreases |p.starts| - i
  {
    if i < |p.starts| {
      FirstSegmentAbsent(p, d, i + 1);
    }
  }

  /** (d - s) / len lies in [0,1] when s <= d <= s + len and len > 0. */
  lemma SegmentParameterInUnit(d: real, s: real, len: real)
    requires len > 0.0 && s <= d <= s + len
    ensures 0.0 <= (d - s) / len <= 1.0
  {
    var t := (d - s) / len;
    assert t * len == d - s;
    assert (1.0 - t) * len == s + len - d;
  }

  /** When segment k is the first whose range holds the target distance, the position is the
      interpolation between its end points at a parameter in [0,1]. */
  lemma PositionOnFirstSegment(p: Path, progress: real, k: nat)
    requires PositiveSegments(p)
    requires OnSegment(p, TargetDistance(p, progress), k)
    requires forall j :: 0 <= j < k ==> !OnSegment(p, TargetDistance(p, progress), j)
    ensures var t := (TargetDistance(p, progress) - p.starts[k]) / p.lengths[k];
      && 0.0 <= t <= 1.0
      && PositionAt(p, progress) == Lerp(p.points[k], p.points[k + 1], t)
  {
    var d := TargetDistance(p, progress);
    FirstSegmentFound(p, d, 0, k);
    SegmentParameterInUnit(d, p.starts[k], p.lengths[k]);
  }

  /** A distance between the start of segment k and the total length lies on segment k or a
      later one: a segment either holds it or ends before it, and then the next one starts
      before it; the last segment ends at the total. */
  lemma {:induction false} SegmentHoldsDistanceFrom(points: seq<Point>, metric: Metric, d: real, k: nat)
    requires k < SegmentCount(points)
    requires ArcIndex(points, metric).starts[k] <= d <= ArcIndex(points, metric).total
    ensures exists j :: k <= j && OnSegment(ArcIndex(points, metric), d, j)
    decreases SegmentCount(points) - k
  {
    var p := ArcIndex(points, metric);
    IndexIsCumulative(points, metric, k);
    if d <= p.starts[k] + p.lengths[k] {
      assert OnSegment(p, d, k);
    } else {
      assert k + 1 < |p.starts|;
      SegmentHoldsDistanceFrom(points, metric, d, k + 1);
    }
  }

  /** On an index of two or more points with positive segments, every progress value finds a
      segment: getPositionOnPath never reaches its fallback, and the position is the
      interpolation on the first segment holding the target distance, at a parameter in
      [0,1]. */
  lemma PositionIsOnFirstSegment(points: seq<Point>, metric: Metric, progress: real)
    requires |points| >= 2
    requires PositiveSegments(ArcIndex(points, metric))
    ensures var p := ArcIndex(points, metric);
      var d := TargetDistance(p, progress);
      && FirstSegmentFrom(p, d, 0).Some?
      && var k := FirstSegmentFrom(p, d, 0).value;
         var t := (d - p.starts[k]) / p.lengths[k];
         && 0.0 <= t <= 1.0
         && PositionAt(p, progress) == Lerp(p.points[k], p.points[k + 1], t)
  {
    var p := ArcIndex(points, metric);
    FirstSegmentExists(points, metric, progress);
    PositionOnFirstSegment(p, progress, FirstSegmentFrom(p, TargetDistance(p, progress), 0).value);
  }

  /** The scan of getPositionOnPath finds a segment for every progress value on an index of
      two or more points with positive segments. */
  lemma FirstSegmentExists(points: seq<Point>, metric: Metric, progress: real)
    requires |points| >= 2
    requires PositiveSegments(ArcIndex(points, metric))
    ensures var p := ArcIndex(points, metric);
      FirstSegmentFrom(p, TargetDistance(p, progress), 0).Some?
  {
    var p := ArcIndex(points, metric);
    var d := TargetDistance(p, progress);
    IndexIsCumulative(points, metric, 0);
    TotalIsPositive(p.lengths);
    TargetWithinTotal(p, progress);
    SegmentHoldsDistanceFrom(points, metric, d, 0);
  }

  /** Positive lengths add up to a positive total. */
  lemma TotalIsPositive(ls: seq<real>)
    requires |ls| > 0
    requires forall k :: 0 <= k < |ls| ==> ls[k] > 0.0
    ensures Sum(ls) > 0.0
  {
    assert ls[..0] == [] && ls[..|ls|] == ls;
    PrefixSumsIncrease(ls, 0, |ls|);
  }

  /** The target distance of any progress lies between 0 and a non-negative total. */
  lemma TargetWithinTotal(p: Path, progress: real)
    requires p.total >= 0.0
    ensures 0.0 <= TargetDistance(p, progress) <= p.total
  {
    var c := Clamp01(progress);
    assert p.total - c * p.total == (1.0 - c) * p.total;
  }

  /** With no segment containing the target distance, the position is the fallback point;
      in particular an empty index gives the origin, the first point, or the last point. */
  lemma PositionWithoutSegment(p: Path, progress: real)
    requires NoZeroSegments(p)
    requires forall j :: !OnSegment(p, TargetDistance(p, progress), j)
    ensures |p.points| == 0 ==> PositionAt(p, progress) == Origin
    ensures |p.points| > 0 && Clamp01(progress) < 0.5 ==> PositionAt(p, progress) == p.points[0]
    ensures |p.points| > 0 && Clamp01(progress) >= 0.5 ==> PositionAt(p, progress) == p.points[|p.points| - 1]
  {
    FirstSegmentAbsent(p, TargetDistance(p, progress), 0);
  }

  /** Progress 0 is the first point of a non-degenerate indexed path. */
  lemma PositionAtStart(points: seq<Point>, metric: Metric)
    requires |points| >= 2
    requires PositiveSegments(ArcIndex(points, metric))
    ensures PositionAt(ArcIndex(points, metric), 0.0) == points[0]
  {
    var p := ArcIndex(points, metric);
    IndexIsCumulative(points, metric, 0);
    assert TargetDistance(p, 0.0) == 0.0;
    FirstSegmentFound(p, 0.0, 0, 0);
  }

  lemma DivSelf(x: real)
    requires x > 0.0
    ensures x / x == 1.0
  {
  }

  /** Progress 1 is the last point of a non-degenerate indexed path. */
  lemma PositionAtEnd(points: seq<Point>, metric: Metric)
    requires |points| >= 2
    requires PositiveSegments(ArcIndex(points, metric))
    ensures PositionAt(ArcIndex(points, metric), 1.0) == points[|points| - 1]
  {
    var p := ArcIndex(points, metric);
    var last := |p.starts| - 1;
    IndexIsCumulative(points, metric, last);
    var d := TargetDistance(p, 1.0);
    assert d == p.total;
    forall j | 0 <= j < last
      ensures !OnSegment(p, d, j)
    {
      SegmentEndsBeforeTotal(p.lengths, j);
    }
    FirstSegmentFound(p, d, 0, last);
    assert d - p.starts[last] == p.lengths[last];
    DivSelf(p.lengths[last]);
  }

  // ---------------------------------------------------------------------------
  // Progress nearest to a point: getProgressFromPosition
  // ---------------------------------------------------------------------------

  /** getProgressFromPosition samples progress i / 100 for i = 0..100. */
  const ProgressSamples: nat := 100

  function SampleProgress(i: nat): real {
    (i as real) / 100.0
  }

  function SampleDistance(p: Path, metric: Metric, cursor: Point, i: nat): real
    requires NoZeroSegments(p)
  {
    metric(cursor, PositionAt(p, SampleProgress(i)))
  }

  /** The running minimum after samples 0..n: the sample of least distance, the earliest
      one on ties (the scan replaces its best only on a strictly smaller distance). */
  function NearestSampleUpTo(p: Path, metric: Metric, cursor: Point, n: nat): (k: nat)
    requires NoZeroSegments(p)
    ensures k <= n
    ensures forall j :: 0 <= j <= n ==> SampleDistance(p, metric, cursor, k) <= SampleDistance(p, metric, cursor, j)
    ensures forall j :: 0 <= j < k ==> SampleDistance(p, metric, cursor, j) > SampleDistance(p, metric, cursor, k)
  {
    if n == 0 then 0
    else
      var b := NearestSampleUpTo(p, metric, cursor, n - 1);
      if SampleDistance(p, metric, cursor, n) < SampleDistance(p, metric, cursor, b) then n else b
  }

  /** getProgressFromPosition. */
  function ProgressFromPosition(p: Path, metric: Metric, cursor: Point): real
    requires NoZeroSegments(p)
  {
    SampleProgress(NearestSampleUpTo(p, metric, cursor, ProgressSamples))
  }

  /** The result is a grid value i / 100 in [0,1] whose position is no farther from the
      cursor than any other sample's, and every earlier sample is strictly farther. */
  lemma NearestProgressIsFirstClosestSample(p: Path, metric: Metric, cursor: Point)
    requires NoZeroSegments(p)
    ensures 0.0 <= ProgressFromPosition(p, metric, cursor) <= 1.0
    ensures exists i :: (0 <= i <= ProgressSamples
                         && ProgressFromPosition(p, metric, cursor) == SampleProgress(i)
                         && (forall j :: 0 <= j <= ProgressSamples ==> SampleDistance(p, metric, cursor, i) <= SampleDistance(p, metric, cursor, j))
                         && (forall j :: 0 <= j < i ==> SampleDistance(p, metric, cursor, j) > SampleDistance(p, metric, cursor, i)))
  {
    var k := NearestSampleUpTo(p, metric, cursor, ProgressSamples);
    assert ProgressFromPosition(p, metric, cursor) == SampleProgress(k);
  }

  // ---------------------------------------------------------------------------
  // Forward window search: getNextValidProgress
  // ---------------------------------------------------------------------------

  /** getNextValidProgress samples its window at i / 50 for i = 0..50. */
  const WindowSamples: nat := 50

  /** One forward-window query: cursor, current progress, window end and tolerance. */
  datatype Window = Window(cursor: Point, current: real, lookAhead: real, tolerance: real)

  /** The end of the window: min(current + maxAdvancement, 1). */
  function LookAhead(current: real, maxAdvancement: real): real {
    Min(current + maxAdvancement, 1.0)
  }

  function WindowProgress(w: Window, i: nat): real {
    w.current + ((i as real) / 50.0) * (w.lookAhead - w.current)
  }

  function WindowDistance(p: Path, metric: Metric, w: Window, i: nat): real
    requires NoZeroSegments(p)
  {
    metric(w.cursor, PositionAt(p, WindowProgress(w, i)))
  }

  /** A sample qualifies when it is within tolerance and strictly ahead of the current progress. */
  predicate Qualifies(p: Path, metric: Metric, w: Window, i: nat)
    requires NoZeroSegments(p)
  {
    WindowDistance(p, metric, w, i) <= w.tolerance && WindowProgress(w, i) > w.current
  }

  /** The running best after samples 0..n-1: the qualifying sample of least distance, the
      earliest on ties, None when none qualifies. */
  function BestInWindow(p: Path, metric: Metric, w: Window, n: nat): (r: Option<nat>)
    requires NoZeroSegments(p)
    ensures r.Some? ==> r.value < n && Qualifies(p, metric, w, r.value)
    ensures r.Some? ==> forall j :: 0 <= j < n && Qualifies(p, metric, w, j) ==>
      WindowDistance(p, metric, w, r.value) <= WindowDistance(p, metric, w, j)
    ensures r.Some? ==> forall j :: 0 <= j < r.value && Qualifies(p, metric, w, j) ==>
      WindowDistance(p, metric, w, j) > WindowDistance(p, metric, w, r.value)
    ensures r.None? ==> forall j :: 0 <= j < n ==> !Qualifies(p, metric, w, j)
  {
    if n == 0 then None
    else
      var b := BestInWindow(p, metric, w, n - 1);
      if Qualifies(p, metric, w, n - 1) &&
         (b.None? || WindowDistance(p, metric, w, n - 1) < WindowDistance(p, metric, w, b.value))
      then Some(n - 1)
      else b
  }

  /** getNextValidProgress: the best qualifying sample's progress, or None (null). */
  function NextValidProgress(p: Path, metric: Metric, cursor: Point, current: real,
                             maxAdvancement: real, tolerance: real): Option<real>
    requires NoZeroSegments(p)
  {
    var w := Window(cursor, current, LookAhead(current, maxAdvancement), tolerance);
    match BestInWindow(p, metric, w, WindowSamples + 1)
    case Some(k) => Some(WindowProgress(w, k))
    case None => None
  }

  /** isPositionOnPath. */
  predicate OnPathAt(p: Path, metric: Metric, cursor: Point, progress: real, tolerance: real)
    requires NoZeroSegments(p)
  {
    metric(cursor, PositionAt(p, progress)) <= tolerance
  }

  /** A window sample strictly ahead of the current progress lies no further than the window end. */
  lemma WindowSampleBounds(w: Window, i: nat)
    requires i <= WindowSamples
    requires WindowProgress(w, i) > w.current
    ensures WindowProgress(w, i) <= w.lookAhead
  {
    var t := (i as real) / 50.0;
    var span := w.lookAhead - w.current;
    assert 0.0 <= t <= 1.0;
    assert WindowProgress(w, i) == w.current + t * span;
    PositiveProductFactor(t, span);
    ScaleDownByUnit(t, span);
  }

  /** A product with a non-negative left factor is positive only if the right one is. */
  lemma PositiveProductFactor(t: real, x: real)
    requires t >= 0.0 && t * x > 0.0
    ensures x > 0.0
  {
  }

  /** Scaling a non-negative value by a factor in [0,1] does not increase it. */
  lemma ScaleDownByUnit(t: real, x: real)
    requires 0.0 <= t <= 1.0 && x >= 0.0
    ensures t * x <= x
  {
    assert (1.0 - t) * x >= 0.0;
  }

  /** When the window does not extend past the current progress, no sample is ahead of it. */
  lemma WindowSampleNotAhead(w: Window, i: nat)
    requires i <= WindowSamples
    requires w.lookAhead <= w.current
    ensures WindowProgress(w, i) <= w.current
  {
    var t := (i as real) / 50.0;
    var span := w.lookAhead - w.current;
    assert WindowProgress(w, i) == w.current + t * span;
    NonPositiveProduct(t, span);
  }

  /** A non-negative factor times a non-positive one is non-positive. */
  lemma NonPositiveProduct(t: real, x: real)
    requires t >= 0.0 && x <= 0.0
    ensures t * x <= 0.0
  {
    assert t * -x >= 0.0;
  }

  /** A returned progress is strictly ahead, within the window and within tolerance of the
      cursor; and nothing is returned once the current progress has reached 1. */
  lemma NextValidProgressSpec(p: Path, metric: Metric, cursor: Point, current: real,
                              maxAdvancement: real, tolerance: real)
    requires NoZeroSegments(p)
    ensures var r := NextValidProgress(p, metric, cursor, current, maxAdvancement, tolerance);
      && (r.Some? ==> current < r.value <= Min(current + maxAdvancement, 1.0))
      && (r.Some? ==> OnPathAt(p, metric, cursor, r.value, tolerance))
      && (current >= 1.0 ==> r.None?)
  {
    var w := Window(cursor, current, LookAhead(current, maxAdvancement), tolerance);
    var b := BestInWindow(p, metric, w, WindowSamples + 1);
    if b.Some? {
      WindowSampleBounds(w, b.value);
    }
    if current >= 1.0 {
      forall i | 0 <= i <= WindowSamples
        ensures !Qualifies(p, metric, w, i)
      {
        WindowSampleNotAhead(w, i);
      }
    }
  }
}
