/**
 From a camera-image foot point to the floor plan and its grids
 (`project_foot_to_plan`, `project_foot_to_cell`, `_invert_3x3`, `_clamp_cell`).
 */
module Projection {
  import opened Geometry
  import opened Options

  const GRID_SIZE := 48
  const FLOW_GRID := 12
  const DEFAULT_PLAN_SIZE := 20.0
  const FALLBACK_RADIUS_FRAC := 0.28
  const SINGULAR_DET := 0.000000000001
  const HORIZON_W := 0.000000001
  const EDGE_INSET := 0.001

  datatype Matrix = Matrix(
    a: real, b: real, c: real,
    d: real, e: real, f: real,
    g: real, h: real, i: real)
  {
    function Det(): real {
      a * (e * i - f * h) - b * (d * i - f * g) + c * (d * h - e * g)
    }

    /** Third homogeneous coordinate of the image of (x, y). */
    function W(x: real, y: real): real {
      g * x + h * y + i
    }

    function X(x: real, y: real): real {
      a * x + b * y + c
    }

    function Y(x: real, y: real): real {
      d * x + e * y + f
    }
  }

  /** What the stored plan may hold in each place, good or not. */
  datatype Calibration = Uncalibrated | BadMatrix | Calibrated(m: Matrix)
  datatype Placement = NotPlaced | BadPlacement | PlacedAt(p: Point)
  datatype PlanSize = NoSize | BadSize | Size(sx: real, sy: real)
  datatype PlanCamera = PlanCamera(id: string, homography: Calibration, k1: real, pos: Placement)
  datatype Plan = Plan(size: PlanSize, cameras: seq<PlanCamera>)
  datatype OnPlan = OnPlan(p: Point, size: Point)

  function FindCamera(cams: seq<PlanCamera>, id: string): (r: Option<PlanCamera>)
    ensures r.Some? ==> exists i :: FirstWithId(cams, id, i) && cams[i] == r.value
    ensures r.Some? ==> r.value in cams && r.value.id == id
    ensures r.None? <==> forall c :: c in cams ==> c.id != id
  {
    if cams == [] then None
    else if cams[0].id == id then
      assert FirstWithId(cams, id, 0);
      Some(cams[0])
    else
      var r := FindCamera(cams[1..], id);
      assert r.Some? ==> exists i :: FirstWithId(cams, id, i) && cams[i] == r.value by { FirstLater(cams, id, r); }
      r
  }

  ghost predicate FirstWithId(cams: seq<PlanCamera>, id: string, i: int) {
    0 <= i < |cams| && cams[i].id == id && forall j :: 0 <= j < i ==> cams[j].id != id
  }

  lemma FirstLater(cams: seq<PlanCamera>, id: string, r: Option<PlanCamera>)
    requires cams != [] && cams[0].id != id
    requires r.Some? ==> exists i :: FirstWithId(cams[1..], id, i) && cams[1..][i] == r.value
    ensures r.Some? ==> exists i :: FirstWithId(cams, id, i) && cams[i] == r.value
  {
    if r.Some? {
      var i :| FirstWithId(cams[1..], id, i) && cams[1..][i] == r.value;
      assert forall j :: 0 < j <= i ==> cams[j] == cams[1..][j - 1];
      assert FirstWithId(cams, id, i + 1);
    }
  }

  /** The adjugate, each entry scaled by s. */
  function ScaledAdjugate(m: Matrix, s: real): Matrix {
    Matrix(
      (m.e * m.i - m.f * m.h) * s, (m.c * m.h - m.b * m.i) * s, (m.b * m.f - m.c * m.e) * s,
      (m.f * m.g - m.d * m.i) * s, (m.a * m.i - m.c * m.g) * s, (m.c * m.d - m.a * m.f) * s,
      (m.d * m.h - m.e * m.g) * s, (m.b * m.g - m.a * m.h) * s, (m.a * m.e - m.b * m.d) * s)
  }

  function Invert(m: Matrix): Option<Matrix> {
    if Abs(m.Det()) < SINGULAR_DET then None else Some(ScaledAdjugate(m, 1.0 / m.Det()))
  }

  /** Undo the lens distortion recorded with the calibration. */
  function Undistort(k1: real, foot: Point): Point {
    var dx, dy := foot.x - 0.5, foot.y - 0.5;
    var s := 1.0 + k1 * (dx * dx + dy * dy);
    if k1 == 0.0 then foot else Point(0.5 + dx * s, 0.5 + dy * s)
  }

  function Apply(m: Matrix, p: Point): (r: Option<Point>) {
    var w := m.W(p.x, p.y);
    if Abs(w) < HORIZON_W then None else Some(Point(m.X(p.x, p.y) / w, m.Y(p.x, p.y) / w))
  }

  function Min(a: real, b: real): real { if b < a then b else a }
  function Max(a: real, b: real): real { if b > a then b else a }

  function ClipTo(v: real, size: real): real {
    Min(size - EDGE_INSET, Max(0.0, v))
  }

  function SizeOf(size: PlanSize): Option<Point> {
    match size
    case NoSize => Some(Point(DEFAULT_PLAN_SIZE, DEFAULT_PLAN_SIZE))
    case BadSize => None
    case Size(sx, sy) => if sx <= 0.0 || sy <= 0.0 then None else Some(Point(sx, sy))
  }

  /** The point before it is checked against the plan's bounds. */
  function Locate(cam: PlanCamera, size: Point, foot: Point): Option<Point> {
    match cam.homography
    case BadMatrix => None
    case Calibrated(m) =>
      (match Invert(m)
       case None => None
       case Some(inv) => Apply(inv, Undistort(cam.k1, foot)))
    case Uncalibrated =>
      var radius := FALLBACK_RADIUS_FRAC * Min(size.x, size.y);
      match cam.pos
      case BadPlacement => None
      case NotPlaced => Some(Point(size.x / 2.0 + (foot.x - 0.5) * radius, size.y / 2.0 + (foot.y - 0.5) * radius))
      case PlacedAt(q) => Some(Point(q.x + (foot.x - 0.5) * radius, q.y + (foot.y - 0.5) * radius))
  }

  predicate NearPlan(p: Point, size: Point) {
    var margin := 0.05 * Min(size.x, size.y);
    -margin <= p.x <= size.x + margin && -margin <= p.y <= size.y + margin
  }

  function Project(plan: Option<Plan>, camera: string, foot: Point, clip: bool): (r: Option<OnPlan>)
    ensures r.Some? ==> r.value.size.x > 0.0 && r.value.size.y > 0.0
    ensures r.Some? ==> r.value.p.x <= r.value.size.x - 0.001 && r.value.p.y <= r.value.size.y - 0.001
  {
    if plan.None? then None
    else
      match SizeOf(plan.value.size)
      case None => None
      case Some(size) =>
        match FindCamera(plan.value.cameras, camera)
        case None => None
        case Some(cam) =>
          match Locate(cam, size, foot)
          case None => None
          case Some(p) =>
            if !clip && !NearPlan(p, size) then None
            else Some(OnPlan(Point(ClipTo(p.x, size.x), ClipTo(p.y, size.y)), size))
  }

  /** int(v) of the source: truncation towards zero. */
  function Trunc(v: real): int {
    if v < 0.0 then -((-v).Floor) else v.Floor
  }

  /** The cell holding x on an axis of n unit cells, out-of-range values going to the end cells. */
  function CellAt(x: real, n: nat): (c: nat)
    requires n > 0
    ensures c < n
    ensures 0.0 <= x < n as real ==> c as real <= x < c as real + 1.0
    ensures x < 0.0 ==> c == 0
    ensures x >= n as real ==> c == n - 1
  {
    var i := Trunc(x);
    if i < 0 then 0 else if i > n - 1 then n - 1 else i
  }

  /** The index of v on an n-cell axis over [0, 1). */
  function CellIndex(v: real, n: nat): (c: nat)
    requires n > 0
    ensures c < n
    ensures 0.0 <= v < 1.0 ==> c as real <= v * n as real < c as real + 1.0
    ensures v < 0.0 ==> c == 0
    ensures v >= 1.0 ==> c == n - 1
  {
    CellOrder(v, n as real);
    CellAt(v * n as real, n)
  }

  lemma CellOrder(v: real, n: real)
    requires n > 0.0
    ensures v < 0.0 ==> v * n < 0.0
    ensures 0.0 <= v < 1.0 ==> 0.0 <= v * n < n
    ensures v >= 1.0 ==> v * n >= n
  {
    ProductOrder(v, 1.0, n);
    ProductOrder(v, 0.0, n);
  }

  function ClampCell(v: real): nat {
    CellIndex(v, GRID_SIZE)
  }

  function ProjectToCell(plan: Option<Plan>, camera: string, foot: Point): (r: Option<(nat, nat)>)
    ensures r.Some? ==> r.value.0 < 48 && r.value.1 < 48
  {
    match Project(plan, camera, foot, true)
    case None => None
    case Some(q) => Some((ClampCell(q.p.x / q.size.x), ClampCell(q.p.y / q.size.y)))
  }

  /** Row-major index of the coarse movement cell. */
  function FlowCell(q: OnPlan): (c: nat)
    requires q.size.x > 0.0 && q.size.y > 0.0
    ensures c < FLOW_GRID * FLOW_GRID
  {
    CellIndex(q.p.y / q.size.y, FLOW_GRID) * FLOW_GRID + CellIndex(q.p.x / q.size.x, FLOW_GRID)
  }

  /** Two coarse cells within a two-cell king's move: not a tracking teleport. */
  predicate FlowAdjacent(a: nat, b: nat) {
    var ax, ay := a % FLOW_GRID, a / FLOW_GRID;
    var bx, by_ := b % FLOW_GRID, b / FLOW_GRID;
    -2 <= ax - bx <= 2 && -2 <= ay - by_ <= 2
  }

  // ---- undoing the homography ---------------------------------------------------------------

  /** Row (p, q, r) times the three columns of m gives (x, y, z). */
  ghost predicate RowTimes(p: real, q: real, r: real, m: Matrix, x: real, y: real, z: real) {
    && p * m.a + q * m.d + r * m.g == x
    && p * m.b + q * m.e + r * m.h == y
    && p * m.c + q * m.f + r * m.i == z
  }

  // The adjugate times the matrix is the determinant times the identity, row by row.

  lemma AdjugateRow1(m: Matrix)
    ensures RowTimes(m.e * m.i - m.f * m.h, m.c * m.h - m.b * m.i, m.b * m.f - m.c * m.e, m, m.Det(), 0.0, 0.0)
  {
  }

  lemma AdjugateRow2(m: Matrix)
    ensures RowTimes(m.f * m.g - m.d * m.i, m.a * m.i - m.c * m.g, m.c * m.d - m.a * m.f, m, 0.0, m.Det(), 0.0)
  {
  }

  lemma AdjugateRow3(m: Matrix)
    ensures RowTimes(m.d * m.h - m.e * m.g, m.b * m.g - m.a * m.h, m.a * m.e - m.b * m.d, m, 0.0, 0.0, m.Det())
  {
  }

  /** (p', q', r') is (p, q, r) scaled by s, and so is what it makes of m. */
  lemma ScaledRow(s: real, p: real, q: real, r: real, m: Matrix, x: real, y: real, z: real,
                  p': real, q': real, r': real, x': real, y': real, z': real)
    requires RowTimes(p, q, r, m, x, y, z)
    requires p' == p * s && q' == q * s && r' == r * s
    requires x' == s * x && y' == s * y && z' == s * z
    ensures RowTimes(p', q', r', m, x', y', z')
  {
    ScaledSum(s, p, q, r, m.a, m.d, m.g);
    ScaledSum(s, p, q, r, m.b, m.e, m.h);
    ScaledSum(s, p, q, r, m.c, m.f, m.i);
  }

  lemma ScaledSum(s: real, p: real, q: real, r: real, u: real, v: real, w: real)
    ensures (p * s) * u + (q * s) * v + (r * s) * w == s * (p * u + q * v + r * w)
  {
    assert (p * s) * u == s * (p * u) && (q * s) * v == s * (q * v) && (r * s) * w == s * (r * w);
  }

  ghost predicate LeftInverse(n: Matrix, m: Matrix) {
    && RowTimes(n.a, n.b, n.c, m, 1.0, 0.0, 0.0)
    && RowTimes(n.d, n.e, n.f, m, 0.0, 1.0, 0.0)
    && RowTimes(n.g, n.h, n.i, m, 0.0, 0.0, 1.0)
  }

  lemma InverseRow1(m: Matrix, s: real, n: Matrix)
    requires s * m.Det() == 1.0 && n == ScaledAdjugate(m, s)
    ensures RowTimes(n.a, n.b, n.c, m, 1.0, 0.0, 0.0)
  {
    hide RowTimes, m.Det;
    AdjugateRow1(m);
    ScaledRow(s, m.e * m.i - m.f * m.h, m.c * m.h - m.b * m.i, m.b * m.f - m.c * m.e, m, m.Det(), 0.0, 0.0,
              n.a, n.b, n.c, 1.0, 0.0, 0.0);
  }

  lemma InverseRow2(m: Matrix, s: real, n: Matrix)
    requires s * m.Det() == 1.0 && n == ScaledAdjugate(m, s)
    ensures RowTimes(n.d, n.e, n.f, m, 0.0, 1.0, 0.0)
  {
    hide RowTimes, m.Det;
    AdjugateRow2(m);
    ScaledRow(s, m.f * m.g - m.d * m.i, m.a * m.i - m.c * m.g, m.c * m.d - m.a * m.f, m, 0.0, m.Det(), 0.0,
              n.d, n.e, n.f, 0.0, 1.0, 0.0);
  }

  lemma InverseRow3(m: Matrix, s: real, n: Matrix)
    requires s * m.Det() == 1.0 && n == ScaledAdjugate(m, s)
    ensures RowTimes(n.g, n.h, n.i, m, 0.0, 0.0, 1.0)
  {
    hide RowTimes, m.Det;
    AdjugateRow3(m);
    ScaledRow(s, m.d * m.h - m.e * m.g, m.b * m.g - m.a * m.h, m.a * m.e - m.b * m.d, m, 0.0, 0.0, m.Det(),
              n.g, n.h, n.i, 0.0, 0.0, 1.0);
  }

  lemma InverseRows(m: Matrix)
    requires Invert(m).Some?
    ensures LeftInverse(Invert(m).value, m)
  {
    hide RowTimes, m.Det, ScaledAdjugate;
    var s := 1.0 / m.Det();
    assert s * m.Det() == 1.0;
    var n := ScaledAdjugate(m, s);
    InverseRow1(m, s, n);
    InverseRow2(m, s, n);
    InverseRow3(m, s, n);
  }

  /** A calibration is inverted unless its determinant is within 1e-12 of zero. */
  lemma InvertIsInverse(m: Matrix)
    ensures Invert(m).None? <==> -0.000000000001 < m.Det() < 0.000000000001
    ensures Invert(m).Some? ==> LeftInverse(Invert(m).value, m)
  {
    hide RowTimes, m.Det, ScaledAdjugate;
    if Invert(m).Some? {
      InverseRows(m);
    }
  }

  /** A row of the inverse applied to the image of (x, y), at scale t. */
  lemma RowOnImage(p: real, q: real, r: real, m: Matrix, x: real, y: real, t: real,
                   kx: real, ky: real, k1: real)
    requires RowTimes(p, q, r, m, kx, ky, k1)
    requires t * m.W(x, y) == 1.0
    ensures p * (m.X(x, y) * t) + q * (m.Y(x, y) * t) + r == t * (kx * x + ky * y + k1)
  {
    var hx, hy, w := m.X(x, y), m.Y(x, y), m.W(x, y);
    RowOnPoint(p, q, r, m, x, y, kx, ky, k1);
    hide RowTimes, m.X, m.Y, m.W;
    assert p * (hx * t) == t * (p * hx) && q * (hy * t) == t * (q * hy);
    assert t * (r * w) == r * (t * w);
    assert t * (p * hx) + t * (q * hy) + t * (r * w) == t * (p * hx + q * hy + r * w);
  }

  lemma RowOnPoint(p: real, q: real, r: real, m: Matrix, x: real, y: real, kx: real, ky: real, k1: real)
    requires RowTimes(p, q, r, m, kx, ky, k1)
    ensures p * m.X(x, y) + q * m.Y(x, y) + r * m.W(x, y) == kx * x + ky * y + k1
  {
    assert p * m.X(x, y) == (p * m.a) * x + (p * m.b) * y + p * m.c;
    assert q * m.Y(x, y) == (q * m.d) * x + (q * m.e) * y + q * m.f;
    assert r * m.W(x, y) == (r * m.g) * x + (r * m.h) * y + r * m.i;
    assert (p * m.a + q * m.d + r * m.g) * x == (p * m.a) * x + (q * m.d) * x + (r * m.g) * x;
    assert (p * m.b + q * m.e + r * m.h) * y == (p * m.b) * y + (q * m.e) * y + (r * m.h) * y;
  }

  /** The inverse map returns a plan point from its image, unless the point is beyond the horizon. */
  lemma ApplyInverse(m: Matrix, p: Point, seen: Point)
    requires Abs(m.Det()) >= 0.000000000001
    requires m.W(p.x, p.y) != 0.0
    requires seen == Point(m.X(p.x, p.y) / m.W(p.x, p.y), m.Y(p.x, p.y) / m.W(p.x, p.y))
    ensures Invert(m).Some?
    ensures Apply(Invert(m).value, seen) ==
              if Abs(m.W(p.x, p.y)) > 1000000000.0 then None else Some(p)
  {
    InvertIsInverse(m);
    InverseOnImage(Invert(m).value, m, p, seen);
  }

  lemma InverseOnImage(n: Matrix, m: Matrix, p: Point, seen: Point)
    requires LeftInverse(n, m) && m.W(p.x, p.y) != 0.0
    requires seen == Point(m.X(p.x, p.y) / m.W(p.x, p.y), m.Y(p.x, p.y) / m.W(p.x, p.y))
    ensures Apply(n, seen) == if Abs(m.W(p.x, p.y)) > 1000000000.0 then None else Some(p)
  {
    hide RowTimes, m.X, m.Y, m.W;
    var w := m.W(p.x, p.y);
    var t := 1.0 / w;
    assert t * w == 1.0;
    QuotientIsProduct(m.X(p.x, p.y), w, t);
    QuotientIsProduct(m.Y(p.x, p.y), w, t);
    RowOnImage(n.a, n.b, n.c, m, p.x, p.y, t, 1.0, 0.0, 0.0);
    RowOnImage(n.d, n.e, n.f, m, p.x, p.y, t, 0.0, 1.0, 0.0);
    RowOnImage(n.g, n.h, n.i, m, p.x, p.y, t, 0.0, 0.0, 1.0);
    AppliedRows(n, seen, p, t);
    Reciprocal(w, t);
  }

  lemma AppliedRows(n: Matrix, seen: Point, p: Point, t: real)
    requires n.a * seen.x + n.b * seen.y + n.c == t * (1.0 * p.x + 0.0 * p.y + 0.0)
    requires n.d * seen.x + n.e * seen.y + n.f == t * (0.0 * p.x + 1.0 * p.y + 0.0)
    requires n.g * seen.x + n.h * seen.y + n.i == t * (0.0 * p.x + 0.0 * p.y + 1.0)
    requires t != 0.0
    ensures Apply(n, seen) == if Abs(t) < HORIZON_W then None else Some(p)
  {
    assert n.X(seen.x, seen.y) == t * p.x && n.Y(seen.x, seen.y) == t * p.y && n.W(seen.x, seen.y) == t;
    CancelQuotient(n.X(seen.x, seen.y), t, p.x);
    CancelQuotient(n.Y(seen.x, seen.y), t, p.y);
  }

  lemma QuotientIsProduct(n: real, w: real, t: real)
    requires w != 0.0 && t * w == 1.0
    ensures n / w == n * t
  {
    assert (n * t) * w == n * (t * w);
  }

  lemma CancelQuotient(v: real, t: real, x: real)
    requires t != 0.0 && v == t * x
    ensures v / t == x
  {
  }

  lemma Reciprocal(w: real, t: real)
    requires t * w == 1.0
    ensures t != 0.0
    ensures Abs(t) < HORIZON_W <==> Abs(w) > 1000000000.0
  {
    var u, v := Abs(t), Abs(w);
    assert u * v == 1.0 && u > 0.0 && v > 0.0;
    ProductOrder(u, HORIZON_W, v);
    ProductOrder(v, 1000000000.0, HORIZON_W);
  }

  lemma ProductOrder(a: real, b: real, c: real)
    requires c > 0.0
    ensures a < b <==> a * c < b * c
  {
    if a < b {
      assert (b - a) * c > 0.0;
    } else {
      assert (a - b) * c >= 0.0;
    }
  }

  // ---- the parts of the answer ----------------------------------------------------------------

  /** Undistortion moves a point along its ray from the image centre, by a factor of 1 + k1 times its squared radius. */
  lemma UndistortIsRadial(k1: real, foot: Point)
    ensures var centre := Point(0.5, 0.5);
      Undistort(k1, foot) == At(centre, foot, 1.0 + k1 * Len2(centre, foot))
  {
  }

  /** The shorter of the plan's sides. */
  function Smaller(size: Point): (r: real)
    ensures r <= size.x && r <= size.y && (r == size.x || r == size.y)
  {
    if size.x <= size.y then size.x else size.y
  }

  /** Without a calibration the image centre falls on the camera, or mid-plan when it is not placed; the whole image
      spans 0.28 of the plan's smaller side each way. */
  lemma FallbackIsBlob(cam: PlanCamera, size: Point, foot: Point)
    requires cam.homography == Uncalibrated
    ensures Locate(cam, size, foot).None? <==> cam.pos == BadPlacement
    ensures cam.pos != BadPlacement ==>
      var camera := if cam.pos.PlacedAt? then cam.pos.p else Point(size.x / 2.0, size.y / 2.0);
      var at := Locate(cam, size, foot).value;
      at.x - camera.x == (foot.x - 0.5) * (0.28 * Smaller(size))
      && at.y - camera.y == (foot.y - 0.5) * (0.28 * Smaller(size))
  {
    assert Min(size.x, size.y) == Smaller(size);
  }

  /** A calibrated camera places a foot unless the calibration is unusable or the foot lies at the horizon. */
  lemma CalibratedLocates(cam: PlanCamera, size: Point, foot: Point)
    ensures cam.homography == BadMatrix ==> Locate(cam, size, foot).None?
    ensures cam.homography.Calibrated? ==>
      (Locate(cam, size, foot).Some? <==>
        var inverse := Invert(cam.homography.m);
        inverse.Some? && (var seen := Undistort(cam.k1, foot);
        var w := inverse.value.W(seen.x, seen.y); w <= -0.000000001 || 0.000000001 <= w))
  {
    hide Invert, Undistort;
  }

  /** Not far off the plan: some point of the plan is within 5 % of its smaller side, along both axes. */
  lemma NearPlanExactly(p: Point, size: Point)
    requires size.x > 0.0 && size.y > 0.0
    ensures NearPlan(p, size) <==> exists q: Point :: BesidePlan(p, q, size)
  {
    var q := Point(Max(0.0, Min(size.x, p.x)), Max(0.0, Min(size.y, p.y)));
    assert NearPlan(p, size) ==> BesidePlan(p, q, size);
  }

  ghost predicate BesidePlan(p: Point, q: Point, size: Point) {
    && 0.0 <= q.x <= size.x && 0.0 <= q.y <= size.y
    && 20.0 * Abs(p.x - q.x) <= Smaller(size) && 20.0 * Abs(p.y - q.y) <= Smaller(size)
  }

  /** A plan without a size is 20 by 20; one whose size is not two positive numbers has none. */
  lemma SizeExactly(size: PlanSize)
    ensures SizeOf(size).None? <==> size == BadSize || (size.Size? && !(size.sx > 0.0 && size.sy > 0.0))
    ensures SizeOf(size).Some? ==>
      SizeOf(size).value == if size.Size? then Point(size.sx, size.sy) else Point(20.0, 20.0)
  {
  }

  /** Clipping leaves what is on the plan alone and takes the rest to the nearest edge, 0.001 short of the far one. */
  lemma ClipIsNearest(v: real, size: real, w: real)
    requires size >= 0.001 && 0.0 <= w <= size - 0.001
    ensures 0.0 <= ClipTo(v, size) <= size - 0.001
    ensures Abs(v - ClipTo(v, size)) <= Abs(v - w)
  {
  }

  /** Main result: a foot whose corrected image is that of plan point p lands on p, clipped to the plan. */
  lemma ProjectionRoundTrip(plan: Plan, camera: string, cam: PlanCamera, m: Matrix, size: Point, p: Point, foot: Point)
    requires FindCamera(plan.cameras, camera) == Some(cam) && cam.homography == Calibrated(m)
    requires SizeOf(plan.size) == Some(size)
    requires Abs(m.Det()) >= 0.000000000001 && m.W(p.x, p.y) != 0.0
    requires Undistort(cam.k1, foot) == Point(m.X(p.x, p.y) / m.W(p.x, p.y), m.Y(p.x, p.y) / m.W(p.x, p.y))
    ensures Project(Some(plan), camera, foot, true) ==
              if Abs(m.W(p.x, p.y)) > 1000000000.0 then None
              else Some(OnPlan(Point(ClipTo(p.x, size.x), ClipTo(p.y, size.y)), size))
    ensures 0.0 <= p.x <= size.x - 0.001 && 0.0 <= p.y <= size.y - 0.001 ==>
              Point(ClipTo(p.x, size.x), ClipTo(p.y, size.y)) == p
  {
    InvertIsInverse(m);
    ApplyInverse(m, p, Undistort(cam.k1, foot));
    hide Invert, Apply, Undistort, SizeOf, FindCamera;
    assert Locate(cam, size, foot) == Apply(Invert(m).value, Undistort(cam.k1, foot));
  }

  /** Without clipping the answer is the clipped one or none; none exactly for points off the margin. */
  lemma UnclippedAgrees(plan: Option<Plan>, camera: string, foot: Point)
    ensures Project(plan, camera, foot, false).Some? ==>
              Project(plan, camera, foot, false) == Project(plan, camera, foot, true)
    ensures Project(plan, camera, foot, true).Some? ==>
              var size := Project(plan, camera, foot, true).value.size;
              var cam := FindCamera(plan.value.cameras, camera);
              && cam.Some? && Locate(cam.value, size, foot).Some?
              && (Project(plan, camera, foot, false).Some? <==> NearPlan(Locate(cam.value, size, foot).value, size))
  {
    hide Locate, FindCamera, ClipTo;
  }

  /** On a plan wider than the inset, the reported heatmap cell is the one holding the reported point. */
  lemma CellHoldsPoint(plan: Option<Plan>, camera: string, foot: Point)
    requires Project(plan, camera, foot, true).Some?
    ensures var OnPlan(p, size) := Project(plan, camera, foot, true).value;
            var (gx, gy) := ProjectToCell(plan, camera, foot).value;
            && (size.x >= 0.001 ==> gx as real <= p.x / size.x * 48.0 < gx as real + 1.0)
            && (size.y >= 0.001 ==> gy as real <= p.y / size.y * 48.0 < gy as real + 1.0)
  {
    var OnPlan(p, size) := Project(plan, camera, foot, true).value;
    ClippedAtZero(plan, camera, foot);
    hide Project, ClampCell;
    if size.x >= EDGE_INSET {
      CellHolds(p.x, size.x);
    }
    if size.y >= EDGE_INSET {
      CellHolds(p.y, size.y);
    }
  }

  lemma CellHolds(v: real, size: real)
    requires 0.0 <= v < size
    ensures var g := ClampCell(v / size); g as real <= v / size * GRID_SIZE as real < g as real + 1.0
  {
    hide CellIndex;
    UnitFraction(v, size);
  }

  lemma ClippedAtZero(plan: Option<Plan>, camera: string, foot: Point)
    requires Project(plan, camera, foot, true).Some?
    ensures var OnPlan(p, size) := Project(plan, camera, foot, true).value;
      (size.x >= EDGE_INSET ==> p.x >= 0.0) && (size.y >= EDGE_INSET ==> p.y >= 0.0)
  {
    hide Locate;
  }

  lemma UnitFraction(v: real, size: real)
    requires size > 0.0
    ensures 0.0 <= v < size ==> 0.0 <= v / size < 1.0
  {
    FractionBounds(v / size, v, size);
  }

  lemma FractionBounds(u: real, v: real, size: real)
    requires size > 0.0 && u * size == v
    ensures 0.0 <= v < size ==> 0.0 <= u < 1.0
  {
    ProductOrder(u, 1.0, size);
    ProductOrder(u, 0.0, size);
  }

  /** The movement cell's index decodes to its two axis cells. */
  lemma FlowCellDecodes(q: OnPlan)
    requires q.size.x > 0.0 && q.size.y > 0.0
    ensures FlowCell(q) % 12 == CellIndex(q.p.x / q.size.x, 12)
    ensures FlowCell(q) / 12 == CellIndex(q.p.y / q.size.y, 12)
  {
    hide CellIndex;
  }
}
