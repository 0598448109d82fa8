/**
 The footfall aggregator as a state and its transitions: one frame in, one flush out.
 The class in FootfallAggregator.dfy performs these transitions on its fields; the run
 theorems in FootfallRuns.dfy are about them.
 */
module FootfallModel {
  import opened Geometry
  import opened Options
  import opened Sequences
  import opened Tally
  import opened PathSplit
  import P = Projection
  import Polygon
  import Rdp

  const GATE_TTL := 45.0
  const SPAN_TTL := 120.0
  const PRESENCE_TTL := 45.0
  const FLUSH_CELLS := 800
  const FLUSH_SECONDS := 90.0
  /** 0.005 squared: the smallest movement worth a path sample. */
  const PATH_MIN_STEP_SQ := 0.000025
  const PATH_MAX_POINTS := 400
  const PATH_RDP_EPS := 0.003
  const STORE_CAMERA := "__store__"

  // ---- keys and rows ------------------------------------------------------------------------

  /** Conflict keys of the five counter tables. */
  datatype Key =
    | Cell(store: int, camera: string, hour: int, gx: nat, gy: nat)
    | Bucket(store: int, camera: string, hour: int)
    | Edge(store: int, camera: string, hour: int, from: nat, to: nat)
    | Demo(store: int, camera: string, hour: int, gender: string, age: string)

  type Counter = map<Key, int>

  /** Identity a visit is deduplicated by: the re-identified shopper, else the camera's track. */
  datatype VisitKey = BySp(store: int, sp: int) | ByTrack(camera: string, pid: int)

  type TrackKey = (string, int)
  type SpanKey = (int, int)

  datatype Presence = Presence(
    first: real, last: real, store: int, hour: int,
    lastCell: Option<nat>, path: seq<Point>,
    gender: Option<string>, age: Option<string>,
    hasSp: bool, isStaff: bool)

  datatype Span = Span(first: real, last: real, hour: int)

  datatype PathRow = PathRow(
    store: int, camera: string, hour: int, duration: real,
    points: seq<Point>, gender: Option<string>, age: Option<string>)

  /** Gate counting: buffered visits, the credits a staff badge may still take back, the dedup map. */
  datatype Gates = Gates(visits: Counter, credit: map<VisitKey, Key>, seen: map<VisitKey, real>, pruned: real)

  /** Demographics with the same dedup model. */
  datatype Demos = Demos(counts: Counter, seen: map<TrackKey, real>)

  /** Dwell buckets: [completed tracks, milliseconds] per key, held as two counters. */
  datatype Dwell = Dwell(tracks: Counter, ms: Counter)

  /** What camera lookups have left behind. */
  datatype Tenancy = Tenancy(orgs: map<int, int>, walls: map<int, seq<Wall>>, camPos: map<(int, string), Point>)

  datatype State = State(
    buf: Counter, gates: Gates, demos: Demos, flow: Counter, dwell: Dwell,
    presence: map<TrackKey, Presence>, spans: map<SpanKey, Span>,
    paths: seq<PathRow>, tenancy: Tenancy, lastFlush: real)

  datatype Tables = Tables(
    cells: Counter, visits: Counter, dwellTracks: Counter, dwellMs: Counter, flow: Counter, demo: Counter,
    paths: seq<PathRow>)

  // ---- one frame, read ----------------------------------------------------------------------

  datatype Box = BadBox | Box(x1: real, y1: real, x2: real, y2: real)

  datatype Track = Track(
    pid: Option<int>, sp: Option<int>, mannequin: bool, staff: bool,
    gender: Option<string>, age: Option<string>, box: Box)

  datatype Frame = Frame(
    camera: string, tracks: seq<Track>, width: int, height: int, hour: int,
    store: int, plan: P.Plan, gates: seq<seq<Polygon.Vertex>>)

  /** What one frame contributes, gathered before the lock is taken. */
  datatype Batch = Batch(
    pending: seq<Key>, gateHits: seq<(VisitKey, bool)>, present: seq<int>, spKeys: seq<(int, Option<int>)>,
    cells: seq<(int, nat)>, points: seq<(int, Point)>, demos: seq<(int, string, string)>,
    staff: seq<(Option<int>, Option<int>)>)

  const EMPTY_BATCH := Batch([], [], [], [], [], [], [], [])

  const GENDERS := {"male", "female", "unknown"}
  const AGE_BANDS := {"child", "youth", "adult", "senior", "unknown"}

  function DemoBucket(t: Track): (r: Option<(string, string)>)
    ensures r.Some? ==> r.value.0 in GENDERS && r.value.1 in AGE_BANDS
    ensures r.None? <==> (t.gender == None || t.gender == Some("")) && (t.age == None || t.age == Some(""))
    ensures r.Some? ==> forall g :: g in GENDERS && t.gender == Some(g) ==> r.value.0 == g
    ensures r.Some? ==> forall a :: a in AGE_BANDS && t.age == Some(a) ==> r.value.1 == a
    ensures r.Some? && (t.gender.None? || t.gender.value !in GENDERS) ==> r.value.0 == "unknown"
    ensures r.Some? && (t.age.None? || t.age.value !in AGE_BANDS) ==> r.value.1 == "unknown"
  {
    var g := if t.gender == Some("") then None else t.gender;
    var a := if t.age == Some("") then None else t.age;
    if g.None? && a.None? then None
    else Some((if g.Some? && g.value in GENDERS then g.value else "unknown",
               if a.Some? && a.value in AGE_BANDS then a.value else "unknown"))
  }

  /** Bottom centre of the box, in [0, 1] image coordinates. */
  function FootNorm(box: Box, width: int, height: int): Option<Point> {
    match box
    case BadBox => None
    case Box(x1, y1, x2, y2) =>
      var cx := (x1 + x2) / 2.0;
      var by_ := P.Max(y1, y2);
      if width != 0 && height != 0 && P.Max(P.Max(x1, y1), P.Max(x2, y2)) > 1.5
      then Some(Point(cx / width as real, by_ / height as real))
      else Some(Point(P.Min(1.0, P.Max(0.0, cx)), P.Min(1.0, P.Max(0.0, by_))))
  }

  function Located(f: Frame, t: Track): (r: Option<P.OnPlan>)
    ensures r.Some? ==> r.value.size.x > 0.0 && r.value.size.y > 0.0
  {
    match FootNorm(t.box, f.width, f.height)
    case None => None
    case Some(foot) => P.Project(Some(f.plan), f.camera, foot, true)
  }

  predicate InGate(gates: seq<seq<Polygon.Vertex>>, p: Point) {
    exists i :: 0 <= i < |gates| && Polygon.WellFormed(gates[i]) && Polygon.Inside(p, Polygon.Points(gates[i]))
  }

  function GateKey(f: Frame, t: Track): VisitKey
    requires t.pid.Some?
  {
    if t.sp.Some? then BySp(f.store, t.sp.value) else ByTrack(f.camera, t.pid.value)
  }

  function CellOf(f: Frame, q: P.OnPlan): Key
    requires q.size.x > 0.0 && q.size.y > 0.0
  {
    Cell(f.store, f.camera, f.hour, P.ClampCell(q.p.x / q.size.x), P.ClampCell(q.p.y / q.size.y))
  }

  /** The loop body over tracks: what t adds, given the gate keys seen before the frame. */
  function AddTrack(b: Batch, f: Frame, seen: set<VisitKey>, t: Track): Batch {
    if t.mannequin then b
    else if t.staff then b.(staff := b.staff + [(t.pid, t.sp)])
    else
      var b1 := if t.pid.None? then b else
        var demo := DemoBucket(t);
        b.(present := b.present + [t.pid.value],
           spKeys := b.spKeys + [(t.pid.value, t.sp)],
           demos := b.demos + if demo.Some? then [(t.pid.value, demo.value.0, demo.value.1)] else []);
      match Located(f, t)
      case None => b1
      case Some(q) =>
        var b2 := b1.(pending := b1.pending + [CellOf(f, q)]);
        if t.pid.None? then b2
        else
          b2.(cells := b2.cells + [(t.pid.value, P.FlowCell(q))],
              points := b2.points + [(t.pid.value, Point(q.p.x / q.size.x, q.p.y / q.size.y))],
              gateHits := b2.gateHits + if InGate(f.gates, q.p) then [(GateKey(f, t), GateKey(f, t) !in seen)] else [])
  }

  function Collect(f: Frame, seen: set<VisitKey>, tracks: seq<Track>): Batch {
    if tracks == [] then EMPTY_BATCH
    else AddTrack(Collect(f, seen, tracks[..|tracks| - 1]), f, seen, tracks[|tracks| - 1])
  }

  // ---- one frame, applied under the lock -----------------------------------------------------

  /** Where and when a batch happened. */
  datatype Moment = Moment(store: int, camera: string, hour: int, now: real)

  function StaffKey(c: Moment, m: (Option<int>, Option<int>)): Option<VisitKey> {
    if m.1.Some? then Some(BySp(c.store, m.1.value))
    else if m.0.Some? then Some(ByTrack(c.camera, m.0.value))
    else None
  }

  /** The visits after one credit, if any, is taken back; the guard is the code's own. */
  function TakeBack(visits: Counter, credit: map<VisitKey, Key>, k: VisitKey): Counter {
    if k in credit && Get(visits, credit[k]) > 0 then Bump(visits, credit[k], -1) else visits
  }

  function MarkStaff(presence: map<TrackKey, Presence>, k: TrackKey): map<TrackKey, Presence> {
    if k in presence && !presence[k].isStaff then presence[k := presence[k].(isStaff := true, path := [])] else presence
  }

  function CancelVisit(g: Gates, c: Moment, m: (Option<int>, Option<int>)): Gates {
    match StaffKey(c, m)
    case None => g
    case Some(k) =>
      g.(visits := TakeBack(g.visits, g.credit, k), credit := g.credit - {k}, seen := g.seen[k := c.now])
  }

  function CancelVisits(g: Gates, c: Moment, marks: seq<(Option<int>, Option<int>)>): Gates {
    if marks == [] then g else CancelVisit(CancelVisits(g, c, marks[..|marks| - 1]), c, marks[|marks| - 1])
  }

  function MarkAllStaff(pr: map<TrackKey, Presence>, c: Moment, marks: seq<(Option<int>, Option<int>)>)
    : map<TrackKey, Presence>
  {
    if marks == [] then pr
    else
      var pr1 := MarkAllStaff(pr, c, marks[..|marks| - 1]);
      var m := marks[|marks| - 1];
      if m.0.Some? then MarkStaff(pr1, (c.camera, m.0.value)) else pr1
  }

  function DropSpans(spans: map<SpanKey, Span>, c: Moment, marks: seq<(Option<int>, Option<int>)>): map<SpanKey, Span> {
    if marks == [] then spans
    else
      var spans1 := DropSpans(spans, c, marks[..|marks| - 1]);
      var m := marks[|marks| - 1];
      if m.1.Some? then spans1 - {(c.store, m.1.value)} else spans1
  }

  function VisitBucket(c: Moment): Key {
    Bucket(c.store, c.camera, c.hour)
  }

  function HitGate(g: Gates, c: Moment, h: (VisitKey, bool)): Gates {
    if h.1
    then g.(visits := Bump(g.visits, VisitBucket(c), 1), credit := g.credit[h.0 := VisitBucket(c)],
            seen := g.seen[h.0 := c.now])
    else g.(seen := g.seen[h.0 := c.now])
  }

  function HitGates(g: Gates, c: Moment, hits: seq<(VisitKey, bool)>): Gates {
    if hits == [] then g else HitGate(HitGates(g, c, hits[..|hits| - 1]), c, hits[|hits| - 1])
  }

  function NewPresence(c: Moment): Presence {
    Presence(c.now, c.now, c.store, c.hour, None, [], None, None, false, false)
  }

  function Touch(pr: map<TrackKey, Presence>, c: Moment, pid: int): map<TrackKey, Presence> {
    var k := (c.camera, pid);
    pr[k := if k in pr then pr[k].(last := c.now) else NewPresence(c)]
  }

  function TouchAll(pr: map<TrackKey, Presence>, c: Moment, pids: seq<int>): map<TrackKey, Presence> {
    if pids == [] then pr else Touch(TouchAll(pr, c, pids[..|pids| - 1]), c, pids[|pids| - 1])
  }

  /** The track carries a cross-camera identity: its dwell belongs to the span. */
  function LinkAll(pr: map<TrackKey, Presence>, c: Moment, es: seq<(int, Option<int>)>): map<TrackKey, Presence> {
    if es == [] then pr
    else
      var pr1 := LinkAll(pr, c, es[..|es| - 1]);
      var e := es[|es| - 1];
      var k := (c.camera, e.0);
      if e.1.Some? && k in pr1 then pr1[k := pr1[k].(hasSp := true)] else pr1
  }

  function ExtendSpans(spans: map<SpanKey, Span>, c: Moment, es: seq<(int, Option<int>)>): map<SpanKey, Span> {
    if es == [] then spans
    else
      var spans1 := ExtendSpans(spans, c, es[..|es| - 1]);
      var e := es[|es| - 1];
      if e.1.None? then spans1
      else
        var k := (c.store, e.1.value);
        spans1[k := if k in spans1 then spans1[k].(last := c.now) else Span(c.now, c.now, c.hour)]
  }

  function Stamp(pr: map<TrackKey, Presence>, c: Moment, d: (int, string, string)): map<TrackKey, Presence> {
    var k := (c.camera, d.0);
    if k in pr && pr[k].gender.None? && d.1 != "unknown"
    then pr[k := pr[k].(gender := Some(d.1), age := if d.2 != "unknown" then Some(d.2) else None)]
    else pr
  }

  function StampAll(pr: map<TrackKey, Presence>, c: Moment, ds: seq<(int, string, string)>): map<TrackKey, Presence> {
    if ds == [] then pr else Stamp(StampAll(pr, c, ds[..|ds| - 1]), c, ds[|ds| - 1])
  }

  function DemoKey(c: Moment, d: (int, string, string)): Key {
    Demo(c.store, c.camera, c.hour, d.1, d.2)
  }

  function CountDemo(g: Demos, c: Moment, d: (int, string, string)): Demos {
    var k := (c.camera, d.0);
    Demos(if k in g.seen then g.counts else Bump(g.counts, DemoKey(c, d), 1), g.seen[k := c.now])
  }

  function CountDemos(g: Demos, c: Moment, ds: seq<(int, string, string)>): Demos {
    if ds == [] then g else CountDemo(CountDemos(g, c, ds[..|ds| - 1]), c, ds[|ds| - 1])
  }

  /** round(v, 4), ties to even. */
  function Round4(v: real): (r: real)
    ensures -0.00005 <= r - v <= 0.00005
  {
    var n := (v * 10000.0).Floor;
    var d := v * 10000.0 - n as real;
    (if d < 0.5 || (d == 0.5 && n % 2 == 0) then n else n + 1) as real / 10000.0
  }

  predicate OnCanvas(p: Point) {
    -0.01 <= p.x <= 1.01 && -0.01 <= p.y <= 1.01
  }

  /** A wall stands between the camera and the foot point (the camera's own mounting wall aside). */
  predicate BehindWall(walls: seq<Wall>, camera: Option<Point>, p: Point) {
    camera.Some? && walls != [] &&
    var start := Point(camera.value.x + (p.x - camera.value.x) * 0.04, camera.value.y + (p.y - camera.value.y) * 0.04);
    exists i :: 0 <= i < |walls| && SegsIntersect(start, p, walls[i])
  }

  predicate Samples(path: seq<Point>, walls: seq<Wall>, camera: Option<Point>, p: Point) {
    && |path| < PATH_MAX_POINTS
    && OnCanvas(p)
    && !BehindWall(walls, camera, p)
    && (path == [] || Len2(path[|path| - 1], p) >= PATH_MIN_STEP_SQ)
  }

  function Sample(pr: map<TrackKey, Presence>, c: Moment, walls: seq<Wall>, camera: Option<Point>, e: (int, Point))
    : map<TrackKey, Presence>
  {
    var k := (c.camera, e.0);
    if k in pr && Samples(pr[k].path, walls, camera, e.1)
    then pr[k := pr[k].(path := pr[k].path + [Point(Round4(e.1.x), Round4(e.1.y))])]
    else pr
  }

  function SampleAll(pr: map<TrackKey, Presence>, c: Moment, walls: seq<Wall>, camera: Option<Point>,
                     es: seq<(int, Point)>): map<TrackKey, Presence>
  {
    if es == [] then pr else Sample(SampleAll(pr, c, walls, camera, es[..|es| - 1]), c, walls, camera, es[|es| - 1])
  }

  /** The movement edge a track crosses by appearing in `cell`, if it is a believable step. */
  function Crossed(pr: map<TrackKey, Presence>, c: Moment, e: (int, nat)): Option<Key> {
    var k := (c.camera, e.0);
    if k in pr && pr[k].lastCell.Some? && pr[k].lastCell.value != e.1 && P.FlowAdjacent(pr[k].lastCell.value, e.1)
    then Some(Edge(c.store, c.camera, c.hour, pr[k].lastCell.value, e.1))
    else None
  }

  function Enter(pr: map<TrackKey, Presence>, c: Moment, e: (int, nat)): map<TrackKey, Presence> {
    var k := (c.camera, e.0);
    if k in pr then pr[k := pr[k].(lastCell := Some(e.1))] else pr
  }

  function EnterAll(pr: map<TrackKey, Presence>, c: Moment, es: seq<(int, nat)>): map<TrackKey, Presence> {
    if es == [] then pr else Enter(EnterAll(pr, c, es[..|es| - 1]), c, es[|es| - 1])
  }

  function CountFlows(flow: Counter, pr: map<TrackKey, Presence>, c: Moment, es: seq<(int, nat)>): Counter {
    if es == [] then flow
    else
      var front := es[..|es| - 1];
      var edge := Crossed(EnterAll(pr, c, front), c, es[|es| - 1]);
      var flow1 := CountFlows(flow, pr, c, front);
      if edge.Some? then Bump(flow1, edge.value, 1) else flow1
  }

  // ---- tenancy --------------------------------------------------------------------------------

  /** A camera looked up in the database: its store's organization, walls and its own position. */
  function Register(t: Tenancy, store: int, org: Option<int>, camera: string, walls: seq<Wall>, pos: Option<Point>)
    : Tenancy
  {
    Tenancy(if org.Some? then t.orgs[store := org.value] else t.orgs,
            t.walls[store := walls],
            if pos.Some? then t.camPos[(store, camera) := pos.value] else t.camPos)
  }

  function WallsOf(t: Tenancy, store: int): seq<Wall> {
    if store in t.walls then t.walls[store] else []
  }

  function CameraOf(t: Tenancy, store: int, camera: string): Option<Point> {
    if (store, camera) in t.camPos then Some(t.camPos[(store, camera)]) else None
  }

  // ---- pruning ------------------------------------------------------------------------------

  function Fresh<K>(m: map<K, real>, now: real): map<K, real> {
    map k | k in m && now - m[k] < GATE_TTL :: m[k]
  }

  predicate GatePruneDue(g: Gates, now: real) {
    now - g.pruned >= GATE_TTL
  }

  function PruneGates(g: Gates, now: real): Gates {
    if !GatePruneDue(g, now) then g
    else
      var credit := map k | k in g.credit && !(k in g.seen && now - g.seen[k] >= GATE_TTL) :: g.credit[k];
      Gates(g.visits, credit, Fresh(g.seen, now), now)
  }

  /** Demographics keys are forgotten in the same pass as gate keys. */
  function PruneDemos(g: Gates, d: Demos, now: real): Demos {
    if !GatePruneDue(g, now) then d else d.(seen := Fresh(d.seen, now))
  }

  predicate StalePresence(p: Presence, now: real) {
    now - p.last >= PRESENCE_TTL
  }

  predicate StaleSpan(p: Span, now: real) {
    now - p.last >= SPAN_TTL
  }

  /** Rows for a finished track: its path cut at walls, each stretch simplified. */
  function RowsOf(k: TrackKey, p: Presence, parts: seq<seq<Point>>): seq<PathRow> {
    if parts == [] then []
    else
      var pts := Rdp.Simplify(parts[|parts| - 1], PATH_RDP_EPS);
      RowsOf(k, p, parts[..|parts| - 1]) +
        if |pts| >= MIN_SAVED_POINTS
        then [PathRow(p.store, k.0, p.hour, p.last - p.first, pts, p.gender, p.age)]
        else []
  }

  function Parts(p: Presence, walls: seq<Wall>): seq<seq<Point>> {
    if |p.path| < MIN_SAVED_POINTS then []
    else
      BoundsIncreasing(p.path, walls);
      Saved(p.path, Bounds(p.path, walls))
  }

  /** What becomes of a presence when it is closed. */
  datatype Outcome = Discarded | Carried | Banked(bucket: Key, ms: int)

  function DwellMs(first: real, last: real): int {
    P.Trunc((last - first) * 1000.0)
  }

  function CloseOutcome(k: TrackKey, p: Presence): Outcome {
    if p.isStaff then Discarded
    else if p.hasSp then Carried
    else Banked(Bucket(p.store, k.0, p.hour), DwellMs(p.first, p.last))
  }

  function Bank(d: Dwell, o: Outcome): Dwell {
    match o
    case Banked(bucket, ms) => Dwell(Bump(d.tracks, bucket, 1), Bump(d.ms, bucket, ms))
    case _ => d
  }

  /** What closing the presences ks, in that order, writes down. */
  function ClosePaths(paths: seq<PathRow>, pr: map<TrackKey, Presence>, t: Tenancy, ks: seq<TrackKey>): seq<PathRow>
    requires forall k :: k in ks ==> k in pr
  {
    if ks == [] then paths
    else
      var k := ks[|ks| - 1];
      var p := pr[k];
      ClosePaths(paths, pr, t, ks[..|ks| - 1]) +
        if p.isStaff then [] else RowsOf(k, p, Parts(p, WallsOf(t, p.store)))
  }

  function CloseDwell(d: Dwell, pr: map<TrackKey, Presence>, ks: seq<TrackKey>): Dwell
    requires forall k :: k in ks ==> k in pr
  {
    if ks == [] then d
    else
      var k := ks[|ks| - 1];
      Bank(CloseDwell(d, pr, ks[..|ks| - 1]), CloseOutcome(k, pr[k]))
  }

  function SpanOutcome(k: SpanKey, p: Span): Outcome {
    Banked(Bucket(k.0, STORE_CAMERA, p.hour), DwellMs(p.first, p.last))
  }

  function CloseSpans(d: Dwell, spans: map<SpanKey, Span>, ks: seq<SpanKey>): Dwell
    requires forall k :: k in ks ==> k in spans
  {
    if ks == [] then d
    else
      var k := ks[|ks| - 1];
      Bank(CloseSpans(d, spans, ks[..|ks| - 1]), SpanOutcome(k, spans[k]))
  }

  function StaleTracks(presence: map<TrackKey, Presence>, now: real): set<TrackKey> {
    set k | k in presence && StalePresence(presence[k], now)
  }

  function StaleSpans(spans: map<SpanKey, Span>, now: real): set<SpanKey> {
    set k | k in spans && StaleSpan(spans[k], now)
  }

  // ---- the whole locked section --------------------------------------------------------------

  /** The presences after a batch, before any is closed. */
  function OnFloor(s: State, c: Moment, b: Batch): map<TrackKey, Presence> {
    var marked := MarkAllStaff(s.presence, c, b.staff);
    var linked := LinkAll(TouchAll(marked, c, b.present), c, b.spKeys);
    var walls, camera := WallsOf(s.tenancy, c.store), CameraOf(s.tenancy, c.store, c.camera);
    SampleAll(StampAll(linked, c, b.demos), c, walls, camera, b.points)
  }

  /** Everything a batch does before the prunes, in the order of the code. */
  function Ingest(s: State, c: Moment, b: Batch): State {
    var floor := OnFloor(s, c, b);
    State(
      BumpAll(s.buf, b.pending),
      HitGates(CancelVisits(s.gates, c, b.staff), c, b.gateHits),
      CountDemos(s.demos, c, b.demos),
      CountFlows(s.flow, floor, c, b.cells),
      s.dwell,
      EnterAll(floor, c, b.cells),
      ExtendSpans(DropSpans(s.spans, c, b.staff), c, b.spKeys),
      s.paths, s.tenancy, s.lastFlush)
  }

  /** The prunes at the end of a frame; the dictionaries yield their stale keys in the given orders. */
  function Prune(s: State, now: real, order: seq<TrackKey>, spanOrder: seq<SpanKey>): State
    requires forall k :: k in order ==> k in s.presence
    requires forall k :: k in spanOrder ==> k in s.spans
  {
    State(
      s.buf, PruneGates(s.gates, now), PruneDemos(s.gates, s.demos, now), s.flow,
      CloseSpans(CloseDwell(s.dwell, s.presence, order), s.spans, spanOrder),
      s.presence - (set k | k in order), s.spans - (set k | k in spanOrder),
      ClosePaths(s.paths, s.presence, s.tenancy, order), s.tenancy, s.lastFlush)
  }

  predicate Idle(b: Batch) {
    b.pending == [] && b.present == [] && b.staff == []
  }

  predicate FlushDue(s: State, now: real) {
    |s.buf| >= FLUSH_CELLS || now - s.lastFlush >= FLUSH_SECONDS
  }

  // ---- flushing -----------------------------------------------------------------------------

  predicate NothingBuffered(s: State) {
    && |s.buf| == 0 && |s.gates.visits| == 0 && |s.dwell.tracks| == 0 && |s.flow| == 0
    && |s.demos.counts| == 0 && |s.paths| == 0
  }

  /** The part of a counter whose stores have a known organization; the rest is skipped by the flush. */
  function Known(m: Counter, orgs: map<int, int>): Counter {
    map k | k in m && k.store in orgs :: m[k]
  }

  function Unknown(m: Counter, orgs: map<int, int>): Counter {
    map k | k in m && k.store !in orgs :: m[k]
  }

  function KnownPaths(rows: seq<PathRow>, orgs: map<int, int>): seq<PathRow> {
    if rows == [] then []
    else KnownPaths(rows[..|rows| - 1], orgs) + if rows[|rows| - 1].store in orgs then [rows[|rows| - 1]] else []
  }

  function Drained(s: State, now: real): State {
    s.(buf := map[], gates := s.gates.(visits := map[], credit := map[]), demos := s.demos.(counts := map[]),
       flow := map[], dwell := Dwell(map[], map[]), paths := [], lastFlush := now)
  }

  /** After a failed write everything is back, except that the visit credits are gone. */
  function Restored(s: State, now: real): State {
    s.(gates := s.gates.(credit := map[]), lastFlush := now)
  }

  /** The six counters and the paths, as the flush snapshots them. */
  function Snapshot(s: State): Tables {
    Tables(s.buf, s.gates.visits, s.dwell.tracks, s.dwell.ms, s.flow, s.demos.counts, s.paths)
  }

  /** Tables after the upserts of one flush; stores without an organization are skipped. */
  function AddKnown(t: Tables, snap: Tables, orgs: map<int, int>): Tables {
    Tables(
      Merge(t.cells, Known(snap.cells, orgs)), Merge(t.visits, Known(snap.visits, orgs)),
      Merge(t.dwellTracks, Known(snap.dwellTracks, orgs)), Merge(t.dwellMs, Known(snap.dwellMs, orgs)),
      Merge(t.flow, Known(snap.flow, orgs)), Merge(t.demo, Known(snap.demo, orgs)),
      t.paths + KnownPaths(snap.paths, orgs))
  }

  function Written(t: Tables, s: State): Tables {
    AddKnown(t, Snapshot(s), s.tenancy.orgs)
  }

  function FlushState(s: State, now: real, ok: bool): State {
    if NothingBuffered(s) then s.(lastFlush := now)
    else if ok then Drained(s, now)
    else Restored(s, now)
  }

  function FlushTables(t: Tables, s: State, ok: bool): Tables {
    if ok && !NothingBuffered(s) then Written(t, s) else t
  }

  // ---- one frame as a whole -----------------------------------------------------------------

  /** s2 and db2 follow from s and db by one frame; a flush it sets off commits exactly when ok. */
  ghost predicate FrameDone(
    f: Frame, s: State, db: Tables, now: real, ok: bool, order: seq<TrackKey>, spanOrder: seq<SpanKey>, s2: State,
      db2: Tables)
  {
    var c := Moment(f.store, f.camera, f.hour, now);
    var b := Collect(f, s.gates.seen.Keys, f.tracks);
    var s1 := Ingest(s, c, b);
    if Idle(b) then s2 == s && db2 == db
    else
      && Enumerates(order, StaleTracks(s1.presence, now))
      && Enumerates(spanOrder, StaleSpans(s1.spans, now))
      && var p := Prune(s1, now, order, spanOrder);
         if FlushDue(p, now) then s2 == FlushState(p, now, ok) && db2 == FlushTables(db, p, ok)
         else s2 == p && db2 == db
  }
}
