/**
 Runs of real frames in which a promise of the source fails: a failed flush forgets a credit, two tracks of one shopper
 are counted twice and taken back once, a return after a minute is not counted. Every batch is read from its frame in
 the state it is applied to.
 */
module FootfallCases {
  import opened Geometry
  import opened Options
  import opened Tally
  import opened PathSplit
  import opened FootfallModel
  import opened FootfallWorld
  import opened FootfallRuns
  import P = Projection
  import Polygon

  // ---- frames handled one after the other -----------------------------------------------------------

  /** A frame, when it is handled, and whether the flush it may bring succeeds. No track goes stale meanwhile. */
  datatype Shot = Shot(frame: Frame, now: real, ok: bool)

  function MomentOf(e: Shot): Moment {
    Moment(e.frame.store, e.frame.camera, e.frame.hour, e.now)
  }

  function BatchOf(w: World, e: Shot): Batch {
    Collect(e.frame, w.s.gates.seen.Keys, e.frame.tracks)
  }

  function OpOf(w: World, e: Shot): Op {
    Take(MomentOf(e), BatchOf(w, e), [], [], e.ok)
  }

  /** The camera of all the frames is looked up first: its store's organization, no walls, no position. */
  const LOOKUP := Lookup(1, Some(1), "door", [], None)

  ghost function Film(start: real, es: seq<Shot>): World {
    if es == [] then Step(Start(start), LOOKUP)
    else
      var w := Film(start, es[..|es| - 1]);
      Step(w, OpOf(w, es[|es| - 1]))
  }

  ghost predicate Plays(start: real, es: seq<Shot>) {
    forall n :: 0 <= n < |es| ==> ValidOp(Film(start, es[..n]), OpOf(Film(start, es[..n]), es[n]))
  }

  /** ops are the lookup and then the frames of es, each handled in the state the others left. */
  ghost predicate Performs(start: real, ops: seq<Op>, es: seq<Shot>) {
    && |ops| == |es| + 1 && ops[0] == LOOKUP
    && forall n :: 0 <= n < |es| ==> ops[n + 1] == OpOf(Run(Start(start), ops[..n + 1]), es[n])
  }

  /** Such a film is a reachable run. */
  lemma {:induction false} FilmIsRun(start: real, es: seq<Shot>) returns (ops: seq<Op>)
    ensures Performs(start, ops, es) && Run(Start(start), ops) == Film(start, es)
  {
    if es == [] {
      ops := [LOOKUP];
      assert ops[..0] == [];
    } else {
      var front := FilmIsRun(start, es[..|es| - 1]);
      ops := front + [OpOf(Film(start, es[..|es| - 1]), es[|es| - 1])];
      assert ops[..|front|] == front;
      hide Step, OpOf, Start;
      forall n | 0 <= n < |es| ensures ops[n + 1] == OpOf(Run(Start(start), ops[..n + 1]), es[n]) {
        assert ops[..n + 1] == front[..n + 1];
      }
    }
  }

  /** Frame by frame, each batch is the one the frame gives in that state. */
  lemma FilmIsSerial(start: real, ops: seq<Op>, es: seq<Shot>, n: nat)
    requires Performs(start, ops, es) && n < |es|
    ensures ops[n + 1].Take? && Serial(Run(Start(start), ops[..n + 1]), es[n].frame, ops[n + 1].c, ops[n + 1].b)
  {
    hide Run, Collect, Start;
    assert ops[n + 1] == OpOf(Run(Start(start), ops[..n + 1]), es[n]);
  }

  // ---- a frame that closes nothing ------------------------------------------------------------------

  /** Everyone on the floor was seen at t or later. */
  ghost predicate Since(pr: map<TrackKey, Presence>, spans: map<SpanKey, Span>, t: real) {
    && (forall k :: k in pr ==> t <= pr[k].last)
    && (forall k :: k in spans ==> t <= spans[k].last)
  }

  /** Presences are as they were, or touched now. */
  ghost predicate Touched(pr: map<TrackKey, Presence>, pr': map<TrackKey, Presence>, now: real) {
    forall k :: k in pr' ==> pr'[k].last == now || (k in pr && pr'[k].last == pr[k].last)
  }

  lemma {:induction false} MarksTouch(pr: map<TrackKey, Presence>, c: Moment, marks: seq<(Option<int>, Option<int>)>)
    ensures Touched(pr, MarkAllStaff(pr, c, marks), c.now)
  {
    if marks != [] {
      MarksTouch(pr, c, marks[..|marks| - 1]);
    }
  }

  lemma {:induction false} VisibleTouch(pr: map<TrackKey, Presence>, c: Moment, pids: seq<int>)
    ensures Touched(pr, TouchAll(pr, c, pids), c.now)
    ensures forall i :: 0 <= i < |pids| ==>
      (c.camera, pids[i]) in TouchAll(pr, c, pids) && TouchAll(pr, c, pids)[(c.camera, pids[i])].last == c.now
  {
    if pids != [] {
      VisibleTouch(pr, c, pids[..|pids| - 1]);
    }
  }

  /** Same keys, same times. */
  ghost predicate SameTimes(pr: map<TrackKey, Presence>, pr': map<TrackKey, Presence>) {
    pr'.Keys == pr.Keys && forall k :: k in pr ==> pr'[k].last == pr[k].last
  }

  lemma {:induction false} LinksTouch(pr: map<TrackKey, Presence>, c: Moment, es: seq<(int, Option<int>)>)
    ensures SameTimes(pr, LinkAll(pr, c, es))
  {
    if es != [] {
      LinksTouch(pr, c, es[..|es| - 1]);
    }
  }

  lemma {:induction false} StampsTouch(pr: map<TrackKey, Presence>, c: Moment, ds: seq<(int, string, string)>)
    ensures SameTimes(pr, StampAll(pr, c, ds))
  {
    if ds != [] {
      StampsTouch(pr, c, ds[..|ds| - 1]);
    }
  }

  lemma {:induction false} SamplesTouch(pr: map<TrackKey, Presence>, c: Moment, walls: seq<Wall>,
                                        camera: Option<Point>, es: seq<(int, Point)>)
    ensures SameTimes(pr, SampleAll(pr, c, walls, camera, es))
  {
    hide Samples;
    if es != [] {
      SamplesTouch(pr, c, walls, camera, es[..|es| - 1]);
    }
  }

  lemma {:induction false} CellsTouch(pr: map<TrackKey, Presence>, c: Moment, es: seq<(int, nat)>)
    ensures SameTimes(pr, EnterAll(pr, c, es))
  {
    if es != [] {
      CellsTouch(pr, c, es[..|es| - 1]);
    }
  }

  lemma {:induction false} DropsTouch(spans: map<SpanKey, Span>, c: Moment, marks: seq<(Option<int>, Option<int>)>)
    ensures forall k :: k in DropSpans(spans, c, marks) ==> k in spans && DropSpans(spans, c, marks)[k] == spans[k]
  {
    if marks != [] {
      DropsTouch(spans, c, marks[..|marks| - 1]);
    }
  }

  lemma {:induction false} SpansTouch(spans: map<SpanKey, Span>, c: Moment, es: seq<(int, Option<int>)>)
    ensures var spans' := ExtendSpans(spans, c, es);
      forall k :: k in spans' ==> spans'[k].last == c.now || (k in spans && spans'[k].last == spans[k].last)
  {
    if es != [] {
      SpansTouch(spans, c, es[..|es| - 1]);
    }
  }

  /** After a batch everyone was seen at t or later, and whoever is visible just now. */
  lemma IngestTouch(s: State, c: Moment, b: Batch, t: real)
    requires Since(s.presence, s.spans, t) && t <= c.now
    ensures var s1 := Ingest(s, c, b);
      && Since(s1.presence, s1.spans, t)
      && forall i :: 0 <= i < |b.present| ==>
           (c.camera, b.present[i]) in s1.presence && s1.presence[(c.camera, b.present[i])].last == c.now
  {
    var marked := MarkAllStaff(s.presence, c, b.staff);
    MarksTouch(s.presence, c, b.staff);
    var seen := TouchAll(marked, c, b.present);
    VisibleTouch(marked, c, b.present);
    var linked := LinkAll(seen, c, b.spKeys);
    LinksTouch(seen, c, b.spKeys);
    var stamped := StampAll(linked, c, b.demos);
    StampsTouch(linked, c, b.demos);
    SamplesTouch(stamped, c, WallsOf(s.tenancy, c.store), CameraOf(s.tenancy, c.store, c.camera), b.points);
    CellsTouch(OnFloor(s, c, b), c, b.cells);
    DropsTouch(s.spans, c, b.staff);
    SpansTouch(DropSpans(s.spans, c, b.staff), c, b.spKeys);
    hide MarkAllStaff, TouchAll, LinkAll, StampAll, SampleAll, EnterAll, DropSpans, ExtendSpans;
  }

  lemma {:induction false} BumpAllSize<K>(m: map<K, int>, keys: seq<K>)
    ensures |BumpAll(m, keys)| <= |m| + |keys|
  {
    if keys != [] {
      BumpAllSize(m, keys[..|keys| - 1]);
    }
  }

  /** What a frame makes of the gates, prune included. */
  function GatesAfter(g: Gates, c: Moment, b: Batch): Gates {
    PruneGates(HitGates(CancelVisits(g, c, b.staff), c, b.gateHits), c.now)
  }

  /** At `clock`, everyone was seen at t or later, and few cells are buffered. */
  ghost predicate Quiet(w: World, t: real, clock: real) {
    Since(w.s.presence, w.s.spans, t) && w.log.clock <= clock && |w.s.buf| + 2 < FLUSH_CELLS
  }

  /** A frame that closes nothing. */
  lemma TakeQuietly(w: World, c: Moment, b: Batch, ok: bool)
    requires !Idle(b) && w.log.clock <= c.now
    requires StaleTracks(Ingest(w.s, c, b).presence, c.now) == {} && StaleSpans(Ingest(w.s, c, b).spans, c.now) == {}
    ensures var s1 := Ingest(w.s, c, b);
      var s2 := s1.(gates := PruneGates(s1.gates, c.now), demos := PruneDemos(s1.gates, s1.demos, c.now));
      var w' := Step(w, Take(c, b, [], [], ok));
      && ValidOp(w, Take(c, b, [], [], ok))
      && w'.log.clock == c.now && w'.s == if FlushDue(s2, c.now) then FlushState(s2, c.now, ok) else s2
  {
    hide Ingest, StaleTracks, StaleSpans, PruneGates, PruneDemos, FlushState, FlushTables, LostTables, FlushDue;
    var s1 := Ingest(w.s, c, b);
    var none: seq<TrackKey>, noSpan: seq<SpanKey> := [], [];
    assert s1.presence - (set k | k in none) == s1.presence && s1.spans - (set k | k in noSpan) == s1.spans;
    assert ValidOp(w, Take(c, b, [], [], ok));
  }

  lemma IngestQuietly(s: State, c: Moment, b: Batch, t: real)
    requires Since(s.presence, s.spans, t) && t <= c.now < t + 45.0
    ensures var s1 := Ingest(s, c, b);
      && s1.gates == HitGates(CancelVisits(s.gates, c, b.staff), c, b.gateHits) && s1.lastFlush == s.lastFlush
      && |s1.buf| <= |s.buf| + |b.pending| && Since(s1.presence, s1.spans, t)
      && StaleTracks(s1.presence, c.now) == {} && StaleSpans(s1.spans, c.now) == {}
  {
    IngestTouch(s, c, b, t);
    BumpAllSize(s.buf, b.pending);
    hide BumpAll, HitGates, CancelVisits, OnFloor, EnterAll, ExtendSpans, DropSpans, CountDemos, CountFlows;
  }

  /** At the end of a frame a flush is not due, or is due and fails. */
  ghost predicate FlushFails(w: World, e: Shot) {
    e.now - w.s.lastFlush < FLUSH_SECONDS || !e.ok
  }

  /** The gates when the flush is over. */
  function Forgiven(g: Gates, flushed: bool): Gates {
    if flushed then g.(credit := map[]) else g
  }

  /** A frame less than 45 s after everyone was seen, in which a flush is not due, or is due and fails. */
  lemma QuietStep(w: World, e: Shot, t: real, v: Key)
    requires !Idle(BatchOf(w, e)) && |BatchOf(w, e).pending| <= 2
    requires Quiet(w, t, e.now) && t <= e.now < t + 45.0 && FlushFails(w, e)
    requires v in GatesAfter(w.s.gates, MomentOf(e), BatchOf(w, e)).visits
    ensures var g, w' := GatesAfter(w.s.gates, MomentOf(e), BatchOf(w, e)), Step(w, OpOf(w, e));
      var flushed := e.now - w.s.lastFlush >= FLUSH_SECONDS;
      && ValidOp(w, OpOf(w, e)) && w'.log.clock == e.now && |w'.s.buf| <= |w.s.buf| + 2
      && Since(w'.s.presence, w'.s.spans, t)
      && w'.s.gates == Forgiven(g, flushed) && w'.s.lastFlush == if flushed then e.now else w.s.lastFlush
  {
    var c, b := MomentOf(e), BatchOf(w, e);
    IngestQuietly(w.s, c, b, t);
    hide Ingest, BatchOf, HitGates, CancelVisits, PruneDemos, PruneGates, StaleTracks, StaleSpans, Since;
    TakeQuietly(w, c, b, e.ok);
    hide Step, ValidOp;
    assert |GatesAfter(w.s.gates, c, b).visits| != 0;
  }

  // ---- the door ---------------------------------------------------------------------------------------

  const PLAN := P.Plan(P.Size(20.0, 20.0), [P.PlanCamera("door", P.Uncalibrated, 0.0, P.NotPlaced)])
  const LEFT := Point(9.0, 9.0)
  const RIGHT := Point(11.0, 9.0)
  const TIP := Point(10.0, 12.0)
  const GATE := [Polygon.Vertex(LEFT), Polygon.Vertex(RIGHT), Polygon.Vertex(TIP)]
  /** Feet in the middle of the image, and in its lower right corner. */
  const AT_GATE := Box(0.4, 0.1, 0.6, 0.5)
  const AT_TILL := Box(0.9, 0.6, 1.1, 1.0)

  function Person(pid: int, sp: Option<int>, staff: bool, box: Box): Track {
    Track(Some(pid), sp, false, staff, None, None, box)
  }

  function DoorFrame(tracks: seq<Track>): Frame {
    Frame("door", tracks, 640, 480, 0, 1, PLAN, [GATE])
  }

  lemma OnPlan(box: Box, at: Point, tracks: seq<Track>, t: Track)
    requires (box == AT_GATE && at == Point(10.0, 10.0)) || (box == AT_TILL && at == Point(12.8, 12.8))
    requires t.box == box
    ensures Located(DoorFrame(tracks), t) == Some(P.OnPlan(at, Point(20.0, 20.0)))
    ensures InGate([GATE], at) <==> box == AT_GATE
  {
    var foot := if box == AT_GATE then Point(0.5, 0.5) else Point(1.0, 1.0);
    assert FootNorm(box, 640, 480) == Some(foot);
    var cam := PLAN.cameras[0];
    assert P.FindCamera(PLAN.cameras, "door") == Some(cam);
    assert P.Locate(cam, Point(20.0, 20.0), foot) == Some(at);
    Polygon.TriangleExact(at, LEFT, RIGHT, TIP);
    assert Polygon.Points(GATE) == [LEFT, RIGHT, TIP];
    assert Polygon.WellFormed([GATE][0]);
  }

  /** Who is where, and what the gate makes of it. */
  lemma PersonAdds(b: Batch, tracks: seq<Track>, seen: set<VisitKey>, t: Track)
    requires t.pid.Some? && t == Person(t.pid.value, t.sp, false, t.box) && (t.box == AT_GATE || t.box == AT_TILL)
    ensures var f := DoorFrame(tracks);
      var b' := AddTrack(b, f, seen, t);
      && b'.staff == b.staff && |b'.pending| == |b.pending| + 1 && b'.present == b.present + [t.pid.value]
      && b'.gateHits == b.gateHits + if t.box == AT_GATE then [(GateKey(f, t), GateKey(f, t) !in seen)] else []
  {
    OnPlan(t.box, if t.box == AT_GATE then Point(10.0, 10.0) else Point(12.8, 12.8), tracks, t);
    hide Located, InGate, CellOf;
  }

  /** One track seen alone. */
  function Alone(seen: set<VisitKey>, t: Track): Batch {
    Collect(DoorFrame([t]), seen, [t])
  }

  lemma OneInFrame(seen: set<VisitKey>, t: Track)
    requires t.pid.Some? && t == Person(t.pid.value, t.sp, t.staff, t.box) && (t.box == AT_GATE || t.box == AT_TILL)
    ensures !Idle(Alone(seen, t)) && |Alone(seen, t).pending| <= 2
    ensures Alone(seen, t).staff == if t.staff then [(t.pid, t.sp)] else []
    ensures Alone(seen, t).present == if t.staff then [] else [t.pid.value]
    ensures t.staff || t.box == AT_TILL ==> Alone(seen, t).gateHits == []
    ensures var k := GateKey(DoorFrame([t]), t);
      !t.staff && t.box == AT_GATE ==> Alone(seen, t).gateHits == [(k, k !in seen)]
  {
    var f := DoorFrame([t]);
    assert [t][..0] == [] && Collect(f, seen, []) == EMPTY_BATCH;
    assert Collect(f, seen, [t]) == AddTrack(EMPTY_BATCH, f, seen, t);
    if !t.staff {
      PersonAdds(EMPTY_BATCH, [t], seen, t);
    }
  }

  /** One person, seen alone. */
  function Lone(t: Track, now: real, ok: bool): Shot {
    Shot(DoorFrame([t]), now, ok)
  }

  const DOOR := Moment(1, "door", 0, 0.0)

  function LoneGates(g: Gates, t: Track, now: real): Gates
    requires t.pid.Some?
  {
    var c, k := DOOR.(now := now), GateKey(DoorFrame([t]), t);
    PruneGates(
      if t.staff then CancelVisit(g, c, (t.pid, t.sp))
      else if t.box == AT_GATE then HitGate(g, c, (k, k !in g.seen))
      else g, now)
  }

  lemma LoneGatesAfter(w: World, t: Track, now: real, ok: bool)
    requires t.pid.Some? && t == Person(t.pid.value, t.sp, t.staff, t.box) && (t.box == AT_GATE || t.box == AT_TILL)
    ensures var e := Lone(t, now, ok);
      && !Idle(BatchOf(w, e)) && |BatchOf(w, e).pending| <= 2
      && GatesAfter(w.s.gates, MomentOf(e), BatchOf(w, e)) == LoneGates(w.s.gates, t, now)
  {
    var g, c := w.s.gates, DOOR.(now := now);
    OneInFrame(g.seen.Keys, t);
    var b := Alone(g.seen.Keys, t);
    assert BatchOf(w, Lone(t, now, ok)) == b && MomentOf(Lone(t, now, ok)) == c;
    hide Collect, Alone, PruneGates;
    assert b.staff[..0] == [] && CancelVisits(g, c, []) == g;
    assert forall g' :: HitGates(g', c, []) == g';
    if b.staff != [] {
      assert CancelVisits(g, c, b.staff) == CancelVisit(g, c, b.staff[0]);
    }
    if b.gateHits != [] {
      assert b.gateHits[..0] == [];
      assert HitGates(g, c, b.gateHits) == HitGate(g, c, b.gateHits[0]);
    }
  }

  /** A badge with a credit, and one without, before a prune is due. */
  lemma BadgeGates(visits: Counter, k: VisitKey, v: Key, seen: map<VisitKey, real>, pruned: real, t: Track, now: real)
    requires t.pid.Some? && t.staff && StaffKey(DOOR, (t.pid, t.sp)) == Some(k) && now - pruned < GATE_TTL
    ensures LoneGates(Gates(visits, map[], seen, pruned), t, now) == Gates(visits, map[], seen[k := now], pruned)
    ensures Get(visits, v) > 0 ==>
      LoneGates(Gates(visits, map[k := v], seen, pruned), t, now)
      == Gates(Bump(visits, v, -1), map[], seen[k := now], pruned)
  {
    assert map[k := v] - {k} == map[];
  }

  /** The film so far: its gates, its last flush, and how quiet it is. */
  ghost predicate Stands(start: real, es: seq<Shot>, g: Gates, flushed: real, clock: real) {
    var w := Film(start, es);
    && Plays(start, es) && w.s.gates == g && w.s.lastFlush == flushed
    && Since(w.s.presence, w.s.spans, 0.0) && w.log.clock <= clock && |w.s.buf| <= 2 * |es|
  }

  lemma Opening(start: real)
    ensures Stands(start, [], Gates(map[], map[], map[], start), start, start)
  {
  }

  lemma FilmSnoc(start: real, es: seq<Shot>, e: Shot)
    ensures Film(start, es + [e]) == Step(Film(start, es), OpOf(Film(start, es), e))
    ensures Plays(start, es) && ValidOp(Film(start, es), OpOf(Film(start, es), e)) ==> Plays(start, es + [e])
  {
    hide Step, ValidOp, OpOf;
    assert (es + [e])[..|es|] == es;
    if Plays(start, es) && ValidOp(Film(start, es), OpOf(Film(start, es), e)) {
      forall n | 0 <= n < |es + [e]|
        ensures ValidOp(Film(start, (es + [e])[..n]), OpOf(Film(start, (es + [e])[..n]), (es + [e])[n]))
      {
        if n < |es| {
          assert (es + [e])[..n] == es[..n];
        }
      }
    }
  }

  /** One more frame. */
  lemma Next(start: real, es: seq<Shot>, g: Gates, flushed: real, clock: real, e: Shot, after: Gates, v: Key)
    requires Stands(start, es, g, flushed, clock) && |es| < 5 && clock <= e.now && 0.0 <= e.now < 45.0
    requires var w := Film(start, es);
      && !Idle(BatchOf(w, e)) && |BatchOf(w, e).pending| <= 2
      && GatesAfter(g, MomentOf(e), BatchOf(w, e)) == after
    requires (e.now - flushed < FLUSH_SECONDS || !e.ok) && v in after.visits
    ensures var due := e.now - flushed >= FLUSH_SECONDS;
      Stands(start, es + [e], Forgiven(after, due), if due then e.now else flushed, e.now)
  {
    hide BatchOf, GatesAfter, Film, Since, Plays, Step, ValidOp, Forgiven, Idle;
    QuietStep(Film(start, es), e, 0.0, v);
    FilmSnoc(start, es, e);
  }

  /** The next frame shows one person. */
  lemma LoneNext(start: real, es: seq<Shot>, g: Gates, flushed: real, clock: real, t: Track, now: real, ok: bool,
                 v: Key)
    requires t.pid.Some? && t == Person(t.pid.value, t.sp, t.staff, t.box) && (t.box == AT_GATE || t.box == AT_TILL)
    requires Stands(start, es, g, flushed, clock) && |es| < 5 && clock <= now && 0.0 <= now < 45.0
    requires (now - flushed < FLUSH_SECONDS || !ok) && v in LoneGates(g, t, now).visits
    ensures var due := now - flushed >= FLUSH_SECONDS;
      Stands(start, es + [Lone(t, now, ok)], Forgiven(LoneGates(g, t, now), due), if due then now else flushed, now)
  {
    LoneGatesAfter(Film(start, es), t, now, ok);
    assert Film(start, es).s.gates == g;
    hide BatchOf, LoneGates, GatesAfter, Film, Stands, Forgiven, Idle;
    Next(start, es, g, flushed, clock, Lone(t, now, ok), LoneGates(g, t, now), v);
  }

  // ---- a failed flush -----------------------------------------------------------------------------------

  const SHOPPER := ByTrack("door", 7)
  const VISIT := Bucket(1, "door", 0)

  const ARRIVES := Person(7, None, false, AT_GATE)
  const BROWSES := Person(7, None, false, AT_TILL)
  const BADGED := Person(7, None, true, AT_GATE)

  /** The next frame shows a badge; `credit` is what the key has. */
  lemma BadgeNext(start: real, es: seq<Shot>, visits: Counter, credit: Option<Key>, seen: map<VisitKey, real>,
                  flushed: real, clock: real, t: Track, now: real, k: VisitKey, v: Key)
    requires t.pid.Some? && t == Person(t.pid.value, t.sp, true, AT_GATE) && StaffKey(DOOR, (t.pid, t.sp)) == Some(k)
    requires v in visits && (credit.Some? ==> credit == Some(v) && visits[v] > 0)
    requires Stands(start, es, Gates(visits, Credit(k, credit), seen, 0.0), flushed, clock) && |es| < 5
    requires clock <= now && 0.0 <= now < 45.0 && now - flushed < FLUSH_SECONDS
    ensures Stands(start, es + [Lone(t, now, true)],
                   Gates(if credit.Some? then Bump(visits, v, -1) else visits, map[], seen[k := now], 0.0),
                   flushed, now)
  {
    BadgeGates(visits, k, v, seen, 0.0, t, now);
    hide Stands, LoneGates, StaffKey;
    LoneNext(start, es, Gates(visits, Credit(k, credit), seen, 0.0), flushed, clock, t, now, true, v);
  }

  function Credit(k: VisitKey, b: Option<Key>): map<VisitKey, Key> {
    if b.Some? then map[k := b.value] else map[]
  }

  /** The shopper is counted at 0 s; when the machine was started 90 s before, a flush follows and fails. */
  lemma Arrival(start: real, ok: bool)
    requires start <= 0.0 && (start > -90.0 || (start == -90.0 && !ok))
    ensures Stands(
              start, [Lone(ARRIVES, 0.0, ok)],
              Gates(map[VISIT := 1], Credit(SHOPPER, if start == -90.0 then None else Some(VISIT)),
                    map[SHOPPER := 0.0], if start <= -45.0 then 0.0 else start),
              if start == -90.0 then 0.0 else start, 0.0)
  {
    Opening(start);
    ArrivalGates(start, SHOPPER, VISIT);
    hide Stands, LoneGates;
    LoneNext(start, [], Gates(map[], map[], map[], start), start, start, ARRIVES, 0.0, ok, VISIT);
    assert [] + [Lone(ARRIVES, 0.0, ok)] == [Lone(ARRIVES, 0.0, ok)];
  }

  lemma ArrivalGates(start: real, k: VisitKey, v: Key)
    requires start <= 0.0 && k == GateKey(DoorFrame([ARRIVES]), ARRIVES) && v == VisitBucket(DOOR)
    ensures LoneGates(Gates(map[], map[], map[], start), ARRIVES, 0.0)
      == Gates(map[v := 1], map[k := v], map[k := 0.0], if start <= -45.0 then 0.0 else start)
  {
    var g := Gates(map[], map[], map[], start);
    var hit := HitGate(g, DOOR, (k, true));
    assert hit == Gates(map[v := 1], map[k := v], map[k := 0.0], start);
    assert PruneGates(hit, 0.0).credit == hit.credit && PruneGates(hit, 0.0).seen == hit.seen;
  }

  /**
   The same two frames, a badge two seconds after the shopper was counted: the visit is taken back, and it is still
   buffered and still counted when the first frame ended in a flush that failed.
   */
  lemma FailedFlushForgetsCredits()
    ensures var calm := [Lone(ARRIVES, 0.0, true), Lone(BADGED, 2.0, true)];
      Plays(0.0, calm) && Get(Film(0.0, calm).s.gates.visits, VISIT) == 0
    ensures var failed := [Lone(ARRIVES, 0.0, false), Lone(BADGED, 2.0, true)];
      Plays(-90.0, failed) && Get(Film(-90.0, failed).s.gates.visits, VISIT) == 1
  {
    Arrival(0.0, true);
    Arrival(-90.0, false);
    hide Plays, Film, Stands;
    var calm, failed, e := Lone(ARRIVES, 0.0, true), Lone(ARRIVES, 0.0, false), Lone(BADGED, 2.0, true);
    Badge(0.0, calm, Some(VISIT), SHOPPER, VISIT);
    Badge(-90.0, failed, None, SHOPPER, VISIT);
  }

  lemma Badge(start: real, e: Shot, credit: Option<Key>, k: VisitKey, v: Key)
    requires StaffKey(DOOR, (BADGED.pid, BADGED.sp)) == Some(k) && (credit.Some? ==> credit == Some(v))
    requires Stands(start, [e], Gates(map[v := 1], Credit(k, credit), map[k := 0.0], 0.0), 0.0, 0.0)
    ensures var es := [e, Lone(BADGED, 2.0, true)];
      Plays(start, es) && Get(Film(start, es).s.gates.visits, v) == if credit.Some? then 0 else 1
  {
    hide Plays, Film;
    BadgeNext(start, [e], map[v := 1], credit, map[k := 0.0], 0.0, 0.0, BADGED, 2.0, k, v);
    assert [e] + [Lone(BADGED, 2.0, true)] == [e, Lone(BADGED, 2.0, true)];
  }

  // ---- a return that is not counted ---------------------------------------------------------------------

  /** The prune 50 s after the start finds the key 40 s old. */
  lemma TillGates(k: VisitKey, v: Key)
    ensures var g := Gates(map[v := 1], map[k := v], map[k := 0.0], -10.0);
      LoneGates(g, BROWSES, 40.0) == g.(pruned := 40.0)
  {
    var g := Gates(map[v := 1], map[k := v], map[k := 0.0], -10.0);
    assert LoneGates(g, BROWSES, 40.0) == PruneGates(g, 40.0);
    assert PruneGates(g, 40.0).credit == g.credit && PruneGates(g, 40.0).seen == g.seen;
  }

  lemma AtTheTill(e: Shot, k: VisitKey, v: Key)
    requires Stands(-10.0, [e], Gates(map[v := 1], map[k := v], map[k := 0.0], -10.0), -10.0, 0.0)
    ensures var es := [e, Lone(BROWSES, 40.0, true)];
      var g := Film(-10.0, es).s.gates;
      Plays(-10.0, es) && g.seen == map[k := 0.0] && g.visits == map[v := 1]
  {
    var g := Gates(map[v := 1], map[k := v], map[k := 0.0], -10.0);
    TillGates(k, v);
    hide Film, Plays, LoneGates;
    LoneNext(-10.0, [e], g, -10.0, 0.0, BROWSES, 40.0, true, v);
    assert [e] + [Lone(BROWSES, 40.0, true)] == [e, Lone(BROWSES, 40.0, true)];
  }

  /**
   The shopper is at the gate at 0 s and at the till at 40 s, where a prune finds the key 40 s old. The next frame, at
   any time from 45 s on, shows the shopper at the gate again, and does not count the return.
   */
  lemma ReturnNotCounted(now: real)
    requires now >= 45.0
    ensures var es := [Lone(ARRIVES, 0.0, true), Lone(BROWSES, 40.0, true)];
      var w, e := Film(-10.0, es), Lone(ARRIVES, now, true);
      && Plays(-10.0, es) && w.s.gates.seen == map[SHOPPER := 0.0] && w.s.gates.visits == map[VISIT := 1]
      && Serial(w, e.frame, MomentOf(e), BatchOf(w, e)) && BatchOf(w, e).gateHits == [(SHOPPER, false)]
      && HitGates(w.s.gates, MomentOf(e), BatchOf(w, e).gateHits).visits == map[VISIT := 1]
  {
    Arrival(-10.0, true);
    hide Film, Plays, Collect, Stands;
    AtTheTill(Lone(ARRIVES, 0.0, true), SHOPPER, VISIT);
    var w := Film(-10.0, [Lone(ARRIVES, 0.0, true), Lone(BROWSES, 40.0, true)]);
    NotFresh(w, now, SHOPPER);
  }

  lemma NotFresh(w: World, now: real, k: VisitKey)
    requires k in w.s.gates.seen && k == GateKey(DoorFrame([ARRIVES]), ARRIVES)
    ensures var e := Lone(ARRIVES, now, true);
      && BatchOf(w, e).gateHits == [(k, false)]
      && HitGates(w.s.gates, MomentOf(e), [(k, false)]).visits == w.s.gates.visits
  {
    hide Collect, GateKey;
    OneInFrame(w.s.gates.seen.Keys, ARRIVES);
    assert BatchOf(w, Lone(ARRIVES, now, true)) == Alone(w.s.gates.seen.Keys, ARRIVES);
    hide Alone, BatchOf;
    assert [(k, false)][..0] == [];
  }

  // ---- two tracks of one shopper -------------------------------------------------------------------------

  const MEMBER := BySp(1, 3)
  const FIRST := Person(7, Some(3), false, AT_GATE)
  const SECOND := Person(8, Some(3), false, AT_GATE)
  const MEMBER_BADGED := Person(7, Some(3), true, AT_GATE)

  /** Both tracks of a shopper, re-identified as one, are in the gate. */
  function Pair(now: real): Shot {
    Shot(DoorFrame([FIRST, SECOND]), now, true)
  }

  lemma PairInFrame(seen: set<VisitKey>)
    requires MEMBER !in seen
    ensures var b := Collect(DoorFrame([FIRST, SECOND]), seen, [FIRST, SECOND]);
      && !Idle(b) && |b.pending| <= 2 && b.staff == []
      && b.gateHits == [(MEMBER, true), (MEMBER, true)]
  {
    var f := DoorFrame([FIRST, SECOND]);
    assert [FIRST][..0] == [] && [FIRST, SECOND][..1] == [FIRST];
    assert Collect(f, seen, []) == EMPTY_BATCH;
    assert Collect(f, seen, [FIRST]) == AddTrack(EMPTY_BATCH, f, seen, FIRST);
    var b1 := Collect(f, seen, [FIRST]);
    assert Collect(f, seen, [FIRST, SECOND]) == AddTrack(b1, f, seen, SECOND);
    PersonAdds(EMPTY_BATCH, [FIRST, SECOND], seen, FIRST);
    PersonAdds(b1, [FIRST, SECOND], seen, SECOND);
    hide AddTrack, Collect;
  }

  lemma PairGates(w: World)
    requires w.s.gates == Gates(map[], map[], map[], 0.0)
    ensures GatesAfter(w.s.gates, MomentOf(Pair(0.0)), BatchOf(w, Pair(0.0)))
      == Gates(map[VISIT := 2], map[MEMBER := VISIT], map[MEMBER := 0.0], 0.0)
    ensures !Idle(BatchOf(w, Pair(0.0))) && |BatchOf(w, Pair(0.0)).pending| <= 2
  {
    var g, c, k, v := w.s.gates, MomentOf(Pair(0.0)), MEMBER, VISIT;
    PairInFrame({});
    assert w.s.gates.seen.Keys == {};
    hide Collect;
    var hits := [(k, true), (k, true)];
    assert BatchOf(w, Pair(0.0)).gateHits == hits && BatchOf(w, Pair(0.0)).staff == [];
    assert hits[..1] == [(k, true)] && [(k, true)][..0] == [];
    assert VisitBucket(c) == v;
    TwoHits(k, v, c);
  }

  lemma TwoHits(k: VisitKey, v: Key, c: Moment)
    requires VisitBucket(c) == v && c.now == 0.0
    ensures var g := Gates(map[], map[], map[], 0.0);
      HitGates(g, c, [(k, true), (k, true)]) == Gates(map[v := 2], map[k := v], map[k := 0.0], 0.0)
  {
    var g, h := Gates(map[], map[], map[], 0.0), (k, true);
    assert [h, h][..1] == [h] && [h][..0] == [];
    assert HitGates(g, c, [h]) == HitGate(g, c, h);
    assert HitGate(g, c, h) == Gates(map[v := 1], map[k := v], map[k := 0.0], 0.0);
  }

  lemma PairArrives()
    ensures Stands(0.0, [Pair(0.0)], Gates(map[VISIT := 2], map[MEMBER := VISIT], map[MEMBER := 0.0], 0.0), 0.0, 0.0)
  {
    Opening(0.0);
    PairGates(Film(0.0, []));
    hide BatchOf, GatesAfter, Film, Stands, Idle;
    var after := Gates(map[VISIT := 2], map[MEMBER := VISIT], map[MEMBER := 0.0], 0.0);
    Next(0.0, [], Gates(map[], map[], map[], 0.0), 0.0, 0.0, Pair(0.0), after, VISIT);
    assert [] + [Pair(0.0)] == [Pair(0.0)];
  }

  /**
   No flush, no prune: a badge takes back one of the two visits counted for the shopper, and a second badge nothing.
   */
  lemma TwoTracksOneCredit()
    ensures var es := [Pair(0.0), Lone(MEMBER_BADGED, 2.0, true), Lone(MEMBER_BADGED, 3.0, true)];
      && Plays(0.0, es)
      && Get(Film(0.0, es[..1]).s.gates.visits, VISIT) == 2
      && Get(Film(0.0, es[..2]).s.gates.visits, VISIT) == 1
      && Get(Film(0.0, es).s.gates.visits, VISIT) == 1
  {
    PairArrives();
    hide Stands, Film, Plays;
    TwoBadges(Pair(0.0), MEMBER, VISIT);
  }

  lemma TwoBadges(e: Shot, k: VisitKey, v: Key)
    requires StaffKey(DOOR, (MEMBER_BADGED.pid, MEMBER_BADGED.sp)) == Some(k)
    requires Stands(0.0, [e], Gates(map[v := 2], map[k := v], map[k := 0.0], 0.0), 0.0, 0.0)
    ensures var es := [e, Lone(MEMBER_BADGED, 2.0, true), Lone(MEMBER_BADGED, 3.0, true)];
      && Plays(0.0, es)
      && Get(Film(0.0, es[..1]).s.gates.visits, v) == 2
      && Get(Film(0.0, es[..2]).s.gates.visits, v) == 1
      && Get(Film(0.0, es).s.gates.visits, v) == 1
  {
    var e1, e2 := Lone(MEMBER_BADGED, 2.0, true), Lone(MEMBER_BADGED, 3.0, true);
    hide Plays, Film;
    BadgeNext(0.0, [e], map[v := 2], Some(v), map[k := 0.0], 0.0, 0.0, MEMBER_BADGED, 2.0, k, v);
    BadgeNext(0.0, [e] + [e1], map[v := 1], None, map[k := 2.0], 0.0, 2.0, MEMBER_BADGED, 3.0, k, v);
    var es := [e, e1, e2];
    assert es[..1] == [e] && es[..2] == [e] + [e1] && es == [e] + [e1] + [e2];
  }
}
