/**
 What a frame contributes, list by list and in numbers: which of its tracks are in each list, in order, and what is
 noted of them.
 */
module FootfallFrames {
  import opened Geometry
  import opened Options
  import opened Sequences
  import opened FootfallModel
  import P = Projection
  import Polygon

  // ---- where a track stands -------------------------------------------------------------------------------

  /** v, or the nearer end of [0, 1]. */
  function Unit(v: real): real {
    if v < 0.0 then 0.0 else if v > 1.0 then 1.0 else v
  }

  function Larger(a: real, b: real): real {
    if a <= b then b else a
  }

  predicate InPixels(x1: real, y1: real, x2: real, y2: real, width: int, height: int) {
    width != 0 && height != 0 && (x1 > 1.5 || y1 > 1.5 || x2 > 1.5 || y2 > 1.5)
  }

  /**
   The foot is the middle of the box's lower edge. A box with a coordinate above 1.5 is in pixels, when the frame has
   a size; any other is a share of the image and kept inside it.
   */
  lemma FootExactly(x1: real, y1: real, x2: real, y2: real, width: int, height: int, foot: Point)
    requires FootNorm(Box(x1, y1, x2, y2), width, height) == Some(foot)
    ensures if InPixels(x1, y1, x2, y2, width, height)
            then foot.x * width as real == (x1 + x2) / 2.0 && foot.y * height as real == Larger(y1, y2)
            else foot == Point(Unit((x1 + x2) / 2.0), Unit(Larger(y1, y2)))
  {
    if InPixels(x1, y1, x2, y2, width, height) {
      Divided((x1 + x2) / 2.0, width as real);
      Divided(Larger(y1, y2), height as real);
    }
  }

  lemma Divided(v: real, size: real)
    requires size != 0.0
    ensures (v / size) * size == v
  {
  }

  lemma FootKnown(box: Box, width: int, height: int)
    ensures FootNorm(box, width, height).Some? <==> box.Box?
  {
  }

  /** A visitor whose foot lands on the plan, and where. */
  ghost predicate Stands(f: Frame, t: Track, at: P.OnPlan) {
    && !t.mannequin && !t.staff && FootNorm(t.box, f.width, f.height).Some?
    && P.Project(Some(f.plan), f.camera, FootNorm(t.box, f.width, f.height).value, true) == Some(at)
  }

  ghost predicate OnMap(f: Frame, t: Track) {
    exists at :: Stands(f, t, at)
  }

  lemma LocatedStands(f: Frame, t: Track)
    requires !t.mannequin && !t.staff
    ensures Located(f, t).Some? <==> OnMap(f, t)
    ensures Located(f, t).Some? ==> Stands(f, t, Located(f, t).value)
  {
    if OnMap(f, t) {
      var at :| Stands(f, t, at);
    }
    assert Located(f, t).Some? ==> Stands(f, t, Located(f, t).value);
    hide P.Project, FootNorm;
  }

  // ---- the lists ---------------------------------------------------------------------------------------------

  /** ix are, in order, the positions of the tracks that satisfy p, and xs what is noted of each. */
  ghost predicate Told<X(!new)>(ts: seq<Track>, ix: seq<nat>, p: Track -> bool, xs: seq<X>, rel: (Track, X) -> bool) {
    && Increasing(ix) && |xs| == |ix|
    && (forall i :: 0 <= i < |ix| ==> ix[i] < |ts| && p(ts[ix[i]]) && rel(ts[ix[i]], xs[i]))
    && forall n :: 0 <= n < |ts| && p(ts[n]) ==> exists i :: 0 <= i < |ix| && ix[i] == n
  }

  lemma ToldNone<X(!new)>(p: Track -> bool, rel: (Track, X) -> bool)
    ensures Told([], [], p, [], rel)
  {
  }

  /** One more track. */
  lemma ToldSnoc<X(!new)>(ts: seq<Track>, ix: seq<nat>, p: Track -> bool, xs: seq<X>, rel: (Track, X) -> bool,
                          x: Option<X>)
    requires ts != [] && Told(ts[..|ts| - 1], ix, p, xs, rel)
    requires (x.Some? <==> p(ts[|ts| - 1])) && (x.Some? ==> rel(ts[|ts| - 1], x.value))
    ensures if x.Some? then Told(ts, ix + [|ts| - 1], p, xs + [x.value], rel) else Told(ts, ix, p, xs, rel)
  {
    var n, front := |ts| - 1, ts[..|ts| - 1];
    var ix' := if x.Some? then ix + [n] else ix;
    forall m | 0 <= m < |ts| && p(ts[m]) ensures exists i :: 0 <= i < |ix'| && ix'[i] == m {
      if m < n {
        assert p(front[m]);
        var i :| 0 <= i < |ix| && ix[i] == m;
        assert ix'[i] == m;
      } else {
        assert ix'[|ix|] == n;
      }
    }
  }

  lemma LastTrack(f: Frame, seen: set<VisitKey>, ts: seq<Track>)
    requires ts != []
    ensures Collect(f, seen, ts) == AddTrack(Collect(f, seen, ts[..|ts| - 1]), f, seen, ts[|ts| - 1])
  {
    hide AddTrack;
  }

  function BadgeOnly(): Track -> bool {
    (t: Track) => !t.mannequin && t.staff
  }

  function BothIds(): (Track, (Option<int>, Option<int>)) -> bool {
    (t: Track, x: (Option<int>, Option<int>)) => x == (t.pid, t.sp)
  }

  lemma AddsStaff(b: Batch, f: Frame, seen: set<VisitKey>, t: Track) returns (x: Option<(Option<int>, Option<int>)>)
    ensures AddTrack(b, f, seen, t).staff == b.staff + if x.Some? then [x.value] else []
    ensures (x.Some? <==> BadgeOnly()(t)) && (x.Some? ==> BothIds()(t, x.value))
  {
    x := if BadgeOnly()(t) then Some((t.pid, t.sp)) else None;
    hide Located, InGate, CellOf, GateKey, DemoBucket;
  }

  /** Badged tracks, mannequins aside, and nothing else, are staff marks. */
  lemma {:induction false} StaffExactly(f: Frame, seen: set<VisitKey>, ts: seq<Track>) returns (ix: seq<nat>)
    ensures Told(ts, ix, BadgeOnly(), Collect(f, seen, ts).staff, BothIds())
  {
    if ts == [] {
      ix := [];
      ToldNone<(Option<int>, Option<int>)>(BadgeOnly(), BothIds());
    } else {
      var n := |ts| - 1;
      ix := StaffExactly(f, seen, ts[..n]);
      LastTrack(f, seen, ts);
      var b := Collect(f, seen, ts[..n]);
      var x := AddsStaff(b, f, seen, ts[n]);
      ToldSnoc(ts, ix, BadgeOnly(), b.staff, BothIds(), x);
      ix := if x.Some? then ix + [n] else ix;
    }
    hide Collect, AddTrack, Told;
  }

  function Numbered(): Track -> bool {
    (t: Track) => !t.mannequin && !t.staff && t.pid.Some?
  }

  function NumberOf(): (Track, int) -> bool {
    (t: Track, x: int) => t.pid == Some(x)
  }

  function ShopperOf(): (Track, (int, Option<int>)) -> bool {
    (t: Track, x: (int, Option<int>)) => t.pid == Some(x.0) && t.sp == x.1
  }

  lemma AddsNumber(b: Batch, f: Frame, seen: set<VisitKey>, t: Track) returns (x: Option<int>)
    ensures AddTrack(b, f, seen, t).present == b.present + if x.Some? then [x.value] else []
    ensures (x.Some? <==> Numbered()(t)) && (x.Some? ==> NumberOf()(t, x.value))
  {
    x := if Numbered()(t) then Some(t.pid.value) else None;
    hide Located, InGate, CellOf, GateKey, DemoBucket;
  }

  /** The visible are the visitors with a number. */
  lemma {:induction false} VisibleExactly(f: Frame, seen: set<VisitKey>, ts: seq<Track>) returns (ix: seq<nat>)
    ensures Told(ts, ix, Numbered(), Collect(f, seen, ts).present, NumberOf())
  {
    if ts == [] {
      ix := [];
      ToldNone<int>(Numbered(), NumberOf());
    } else {
      var n := |ts| - 1;
      ix := VisibleExactly(f, seen, ts[..n]);
      LastTrack(f, seen, ts);
      var b := Collect(f, seen, ts[..n]);
      var x := AddsNumber(b, f, seen, ts[n]);
      ToldSnoc(ts, ix, Numbered(), b.present, NumberOf(), x);
      ix := if x.Some? then ix + [n] else ix;
    }
    hide Collect, AddTrack, Told;
  }

  lemma AddsShopper(b: Batch, f: Frame, seen: set<VisitKey>, t: Track) returns (x: Option<(int, Option<int>)>)
    ensures AddTrack(b, f, seen, t).spKeys == b.spKeys + if x.Some? then [x.value] else []
    ensures (x.Some? <==> Numbered()(t)) && (x.Some? ==> ShopperOf()(t, x.value))
  {
    x := if Numbered()(t) then Some((t.pid.value, t.sp)) else None;
    hide Located, InGate, CellOf, GateKey, DemoBucket;
  }

  /** And they come with the shopper identity each carries, if any. */
  lemma {:induction false} ShoppersExactly(f: Frame, seen: set<VisitKey>, ts: seq<Track>) returns (ix: seq<nat>)
    ensures Told(ts, ix, Numbered(), Collect(f, seen, ts).spKeys, ShopperOf())
  {
    if ts == [] {
      ix := [];
      ToldNone<(int, Option<int>)>(Numbered(), ShopperOf());
    } else {
      var n := |ts| - 1;
      ix := ShoppersExactly(f, seen, ts[..n]);
      LastTrack(f, seen, ts);
      var b := Collect(f, seen, ts[..n]);
      var x := AddsShopper(b, f, seen, ts[n]);
      ToldSnoc(ts, ix, Numbered(), b.spKeys, ShopperOf(), x);
      ix := if x.Some? then ix + [n] else ix;
    }
    hide Collect, AddTrack, Told;
  }

  ghost function Classed(): Track -> bool {
    (t: Track) => !t.mannequin && !t.staff && t.pid.Some? && DemoBucket(t).Some?
  }

  ghost function ClassOf(): (Track, (int, string, string)) -> bool {
    (t: Track, x: (int, string, string)) => t.pid == Some(x.0) && DemoBucket(t) == Some((x.1, x.2))
  }

  lemma AddsClass(b: Batch, f: Frame, seen: set<VisitKey>, t: Track) returns (x: Option<(int, string, string)>)
    ensures AddTrack(b, f, seen, t).demos == b.demos + if x.Some? then [x.value] else []
    ensures (x.Some? <==> Classed()(t)) && (x.Some? ==> ClassOf()(t, x.value))
  {
    x := if Classed()(t) then Some((t.pid.value, DemoBucket(t).value.0, DemoBucket(t).value.1)) else None;
    hide Located, InGate, CellOf, GateKey, DemoBucket;
  }

  /** Classified are the numbered visitors with a label. */
  lemma {:induction false} ClassesExactly(f: Frame, seen: set<VisitKey>, ts: seq<Track>) returns (ix: seq<nat>)
    ensures Told(ts, ix, Classed(), Collect(f, seen, ts).demos, ClassOf())
  {
    if ts == [] {
      ix := [];
      ToldNone<(int, string, string)>(Classed(), ClassOf());
    } else {
      var n := |ts| - 1;
      ix := ClassesExactly(f, seen, ts[..n]);
      LastTrack(f, seen, ts);
      var b := Collect(f, seen, ts[..n]);
      var x := AddsClass(b, f, seen, ts[n]);
      ToldSnoc(ts, ix, Classed(), b.demos, ClassOf(), x);
      ix := if x.Some? then ix + [n] else ix;
    }
    hide Collect, AddTrack, Told, DemoBucket;
  }

  /** The heatmap key k is the fine cell of the place the track stands at. */
  ghost predicate HeatAt(f: Frame, t: Track, k: Key) {
    var foot := FootNorm(t.box, f.width, f.height);
    foot.Some? &&
    var cell := P.ProjectToCell(Some(f.plan), f.camera, foot.value);
    cell.Some? && k == Cell(f.store, f.camera, f.hour, cell.value.0, cell.value.1)
  }

  lemma CellIsHeat(f: Frame, t: Track)
    requires !t.mannequin && !t.staff && Located(f, t).Some?
    ensures HeatAt(f, t, CellOf(f, Located(f, t).value))
  {
    hide P.Project, FootNorm, P.ClampCell;
  }

  ghost function OnTheMap(f: Frame): Track -> bool {
    (t: Track) => OnMap(f, t)
  }

  ghost function HeatOf(f: Frame): (Track, Key) -> bool {
    (t: Track, x: Key) => HeatAt(f, t, x)
  }

  lemma AddsHeat(b: Batch, f: Frame, seen: set<VisitKey>, t: Track) returns (x: Option<Key>)
    ensures AddTrack(b, f, seen, t).pending == b.pending + if x.Some? then [x.value] else []
    ensures (x.Some? <==> OnTheMap(f)(t)) && (x.Some? ==> HeatOf(f)(t, x.value))
  {
    if !t.mannequin && !t.staff {
      LocatedStands(f, t);
      if Located(f, t).Some? {
        CellIsHeat(f, t);
      }
    }
    x := if !t.mannequin && !t.staff && Located(f, t).Some? then Some(CellOf(f, Located(f, t).value)) else None;
    hide Located, InGate, CellOf, GateKey, DemoBucket, HeatAt, P.Project, FootNorm;
  }

  /** The heatmap gains the cell of every visitor on the plan, numbered or not. */
  lemma {:induction false} HeatExactly(f: Frame, seen: set<VisitKey>, ts: seq<Track>) returns (ix: seq<nat>)
    ensures Told(ts, ix, OnTheMap(f), Collect(f, seen, ts).pending, HeatOf(f))
  {
    if ts == [] {
      ix := [];
      ToldNone<Key>(OnTheMap(f), HeatOf(f));
    } else {
      var n := |ts| - 1;
      ix := HeatExactly(f, seen, ts[..n]);
      LastTrack(f, seen, ts);
      var b := Collect(f, seen, ts[..n]);
      var x := AddsHeat(b, f, seen, ts[n]);
      ToldSnoc(ts, ix, OnTheMap(f), b.pending, HeatOf(f), x);
      ix := if x.Some? then ix + [n] else ix;
    }
    hide Collect, AddTrack, Told, HeatAt, OnMap;
  }

  /** The walked point, and the coarse cell, row by row, of the place a track stands at. */
  ghost predicate StepAt(f: Frame, t: Track, cell: nat, p: Point) {
    exists at :: Stands(f, t, at) && StepIn(at, cell, p)
  }

  /** p is the place as a share of the plan, and cell its coarse cell. */
  ghost predicate StepIn(at: P.OnPlan, cell: nat, p: Point) {
    && at.size.x > 0.0 && at.size.y > 0.0
    && p.x * at.size.x == at.p.x && p.y * at.size.y == at.p.y && cell == P.FlowCell(at)
  }

  function Share(q: P.OnPlan): Point
    requires q.size.x > 0.0 && q.size.y > 0.0
  {
    Point(q.p.x / q.size.x, q.p.y / q.size.y)
  }

  lemma Quotient(a: real, b: real)
    requires b > 0.0
    ensures a / b * b == a
  {
  }

  lemma ShareOf(q: P.OnPlan)
    requires q.size.x > 0.0 && q.size.y > 0.0
    ensures StepIn(q, P.FlowCell(q), Share(q))
  {
    Quotient(q.p.x, q.size.x);
    Quotient(q.p.y, q.size.y);
    hide P.FlowCell;
  }

  lemma LocatedStep(f: Frame, t: Track)
    requires !t.mannequin && !t.staff && Located(f, t).Some?
    ensures var q := Located(f, t).value;
      StepAt(f, t, P.FlowCell(q), Share(q))
  {
    LocatedStands(f, t);
    ShareOf(Located(f, t).value);
    hide Stands, Located, P.FlowCell, StepIn;
  }

  ghost function NumberedOnMap(f: Frame): Track -> bool {
    (t: Track) => OnMap(f, t) && t.pid.Some?
  }

  /** Of a track on the plan, its coarse cell; and its walked point. */
  ghost function CellFor(f: Frame): (Track, (int, nat)) -> bool {
    (t: Track, x: (int, nat)) => t.pid == Some(x.0) && exists p :: StepAt(f, t, x.1, p)
  }

  ghost function PointFor(f: Frame): (Track, (int, Point)) -> bool {
    (t: Track, x: (int, Point)) => t.pid == Some(x.0) && exists cell :: StepAt(f, t, cell, x.1)
  }

  lemma AddsCell(b: Batch, f: Frame, seen: set<VisitKey>, t: Track) returns (x: Option<(int, nat)>)
    ensures AddTrack(b, f, seen, t).cells == b.cells + if x.Some? then [x.value] else []
    ensures (x.Some? <==> NumberedOnMap(f)(t)) && (x.Some? ==> CellFor(f)(t, x.value))
  {
    if !t.mannequin && !t.staff {
      LocatedStands(f, t);
      if Located(f, t).Some? {
        LocatedStep(f, t);
      }
    }
    x := if !t.mannequin && !t.staff && t.pid.Some? && Located(f, t).Some?
    then Some((t.pid.value, P.FlowCell(Located(f, t).value))) else None;
    hide Located, InGate, CellOf, GateKey, DemoBucket, StepAt, P.Project, FootNorm, P.FlowCell;
  }

  /** Numbered visitors on the plan leave a coarse cell, */
  lemma {:induction false} CellsExactly(f: Frame, seen: set<VisitKey>, ts: seq<Track>) returns (ix: seq<nat>)
    ensures Told(ts, ix, NumberedOnMap(f), Collect(f, seen, ts).cells, CellFor(f))
  {
    if ts == [] {
      ix := [];
      ToldNone<(int, nat)>(NumberedOnMap(f), CellFor(f));
    } else {
      var n := |ts| - 1;
      ix := CellsExactly(f, seen, ts[..n]);
      LastTrack(f, seen, ts);
      var b := Collect(f, seen, ts[..n]);
      var x := AddsCell(b, f, seen, ts[n]);
      ToldSnoc(ts, ix, NumberedOnMap(f), b.cells, CellFor(f), x);
      ix := if x.Some? then ix + [n] else ix;
    }
    hide Collect, AddTrack, Told, StepAt, OnMap;
  }

  lemma AddsPoint(b: Batch, f: Frame, seen: set<VisitKey>, t: Track) returns (x: Option<(int, Point)>)
    ensures AddTrack(b, f, seen, t).points == b.points + if x.Some? then [x.value] else []
    ensures (x.Some? <==> NumberedOnMap(f)(t)) && (x.Some? ==> PointFor(f)(t, x.value))
  {
    if !t.mannequin && !t.staff {
      LocatedStands(f, t);
      if Located(f, t).Some? {
        LocatedStep(f, t);
      }
    }
    x := if !t.mannequin && !t.staff && t.pid.Some? && Located(f, t).Some?
    then Some((t.pid.value, Share(Located(f, t).value))) else None;
    hide Located, InGate, CellOf, GateKey, DemoBucket, StepAt, P.Project, FootNorm, P.FlowCell;
  }

  /** and a walked point. */
  lemma {:induction false} PointsExactly(f: Frame, seen: set<VisitKey>, ts: seq<Track>) returns (ix: seq<nat>)
    ensures Told(ts, ix, NumberedOnMap(f), Collect(f, seen, ts).points, PointFor(f))
  {
    if ts == [] {
      ix := [];
      ToldNone<(int, Point)>(NumberedOnMap(f), PointFor(f));
    } else {
      var n := |ts| - 1;
      ix := PointsExactly(f, seen, ts[..n]);
      LastTrack(f, seen, ts);
      var b := Collect(f, seen, ts[..n]);
      var x := AddsPoint(b, f, seen, ts[n]);
      ToldSnoc(ts, ix, NumberedOnMap(f), b.points, PointFor(f), x);
      ix := if x.Some? then ix + [n] else ix;
    }
    hide Collect, AddTrack, Told, StepAt, OnMap;
  }

  /** In one of the frame's gates: three or more well-formed corners, and the point inside. */
  ghost predicate AtGate(f: Frame, at: Point) {
    exists g :: g in f.gates && Polygon.WellFormed(g) && Polygon.Inside(at, Polygon.Points(g))
  }

  /** A visit is told apart by the shopper of the store if the track carries one, else by camera and number. */
  ghost predicate KeyFor(f: Frame, t: Track, k: VisitKey) {
    if t.sp.Some? then k == BySp(f.store, t.sp.value) else t.pid.Some? && k == ByTrack(f.camera, t.pid.value)
  }

  ghost function AtAGate(f: Frame): Track -> bool {
    (t: Track) => t.pid.Some? && exists at :: Stands(f, t, at) && AtGate(f, at.p)
  }

  ghost function HitOf(f: Frame, seen: set<VisitKey>): (Track, (VisitKey, bool)) -> bool {
    (t: Track, x: (VisitKey, bool)) => KeyFor(f, t, x.0) && (x.1 <==> x.0 !in seen)
  }

  lemma InGateIs(f: Frame, p: Point)
    ensures InGate(f.gates, p) <==> AtGate(f, p)
  {
    hide Polygon.Inside;
    if AtGate(f, p) {
      var g :| g in f.gates && Polygon.WellFormed(g) && Polygon.Inside(p, Polygon.Points(g));
      var i :| 0 <= i < |f.gates| && f.gates[i] == g;
      assert InGate(f.gates, p);
    }
  }

  lemma GateTrack(f: Frame, t: Track)
    requires !t.mannequin && !t.staff && t.pid.Some?
    ensures AtAGate(f)(t) <==> Located(f, t).Some? && InGate(f.gates, Located(f, t).value.p)
  {
    LocatedStands(f, t);
    if Located(f, t).Some? {
      InGateIs(f, Located(f, t).value.p);
    }
    if at :| Stands(f, t, at) && AtGate(f, at.p) {
      assert Located(f, t) == Some(at);
    }
    hide InGate, AtGate, P.Project, FootNorm;
  }

  lemma AddsHit(b: Batch, f: Frame, seen: set<VisitKey>, t: Track) returns (x: Option<(VisitKey, bool)>)
    ensures AddTrack(b, f, seen, t).gateHits == b.gateHits + if x.Some? then [x.value] else []
    ensures (x.Some? <==> AtAGate(f)(t)) && (x.Some? ==> HitOf(f, seen)(t, x.value))
  {
    if !t.mannequin && !t.staff && t.pid.Some? {
      GateTrack(f, t);
    }
    var hit := !t.mannequin && !t.staff && t.pid.Some? && Located(f, t).Some? && InGate(f.gates, Located(f, t).value.p);
    x := if hit then Some((GateKey(f, t), GateKey(f, t) !in seen)) else None;
    hide Located, InGate, CellOf, DemoBucket, AtGate, P.Project, FootNorm;
  }

  /** Numbered visitors in a gate are its hits, one each however many gates, fresh if the key was not seen before. */
  lemma {:induction false} HitsExactly(f: Frame, seen: set<VisitKey>, ts: seq<Track>) returns (ix: seq<nat>)
    ensures Told(ts, ix, AtAGate(f), Collect(f, seen, ts).gateHits, HitOf(f, seen))
  {
    if ts == [] {
      ix := [];
      ToldNone<(VisitKey, bool)>(AtAGate(f), HitOf(f, seen));
    } else {
      var n := |ts| - 1;
      ix := HitsExactly(f, seen, ts[..n]);
      LastTrack(f, seen, ts);
      var b := Collect(f, seen, ts[..n]);
      var x := AddsHit(b, f, seen, ts[n]);
      ToldSnoc(ts, ix, AtAGate(f), b.gateHits, HitOf(f, seen), x);
      ix := if x.Some? then ix + [n] else ix;
    }
    hide Collect, AddTrack, Told, AtGate, Stands, KeyFor;
  }
}
