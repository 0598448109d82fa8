/**
 The aggregator object and the database it flushes to. Every method is proved to perform
 the transition of the same name in FootfallModel on the object's fields.
 */
module FootfallAggregator {
  import opened Options
  import opened Tally
  import opened FootfallModel
  import opened Sequences
  import opened Geometry
  import P = Projection
  import Polygon
  import PathSplit
  import Rdp

  /** The analytics tables. */
  class Warehouse {
    var cells: Counter
    var visits: Counter
    var dwellTracks: Counter
    var dwellMs: Counter
    var flow: Counter
    var demo: Counter
    var paths: seq<PathRow>

    ghost function Abs(): Tables
      reads this
    {
      Tables(cells, visits, dwellTracks, dwellMs, flow, demo, paths)
    }

    constructor ()
      ensures Abs() == Tables(map[], map[], map[], map[], map[], map[], [])
    {
      cells, visits, dwellTracks, dwellMs, flow, demo, paths := map[], map[], map[], map[], map[], map[], [];
    }

    method Commit(t: Tables)
      modifies this
      ensures Abs() == t
    {
      cells, visits, dwellTracks, dwellMs, flow, demo, paths :=
        t.cells, t.visits, t.dwellTracks, t.dwellMs, t.flow, t.demo, t.paths;
    }
  }

  /** One order in which a dictionary may yield a set of its keys. */
  method Listing<K(==, !new)>(members: set<K>) returns (ks: seq<K>)
    ensures Enumerates(ks, members)
  {
    ks := [];
    var left := members;
    while left != {}
      invariant left <= members
      invariant Enumerates(ks, members - left)
      decreases left
    {
      var k :| k in left;
      ks, left := ks + [k], left - {k};
    }
    assert members - left == members;
  }

  function OfStore(m: Counter, store: int): Counter {
    map k | k in m && k.store == store :: m[k]
  }

  /** The rows of one table grouped by store, each store's rows with pairwise distinct keys. */
  ghost predicate Grouped(m: Counter, groups: map<int, seq<(Key, int)>>) {
    && (forall store :: store in groups ==> Lists(groups[store], OfStore(m, store)))
    && (forall k :: k in m ==> k.store in groups)
  }

  lemma ListsSnoc(rows: seq<(Key, int)>, m: Counter, k: Key, n: int)
    requires Lists(rows, m) && k !in m
    ensures Lists(rows + [(k, n)], m[k := n])
  {
    var all := rows + [(k, n)];
    var m' := m[k := n];
    forall q | q in m'
      ensures exists i :: 0 <= i < |all| && all[i].0 == q
    {
      if q == k {
        assert all[|rows|].0 == q;
      } else {
        var i :| 0 <= i < |rows| && rows[i].0 == q;
        assert all[i].0 == q;
      }
    }
  }

  method GroupByStore(m: Counter) returns (groups: map<int, seq<(Key, int)>>)
    ensures Grouped(m, groups)
  {
    hide Lists;
    var rows := Items(m);
    groups := map[];
    ghost var done: Counter := map[];
    NoRows(map[]);
    for i := 0 to |rows|
      invariant Grouped(done, groups)
      invariant forall j :: 0 <= j < i ==> rows[j].0 in done
      invariant forall k :: k in done ==> k in m && done[k] == m[k]
      invariant forall j :: i <= j < |rows| ==> rows[j].0 !in done
    {
      var (k, n) := rows[i];
      RowsListed(rows, m, i);
      ghost var was, wasDone := groups, done;
      groups := groups[k.store := (if k.store in groups then groups[k.store] else []) + [(k, n)]];
      done := done[k := n];
      GroupSnoc(wasDone, was, k, n);
    }
    AllListed(rows, m, done);
  }

  lemma NoRows(m: Counter)
    requires m == map[]
    ensures Lists([], m)
  {
  }

  lemma RowsListed(rows: seq<(Key, int)>, m: Counter, i: nat)
    requires Lists(rows, m) && i < |rows|
    ensures rows[i].0 in m && m[rows[i].0] == rows[i].1
    ensures forall j :: i < j < |rows| ==> rows[j].0 != rows[i].0
  {
  }

  lemma AllListed(rows: seq<(Key, int)>, m: Counter, done: Counter)
    requires Lists(rows, m)
    requires forall j :: 0 <= j < |rows| ==> rows[j].0 in done
    requires forall k :: k in done ==> k in m && done[k] == m[k]
    ensures done == m
  {
  }

  lemma GroupSnoc(m: Counter, groups: map<int, seq<(Key, int)>>, k: Key, n: int)
    requires Grouped(m, groups) && k !in m
    ensures Grouped(m[k := n], groups[k.store := (if k.store in groups then groups[k.store] else []) + [(k, n)]])
  {
    var m' := m[k := n];
    var rows := if k.store in groups then groups[k.store] else [];
    var groups' := groups[k.store := rows + [(k, n)]];
    forall store | store in groups'
      ensures Lists(groups'[store], OfStore(m', store))
    {
      hide Lists;
      if store == k.store {
        if store !in groups {
          assert OfStore(m, store) == map[];
          NoRows(OfStore(m, store));
        }
        ListsSnoc(rows, OfStore(m, store), k, n);
        assert OfStore(m', store) == OfStore(m, store)[k := n];
      } else {
        assert OfStore(m', store) == OfStore(m, store);
      }
    }
  }

  /** One table's upserts, a statement per store with a known organization. */
  method WriteCounter(table: Counter, m: Counter, orgs: map<int, int>) returns (after: Counter)
    ensures after == Merge(table, Known(m, orgs))
  {
    hide Lists;
    var groups := GroupByStore(m);
    var stores := Listing(groups.Keys);
    after := table;
    ghost var done: map<int, int> := map[];
    for i := 0 to |stores|
      invariant after == Merge(table, Known(m, done))
      invariant forall q :: q in done ==> q in orgs
      invariant forall j :: 0 <= j < i ==> (stores[j] in done <==> stores[j] in orgs)
      invariant forall j :: i <= j < |stores| ==> stores[j] !in done
    {
      var store := stores[i];
      if store in orgs {
        ghost var wasDone := done;
        after := UpsertAdd(after, groups[store], OfStore(m, store));
        done := done[store := orgs[store]];
        MergeStore(table, m, wasDone, store, orgs[store]);
      }
    }
    assert Known(m, done) == Known(m, orgs);
  }

  lemma MergeStore(table: Counter, m: Counter, done: map<int, int>, store: int, org: int)
    requires store !in done
    ensures Merge(Merge(table, Known(m, done)), OfStore(m, store)) == Merge(table, Known(m, done[store := org]))
  {
  }

  method WritePaths(rows: seq<PathRow>, orgs: map<int, int>) returns (kept: seq<PathRow>)
    ensures kept == KnownPaths(rows, orgs)
  {
    kept := [];
    for i := 0 to |rows|
      invariant kept == KnownPaths(rows[..i], orgs)
    {
      assert rows[..i + 1][..i] == rows[..i];
      if rows[i].store in orgs {
        kept := kept + [rows[i]];
      }
    }
    assert rows[..|rows|] == rows;
  }

  class FootfallAggregator {
    var buf: Counter
    var visits: Counter
    var visitCredit: map<VisitKey, Key>
    var gateSeen: map<VisitKey, real>
    var gateLastPrune: real
    var presence: map<TrackKey, Presence>
    var spPresence: map<SpanKey, Span>
    var demoSeen: map<TrackKey, real>
    var demoBuf: Counter
    var dwellTracks: Counter
    var dwellMs: Counter
    var flowBuf: Counter
    var pathBuf: seq<PathRow>
    var storeOrg: map<int, int>
    var storeWalls: map<int, seq<PathSplit.Wall>>
    var camPos: map<(int, string), Point>
    var lastFlush: real

    ghost function GateState(): Gates
      reads this
    {
      Gates(visits, visitCredit, gateSeen, gateLastPrune)
    }

    ghost function DemoState(): Demos
      reads this
    {
      Demos(demoBuf, demoSeen)
    }

    ghost function DwellState(): Dwell
      reads this
    {
      Dwell(dwellTracks, dwellMs)
    }

    ghost function TenancyState(): Tenancy
      reads this
    {
      Tenancy(storeOrg, storeWalls, camPos)
    }

    ghost function Abs(): State
      reads this
    {
      State(buf, GateState(), DemoState(), flowBuf, DwellState(), presence, spPresence, pathBuf, TenancyState(),
        lastFlush)
    }

    constructor (now: real)
      ensures Abs() == State(map[], Gates(map[], map[], map[], now), Demos(map[], map[]), map[], Dwell(map[], map[]),
                             map[], map[], [], Tenancy(map[], map[], map[]), now)
    {
      buf, visits, visitCredit, gateSeen, gateLastPrune := map[], map[], map[], map[], now;
      presence, spPresence, demoSeen, demoBuf := map[], map[], map[], map[];
      dwellTracks, dwellMs, flowBuf, pathBuf := map[], map[], map[], [];
      storeOrg, storeWalls, camPos, lastFlush := map[], map[], map[], now;
    }

    method RegisterCamera(store: int, org: Option<int>, camera: string, walls: seq<PathSplit.Wall>, pos: Option<Point>)
      modifies `storeOrg, `storeWalls, `camPos
      ensures Abs() == old(Abs()).(tenancy := Register(old(TenancyState()), store, org, camera, walls, pos))
    {
      storeWalls := storeWalls[store := walls];
      if pos.Some? {
        camPos := camPos[(store, camera) := pos.value];
      }
      if org.Some? {
        storeOrg := storeOrg[store := org.value];
      }
    }

    // ---- reading a frame ------------------------------------------------------------------------

    method HitsGate(gates: seq<seq<Polygon.Vertex>>, p: Point) returns (hit: bool)
      ensures hit == InGate(gates, p)
    {
      hide Polygon.Inside;
      for i := 0 to |gates|
        invariant forall j :: 0 <= j < i ==>
          !(Polygon.WellFormed(gates[j]) && Polygon.Inside(p, Polygon.Points(gates[j])))
      {
        var inside := Polygon.PointInPolygon(p.x, p.y, gates[i]);
        if inside {
          return true;
        }
      }
      return false;
    }

    method CollectTrack(b0: Batch, f: Frame, t: Track) returns (b: Batch)
      ensures b == AddTrack(b0, f, gateSeen.Keys, t)
    {
      hide Located, InGate, DemoBucket;
      b := b0;
      if t.mannequin {
        return;
      }
      if t.staff {
        b := b.(staff := b.staff + [(t.pid, t.sp)]);
        return;
      }
      if t.pid.Some? {
        b := b.(present := b.present + [t.pid.value], spKeys := b.spKeys + [(t.pid.value, t.sp)]);
        var demo := DemoBucket(t);
        if demo.Some? {
          b := b.(demos := b.demos + [(t.pid.value, demo.value.0, demo.value.1)]);
        }
      }
      var q := Located(f, t);
      if q.None? {
        return;
      }
      b := b.(pending := b.pending + [CellOf(f, q.value)]);
      if t.pid.Some? {
        var p, size := q.value.p, q.value.size;
        b := b.(cells := b.cells + [(t.pid.value, P.FlowCell(q.value))],
                points := b.points + [(t.pid.value, Point(p.x / size.x, p.y / size.y))]);
        var hit := HitsGate(f.gates, p);
        if hit {
          var k := GateKey(f, t);
          b := b.(gateHits := b.gateHits + [(k, k !in gateSeen)]);
        }
      }
    }

    method CollectFrame(f: Frame) returns (b: Batch)
      ensures b == Collect(f, gateSeen.Keys, f.tracks)
    {
      hide AddTrack;
      b := EMPTY_BATCH;
      for i := 0 to |f.tracks|
        invariant b == Collect(f, gateSeen.Keys, f.tracks[..i])
      {
        assert f.tracks[..i + 1][..i] == f.tracks[..i];
        b := CollectTrack(b, f, f.tracks[i]);
      }
      assert f.tracks[..|f.tracks|] == f.tracks;
    }

    // ---- applying a batch -----------------------------------------------------------------------

    method CancelVisitOf(c: Moment, m: (Option<int>, Option<int>))
      modifies `visits, `visitCredit, `gateSeen
      ensures GateState() == CancelVisit(old(GateState()), c, m)
    {
      var vkey := StaffKey(c, m);
      if vkey.Some? {
        gateSeen := gateSeen[vkey.value := c.now];
        if vkey.value in visitCredit {
          var bucket := visitCredit[vkey.value];
          visitCredit := visitCredit - {vkey.value};
          if Get(visits, bucket) > 0 {
            visits := visits[bucket := visits[bucket] - 1];
          }
        }
      }
    }

    method CancelStaff(c: Moment, marks: seq<(Option<int>, Option<int>)>)
      modifies `visits, `visitCredit, `gateSeen, `presence, `spPresence
      ensures GateState() == CancelVisits(old(GateState()), c, marks)
      ensures presence == MarkAllStaff(old(presence), c, marks)
      ensures spPresence == DropSpans(old(spPresence), c, marks)
    {
      hide CancelVisit;
      for i := 0 to |marks|
        invariant GateState() == CancelVisits(old(GateState()), c, marks[..i])
        invariant presence == MarkAllStaff(old(presence), c, marks[..i])
        invariant spPresence == DropSpans(old(spPresence), c, marks[..i])
      {
        assert marks[..i + 1][..i] == marks[..i];
        var (pid, sp) := marks[i];
        CancelVisitOf(c, marks[i]);
        if pid.Some? {
          var pk := (c.camera, pid.value);
          if pk in presence && !presence[pk].isStaff {
            presence := presence[pk := presence[pk].(isStaff := true, path := [])];
          }
        }
        if sp.Some? {
          spPresence := spPresence - {(c.store, sp.value)};
        }
      }
      assert marks[..|marks|] == marks;
    }

    method CountCells(pending: seq<Key>)
      modifies `buf
      ensures buf == BumpAll(old(buf), pending)
    {
      for i := 0 to |pending|
        invariant buf == BumpAll(old(buf), pending[..i])
      {
        assert pending[..i + 1][..i] == pending[..i];
        buf := buf[pending[i] := Get(buf, pending[i]) + 1];
      }
      assert pending[..|pending|] == pending;
    }

    method CountGateHits(c: Moment, hits: seq<(VisitKey, bool)>)
      modifies `visits, `visitCredit, `gateSeen
      ensures GateState() == HitGates(old(GateState()), c, hits)
    {
      for i := 0 to |hits|
        invariant GateState() == HitGates(old(GateState()), c, hits[..i])
      {
        assert hits[..i + 1][..i] == hits[..i];
        var (key, isNew) := hits[i];
        gateSeen := gateSeen[key := c.now];
        if isNew {
          var bucket := Bucket(c.store, c.camera, c.hour);
          visits := visits[bucket := Get(visits, bucket) + 1];
          visitCredit := visitCredit[key := bucket];
        }
      }
      assert hits[..|hits|] == hits;
    }

    method TouchPresences(c: Moment, pids: seq<int>)
      modifies `presence
      ensures presence == TouchAll(old(presence), c, pids)
    {
      for i := 0 to |pids|
        invariant presence == TouchAll(old(presence), c, pids[..i])
      {
        assert pids[..i + 1][..i] == pids[..i];
        var pk := (c.camera, pids[i]);
        if pk !in presence {
          presence := presence[pk := NewPresence(c)];
        } else {
          presence := presence[pk := presence[pk].(last := c.now)];
        }
      }
      assert pids[..|pids|] == pids;
    }

    method TouchSpans(c: Moment, es: seq<(int, Option<int>)>)
      modifies `presence, `spPresence
      ensures presence == LinkAll(old(presence), c, es)
      ensures spPresence == ExtendSpans(old(spPresence), c, es)
    {
      for i := 0 to |es|
        invariant presence == LinkAll(old(presence), c, es[..i])
        invariant spPresence == ExtendSpans(old(spPresence), c, es[..i])
      {
        assert es[..i + 1][..i] == es[..i];
        var (pid, sp) := es[i];
        if sp.Some? {
          var pk, sk := (c.camera, pid), (c.store, sp.value);
          if pk in presence {
            presence := presence[pk := presence[pk].(hasSp := true)];
          }
          if sk !in spPresence {
            spPresence := spPresence[sk := Span(c.now, c.now, c.hour)];
          } else {
            spPresence := spPresence[sk := spPresence[sk].(last := c.now)];
          }
        }
      }
      assert es[..|es|] == es;
    }

    method StampDemographics(c: Moment, ds: seq<(int, string, string)>)
      modifies `presence
      ensures presence == StampAll(old(presence), c, ds)
    {
      for i := 0 to |ds|
        invariant presence == StampAll(old(presence), c, ds[..i])
      {
        assert ds[..i + 1][..i] == ds[..i];
        var (pid, gender, age) := ds[i];
        var pk := (c.camera, pid);
        if pk in presence && presence[pk].gender.None? && gender != "unknown" {
          var known := if age != "unknown" then Some(age) else None;
          presence := presence[pk := presence[pk].(gender := Some(gender), age := known)];
        }
      }
      assert ds[..|ds|] == ds;
    }

    method CountDemographics(c: Moment, ds: seq<(int, string, string)>)
      modifies `demoBuf, `demoSeen
      ensures DemoState() == CountDemos(old(DemoState()), c, ds)
    {
      for i := 0 to |ds|
        invariant DemoState() == CountDemos(old(DemoState()), c, ds[..i])
      {
        assert ds[..i + 1][..i] == ds[..i];
        var (pid, gender, age) := ds[i];
        var isNew := (c.camera, pid) !in demoSeen;
        demoSeen := demoSeen[(c.camera, pid) := c.now];
        if isNew {
          var key := Demo(c.store, c.camera, c.hour, gender, age);
          demoBuf := demoBuf[key := Get(demoBuf, key) + 1];
        }
      }
      assert ds[..|ds|] == ds;
    }

    method Wanted(path: seq<Point>, walls: seq<PathSplit.Wall>, camera: Option<Point>, p: Point) returns (keep: bool)
      ensures keep == Samples(path, walls, camera, p)
    {
      if |path| >= PATH_MAX_POINTS || !OnCanvas(p) {
        return false;
      }
      if camera.Some? && walls != [] {
        var start := Point(
          camera.value.x + (p.x - camera.value.x) * 0.04, camera.value.y + (p.y - camera.value.y) * 0.04);
        var hidden := PathSplit.AnyIntersects(start, p, walls);
        if hidden {
          return false;
        }
      }
      keep := path == [] || Len2(path[|path| - 1], p) >= PATH_MIN_STEP_SQ;
    }

    method SamplePaths(c: Moment, es: seq<(int, Point)>)
      modifies `presence
      ensures presence == SampleAll(old(presence), c, WallsOf(TenancyState(), c.store),
        CameraOf(TenancyState(), c.store, c.camera), es)
    {
      hide Samples;
      var walls := if c.store in storeWalls then storeWalls[c.store] else [];
      var camera := if (c.store, c.camera) in camPos then Some(camPos[(c.store, c.camera)]) else None;
      for i := 0 to |es|
        invariant presence == SampleAll(old(presence), c, walls, camera, es[..i])
      {
        assert es[..i + 1][..i] == es[..i];
        var (pid, p) := es[i];
        var pk := (c.camera, pid);
        if pk in presence {
          var keep := Wanted(presence[pk].path, walls, camera, p);
          if keep {
            presence := presence[pk := presence[pk].(path := presence[pk].path + [Point(Round4(p.x), Round4(p.y))])];
          }
        }
      }
      assert es[..|es|] == es;
    }

    method CountMovement(c: Moment, es: seq<(int, nat)>)
      modifies `presence, `flowBuf
      ensures presence == EnterAll(old(presence), c, es)
      ensures flowBuf == CountFlows(old(flowBuf), old(presence), c, es)
    {
      for i := 0 to |es|
        invariant presence == EnterAll(old(presence), c, es[..i])
        invariant flowBuf == CountFlows(old(flowBuf), old(presence), c, es[..i])
      {
        assert es[..i + 1][..i] == es[..i];
        var (pid, cell) := es[i];
        var pk := (c.camera, pid);
        if pk in presence {
          var prev := presence[pk].lastCell;
          if prev.Some? && prev.value != cell && P.FlowAdjacent(prev.value, cell) {
            var edge := Edge(c.store, c.camera, c.hour, prev.value, cell);
            flowBuf := flowBuf[edge := Get(flowBuf, edge) + 1];
          }
          presence := presence[pk := presence[pk].(lastCell := Some(cell))];
        }
      }
      assert es[..|es|] == es;
    }

    // ---- pruning --------------------------------------------------------------------------------

    method ForgetGates(now: real)
      modifies `visitCredit, `gateSeen
      ensures gateSeen == Fresh(old(gateSeen), now)
      ensures visitCredit == old(visitCredit) - set k | k in old(gateSeen) && now - old(gateSeen)[k] >= GATE_TTL
    {
      var stale := set k | k in gateSeen && now - gateSeen[k] >= GATE_TTL;
      ghost var all := stale;
      while stale != {}
        invariant stale <= all
        invariant gateSeen == old(gateSeen) - (all - stale)
        invariant visitCredit == old(visitCredit) - (all - stale)
        decreases stale
      {
        var k :| k in stale;
        gateSeen := gateSeen - {k};
        visitCredit := visitCredit - {k};
        stale := stale - {k};
      }
    }

    method ForgetDemos(now: real)
      modifies `demoSeen
      ensures demoSeen == Fresh(old(demoSeen), now)
    {
      var stale := set k | k in demoSeen && now - demoSeen[k] >= GATE_TTL;
      ghost var all := stale;
      while stale != {}
        invariant stale <= all
        invariant demoSeen == old(demoSeen) - (all - stale)
        decreases stale
      {
        var k :| k in stale;
        demoSeen := demoSeen - {k};
        stale := stale - {k};
      }
    }

    method PruneGateSeen(now: real)
      modifies `visitCredit, `gateSeen, `gateLastPrune, `demoSeen
      ensures GateState() == PruneGates(old(GateState()), now)
      ensures DemoState() == PruneDemos(old(GateState()), old(DemoState()), now)
    {
      if now - gateLastPrune < GATE_TTL {
        return;
      }
      gateLastPrune := now;
      ForgetGates(now);
      ForgetDemos(now);
    }

    method PathRows(k: TrackKey, p: Presence) returns (rows: seq<PathRow>)
      ensures rows == RowsOf(k, p, Parts(p, WallsOf(TenancyState(), p.store)))
    {
      hide PathSplit.Saved, PathSplit.Bounds, Rdp.Simplify;
      rows := [];
      if |p.path| >= PathSplit.MIN_SAVED_POINTS {
        var walls := if p.store in storeWalls then storeWalls[p.store] else [];
        var parts := PathSplit.SplitPath(p.path, walls);
        for i := 0 to |parts|
          invariant rows == RowsOf(k, p, parts[..i])
        {
          assert parts[..i + 1][..i] == parts[..i];
          var simplified := Rdp.Rdp(parts[i], PATH_RDP_EPS);
          if |simplified| >= PathSplit.MIN_SAVED_POINTS {
            rows := rows + [PathRow(p.store, k.0, p.hour, p.last - p.first, simplified, p.gender, p.age)];
          }
        }
        assert parts[..|parts|] == parts;
      }
    }

    method BankDwell(bucket: Key, ms: int)
      modifies `dwellTracks, `dwellMs
      ensures DwellState() == Bank(old(DwellState()), Banked(bucket, ms))
    {
      dwellTracks := dwellTracks[bucket := Get(dwellTracks, bucket) + 1];
      dwellMs := dwellMs[bucket := Get(dwellMs, bucket) + ms];
    }

    method CloseTrack(k: TrackKey)
      requires k in presence
      modifies `presence, `pathBuf, `dwellTracks, `dwellMs
      ensures presence == old(presence) - {k}
      ensures var p := old(presence)[k];
              && pathBuf == old(pathBuf)
                   + (if p.isStaff then [] else RowsOf(k, p, Parts(p, WallsOf(TenancyState(), p.store))))
              && DwellState() == Bank(old(DwellState()), CloseOutcome(k, p))
    {
      hide RowsOf, Parts;
      var p := presence[k];
      presence := presence - {k};
      if !p.isStaff {
        var rows := PathRows(k, p);
        pathBuf := pathBuf + rows;
        if !p.hasSp {
          BankDwell(Bucket(p.store, k.0, p.hour), DwellMs(p.first, p.last));
        }
      }
    }

    method PruneTracks(now: real) returns (order: seq<TrackKey>)
      modifies `presence, `pathBuf, `dwellTracks, `dwellMs
      ensures Enumerates(order, StaleTracks(old(presence), now))
      ensures presence == old(presence) - set k | k in order
      ensures pathBuf == ClosePaths(old(pathBuf), old(presence), old(TenancyState()), order)
      ensures DwellState() == CloseDwell(old(DwellState()), old(presence), order)
    {
      hide RowsOf, Parts, CloseOutcome, Bank, WallsOf;
      ghost var was := presence;
      order := Listing(StaleTracks(presence, now));
      for i := 0 to |order|
        invariant presence == was - set k | k in order[..i]
        invariant pathBuf == ClosePaths(old(pathBuf), was, old(TenancyState()), order[..i])
        invariant DwellState() == CloseDwell(old(DwellState()), was, order[..i])
      {
        assert order[..i + 1][..i] == order[..i];
        assert order[..i + 1] == order[..i] + [order[i]];
        CloseTrack(order[i]);
      }
      assert order[..|order|] == order;
    }

    method PruneSpans(now: real) returns (order: seq<SpanKey>)
      modifies `spPresence, `dwellTracks, `dwellMs
      ensures Enumerates(order, StaleSpans(old(spPresence), now))
      ensures spPresence == old(spPresence) - set k | k in order
      ensures DwellState() == CloseSpans(old(DwellState()), old(spPresence), order)
    {
      var was := spPresence;
      order := Listing(StaleSpans(spPresence, now));
      for i := 0 to |order|
        invariant spPresence == was - set k | k in order[..i]
        invariant DwellState() == CloseSpans(old(DwellState()), was, order[..i])
      {
        assert order[..i + 1][..i] == order[..i];
        assert order[..i + 1] == order[..i] + [order[i]];
        var k := order[i];
        var p := spPresence[k];
        spPresence := spPresence - {k};
        BankDwell(Bucket(k.0, STORE_CAMERA, p.hour), DwellMs(p.first, p.last));
      }
      assert order[..|order|] == order;
    }

    // ---- flushing -------------------------------------------------------------------------------

    /** The statements of one flush, on the session's own view of the tables. */
    static method Stage(db: Warehouse, snap: Tables, orgs: map<int, int>) returns (t: Tables)
      ensures t == AddKnown(db.Abs(), snap, orgs)
    {
      hide Merge, Known, KnownPaths;
      var cells := WriteCounter(db.cells, snap.cells, orgs);
      var visits := WriteCounter(db.visits, snap.visits, orgs);
      var dwellTracks := WriteCounter(db.dwellTracks, snap.dwellTracks, orgs);
      var dwellMs := WriteCounter(db.dwellMs, snap.dwellMs, orgs);
      var flow := WriteCounter(db.flow, snap.flow, orgs);
      var demo := WriteCounter(db.demo, snap.demo, orgs);
      var paths := WritePaths(snap.paths, orgs);
      t := Tables(cells, visits, dwellTracks, dwellMs, flow, demo, db.paths + paths);
    }

    /** The buffers leave the object; the credits that pointed into them go too. */
    method TakeSnapshot(now: real) returns (snap: Tables)
      modifies `buf, `visits, `visitCredit, `dwellTracks, `dwellMs, `flowBuf, `demoBuf, `pathBuf, `lastFlush
      ensures snap == old(Tables(buf, visits, dwellTracks, dwellMs, flowBuf, demoBuf, pathBuf))
      ensures buf == flowBuf == map[] && pathBuf == [] && lastFlush == now
      ensures DwellState() == Dwell(map[], map[])
      ensures GateState() == Gates(map[], map[], old(gateSeen), old(gateLastPrune))
      ensures DemoState() == Demos(map[], old(demoSeen))
    {
      snap := Tables(buf, visits, dwellTracks, dwellMs, flowBuf, demoBuf, pathBuf);
      pathBuf := [];
      buf, visits, visitCredit := map[], map[], map[];
      dwellTracks, dwellMs, flowBuf, demoBuf := map[], map[], map[], map[];
      lastFlush := now;
    }

    /** The except branch: every count of the snapshot is added back to the emptied buffers. */
    method PutBack(snap: Tables)
      requires buf == flowBuf == map[] && pathBuf == [] && DwellState() == Dwell(map[], map[])
      requires GateState() == Gates(map[], map[], gateSeen, gateLastPrune) && DemoState() == Demos(map[], demoSeen)
      modifies `buf, `visits, `dwellTracks, `dwellMs, `flowBuf, `demoBuf, `pathBuf
      ensures buf == snap.cells && flowBuf == snap.flow && pathBuf == snap.paths
      ensures DwellState() == Dwell(snap.dwellTracks, snap.dwellMs)
      ensures GateState() == Gates(snap.visits, map[], gateSeen, gateLastPrune)
      ensures DemoState() == Demos(snap.demo, demoSeen)
    {
      pathBuf := pathBuf + snap.paths;
      buf := Readd(buf, snap.cells);
      visits := Readd(visits, snap.visits);
      dwellTracks := Readd(dwellTracks, snap.dwellTracks);
      dwellMs := Readd(dwellMs, snap.dwellMs);
      flowBuf := Readd(flowBuf, snap.flow);
      demoBuf := Readd(demoBuf, snap.demo);
    }

    predicate AllEmpty()
      reads this
      ensures AllEmpty() == NothingBuffered(Abs())
    {
      |buf| == 0 && |visits| == 0 && |dwellTracks| == 0 && |flowBuf| == 0 && |demoBuf| == 0 && |pathBuf| == 0
    }

    /** The try block: publish the staged tables, or roll back and put everything back. */
    method WriteOrPutBack(db: Warehouse, snap: Tables, failed: bool)
      requires buf == flowBuf == map[] && pathBuf == [] && DwellState() == Dwell(map[], map[])
      requires GateState() == Gates(map[], map[], gateSeen, gateLastPrune) && DemoState() == Demos(map[], demoSeen)
      modifies db
      modifies `buf, `visits, `dwellTracks, `dwellMs, `flowBuf, `demoBuf, `pathBuf
      ensures db.Abs() == if failed then old(db.Abs()) else AddKnown(old(db.Abs()), snap, storeOrg)
      ensures var kept := if failed then snap else Tables(map[], map[], map[], map[], map[], map[], []);
              && buf == kept.cells && flowBuf == kept.flow && pathBuf == kept.paths
              && DwellState() == Dwell(kept.dwellTracks, kept.dwellMs)
              && GateState() == Gates(kept.visits, map[], gateSeen, gateLastPrune)
              && DemoState() == Demos(kept.demo, demoSeen)
    {
      hide AddKnown;
      var staged := Stage(db, snap, storeOrg);
      if failed {
        PutBack(snap);
      } else {
        db.Commit(staged);
      }
    }

    /** A flush with something to write: commit, or everything back but the credits. */
    method FlushBuffers(db: Warehouse, now: real, failed: bool)
      modifies db
      modifies `buf, `visits, `visitCredit, `dwellTracks, `dwellMs, `flowBuf, `demoBuf, `pathBuf, `lastFlush
      ensures Abs() == if failed then Restored(old(Abs()), now) else Drained(old(Abs()), now)
      ensures db.Abs() == if failed then old(db.Abs()) else Written(old(db.Abs()), old(Abs()))
    {
      hide AddKnown;
      var snap := TakeSnapshot(now);
      WriteOrPutBack(db, snap, failed);
    }

    /** `failed` says whether the session raised anywhere before the commit returned. */
    method FlushLocked(db: Warehouse, now: real, failed: bool)
      modifies this, db
      ensures Abs() == FlushState(old(Abs()), now, !failed)
      ensures db.Abs() == FlushTables(old(db.Abs()), old(Abs()), !failed)
    {
      hide Written, Drained, Restored, AllEmpty, NothingBuffered;
      if AllEmpty() {
        lastFlush := now;
      } else {
        FlushBuffers(db, now, failed);
      }
    }

    /** Putting a snapshot back, key by key. */
    static method Readd(m: Counter, snapshot: Counter) returns (after: Counter)
      requires m == map[]
      ensures after == snapshot
    {
      var rows := Items(snapshot);
      after := UpsertAdd(m, rows, snapshot);
    }

    // ---- a whole frame ----------------------------------------------------------------------------

    /** The first half of the locked section: who is there, and what that counts. */
    method Admit(c: Moment, b: Batch)
      modifies `buf, `visits, `visitCredit, `gateSeen, `presence, `spPresence
      ensures buf == BumpAll(old(buf), b.pending)
      ensures GateState() == HitGates(CancelVisits(old(GateState()), c, b.staff), c, b.gateHits)
      ensures presence == LinkAll(TouchAll(MarkAllStaff(old(presence), c, b.staff), c, b.present), c, b.spKeys)
      ensures spPresence == ExtendSpans(DropSpans(old(spPresence), c, b.staff), c, b.spKeys)
    {
      hide CancelVisits, MarkAllStaff, DropSpans, BumpAll, HitGates, TouchAll, LinkAll, ExtendSpans;
      CancelStaff(c, b.staff);
      CountCells(b.pending);
      CountGateHits(c, b.gateHits);
      TouchPresences(c, b.present);
      TouchSpans(c, b.spKeys);
    }

    /** The second half: demographics, walked paths and movement. */
    method Trace(c: Moment, b: Batch)
      modifies `presence, `demoBuf, `demoSeen, `flowBuf
      ensures var floor := SampleAll(StampAll(old(presence), c, b.demos), c,
                             WallsOf(TenancyState(), c.store), CameraOf(TenancyState(), c.store, c.camera), b.points);
              && presence == EnterAll(floor, c, b.cells)
              && flowBuf == CountFlows(old(flowBuf), floor, c, b.cells)
      ensures DemoState() == CountDemos(old(DemoState()), c, b.demos)
    {
      hide StampAll, CountDemos, SampleAll, EnterAll, CountFlows, WallsOf, CameraOf;
      StampDemographics(c, b.demos);
      CountDemographics(c, b.demos);
      SamplePaths(c, b.points);
      CountMovement(c, b.cells);
    }

    method ApplyBatch(c: Moment, b: Batch)
      modifies `buf, `visits, `visitCredit, `gateSeen, `presence, `spPresence, `demoBuf, `demoSeen, `flowBuf
      ensures Abs() == Ingest(old(Abs()), c, b)
    {
      hide CancelVisits, MarkAllStaff, DropSpans, BumpAll, HitGates, TouchAll, LinkAll, ExtendSpans, StampAll,
        CountDemos;
      hide SampleAll, EnterAll, CountFlows, WallsOf, CameraOf;
      Admit(c, b);
      Trace(c, b);
    }

    method PruneAll(now: real) returns (order: seq<TrackKey>, spanOrder: seq<SpanKey>)
      modifies this
      ensures Enumerates(order, StaleTracks(old(presence), now))
      ensures Enumerates(spanOrder, StaleSpans(old(spPresence), now))
      ensures Abs() == Prune(old(Abs()), now, order, spanOrder)
    {
      hide ClosePaths, CloseDwell, CloseSpans, PruneGates, PruneDemos, Enumerates, StaleTracks, StaleSpans;
      PruneGateSeen(now);
      order := PruneTracks(now);
      spanOrder := PruneSpans(now);
    }

    /** A frame from a registered camera, handled start to finish under one clock reading. */
    method OnFrame(f: Frame, now: real, db: Warehouse, failed: bool)
      returns (order: seq<TrackKey>, spanOrder: seq<SpanKey>)
      modifies this, db
      ensures FrameDone(f, old(Abs()), old(db.Abs()), now, !failed, order, spanOrder, Abs(), db.Abs())
    {
      hide Ingest, Prune, FlushState, FlushTables, Collect;
      order, spanOrder := [], [];
      var c := Moment(f.store, f.camera, f.hour, now);
      var b := CollectFrame(f);
      if b.pending == [] && b.present == [] && b.staff == [] {
        return;
      }
      ApplyBatch(c, b);
      order, spanOrder := PruneAll(now);
      if |buf| >= FLUSH_CELLS || now - lastFlush >= FLUSH_SECONDS {
        FlushLocked(db, now, failed);
      }
    }
  }
}
