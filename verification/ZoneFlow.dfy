/**
 Collapsing the movement graph onto plan fixtures (`get_store_zone_flow`): zone of a cell,
 gross flow per ordered pair, net flow, the busiest net edges, and in/out totals per zone.
 */
module ZoneFlow {
  import opened Geometry
  import opened Tally
  import opened Sequences
  import opened Sorting
  import Polygon

  const TOP_EDGES := 10
  const FLOW_GRID := 12

  // ---- which zone a point belongs to ------------------------------------------------------------

  datatype Zone = Zone(poly: seq<Point>, centre: Point)

  function SumX(pts: seq<Point>): real {
    if pts == [] then 0.0 else SumX(pts[..|pts| - 1]) + pts[|pts| - 1].x
  }

  function SumY(pts: seq<Point>): real {
    if pts == [] then 0.0 else SumY(pts[..|pts| - 1]) + pts[|pts| - 1].y
  }

  /** A drawn fixture in plan-normalized coordinates; furniture is scenery. */
  datatype Fixture = Fixture(furniture: bool, points: seq<Point>)

  function Centroid(poly: seq<Point>): Point
    requires |poly| >= 3
  {
    Point(SumX(poly) / |poly| as real, SumY(poly) / |poly| as real)
  }

  predicate IsScenery(f: Fixture) {
    f.furniture || |f.points| < 3
  }

  function ZonesOf(fixtures: seq<Fixture>): seq<Zone> {
    if fixtures == [] then []
    else
      var f := fixtures[|fixtures| - 1];
      ZonesOf(fixtures[..|fixtures| - 1]) + if IsScenery(f) then [] else [Zone(f.points, Centroid(f.points))]
  }

  method ReadZones(fixtures: seq<Fixture>) returns (zones: seq<Zone>)
    ensures zones == ZonesOf(fixtures)
  {
    zones := [];
    for i := 0 to |fixtures|
      invariant zones == ZonesOf(fixtures[..i])
    {
      assert fixtures[..i + 1][..i] == fixtures[..i];
      var points := fixtures[i].points;
      if fixtures[i].furniture || |points| < 3 {
        continue;
      }
      var sx, sy := 0.0, 0.0;
      for k := 0 to |points|
        invariant sx == SumX(points[..k]) && sy == SumY(points[..k])
      {
        assert points[..k + 1][..k] == points[..k];
        sx, sy := sx + points[k].x, sy + points[k].y;
      }
      assert points[..|points|] == points;
      zones := zones + [Zone(points, Point(sx / |points| as real, sy / |points| as real))];
    }
    assert fixtures[..|fixtures|] == fixtures;
  }

  /** z is the first zone containing p, or, if none does, the first at the smallest centroid distance. */
  ghost predicate IsZoneOf(zones: seq<Zone>, p: Point, z: nat) {
    && z < |zones|
    && if exists i :: 0 <= i < |zones| && Polygon.Inside(p, zones[i].poly)
       then Polygon.Inside(p, zones[z].poly) && forall i :: 0 <= i < z ==> !Polygon.Inside(p, zones[i].poly)
       else
         && (forall i :: 0 <= i < z ==> Len2(zones[i].centre, p) > Len2(zones[z].centre, p))
         && (forall i :: z <= i < |zones| ==> Len2(zones[i].centre, p) >= Len2(zones[z].centre, p))
  }

  function AsVertices(pts: seq<Point>): (vs: seq<Polygon.Vertex>)
    ensures Polygon.WellFormed(vs) && Polygon.Points(vs) == pts
  {
    seq(|pts|, i requires 0 <= i < |pts| => Polygon.Vertex(pts[i]))
  }

  method ZoneOf(zones: seq<Zone>, p: Point) returns (z: nat)
    requires |zones| > 0
    ensures IsZoneOf(zones, p, z)
  {
    hide Polygon.Inside;
    for i := 0 to |zones|
      invariant forall j :: 0 <= j < i ==> !Polygon.Inside(p, zones[j].poly)
    {
      var inside := Polygon.PointInPolygon(p.x, p.y, AsVertices(zones[i].poly));
      if inside {
        return i;
      }
    }
    // the first zone replaces the infinite starting distance of the code
    z := 0;
    var bestD := Len2(zones[0].centre, p);
    for i := 1 to |zones|
      invariant z < i && bestD == Len2(zones[z].centre, p)
      invariant forall j :: 0 <= j < z ==> Len2(zones[j].centre, p) > bestD
      invariant forall j :: z <= j < i ==> Len2(zones[j].centre, p) >= bestD
    {
      var d := Len2(zones[i].centre, p);
      if d < bestD {
        z, bestD := i, d;
      }
    }
  }

  lemma {:induction false} ZoneUnique(zones: seq<Zone>, p: Point, z: nat, z': nat)
    requires IsZoneOf(zones, p, z) && IsZoneOf(zones, p, z')
    ensures z == z'
  {
    hide Polygon.Inside;
  }

  /** The centre of coarse cell c in plan-normalized coordinates. */
  function CellCentre(c: nat): Point {
    Point(((c % FLOW_GRID) as real + 0.5) / FLOW_GRID as real, ((c / FLOW_GRID) as real + 0.5) / FLOW_GRID as real)
  }

  /** The centre of the cell in column x of row y lies midway between the edges of both. */
  lemma CentreIsMidway(x: nat, y: nat)
    requires x < 12 && y < 12
    ensures var left, right := x as real / 12.0, (x + 1) as real / 12.0;
      var low, high := y as real / 12.0, (y + 1) as real / 12.0;
      CellCentre(12 * y + x) == Point((left + right) / 2.0, (low + high) / 2.0)
  {
    assert (12 * y + x) / 12 == y && (12 * y + x) % 12 == x;
  }

  method CellZones(zones: seq<Zone>) returns (cellZone: seq<nat>)
    requires |zones| > 0
    ensures |cellZone| == FLOW_GRID * FLOW_GRID
    ensures forall c :: 0 <= c < |cellZone| ==> IsZoneOf(zones, CellCentre(c), cellZone[c])
  {
    hide IsZoneOf, CellCentre;
    cellZone := [];
    for c := 0 to FLOW_GRID * FLOW_GRID
      invariant |cellZone| == c
      invariant forall i :: 0 <= i < c ==> IsZoneOf(zones, CellCentre(i), cellZone[i])
    {
      var z := ZoneOf(zones, CellCentre(c));
      cellZone := cellZone + [z];
    }
  }

  // ---- flow between zones -------------------------------------------------------------------------

  type Pair = (nat, nat)

  /** One summed movement edge: from cell, to cell, count. */
  datatype Row = Row(from: nat, to: nat, n: int)

  ghost predicate ValidRows(rows: seq<Row>, cellZone: seq<nat>) {
    forall i :: 0 <= i < |rows| ==> rows[i].from < |cellZone| && rows[i].to < |cellZone|
  }

  /** Total moved from zone a to zone b. */
  function Moved(rows: seq<Row>, cellZone: seq<nat>, a: nat, b: nat): int
    requires ValidRows(rows, cellZone)
  {
    if rows == [] then 0
    else
      var r := rows[|rows| - 1];
      Moved(rows[..|rows| - 1], cellZone, a, b) +
        if a != b && cellZone[r.from] == a && cellZone[r.to] == b then r.n else 0
  }

  /** A choice of movements, by the zones they lead from and to. */
  type Way = (nat, nat) -> bool

  function Crossing(): Way {
    (a, b) => a != b
  }

  function Leaving(z: nat): Way {
    (a, b) => a == z && b != z
  }

  function Entering(z: nat): Way {
    (a, b) => b == z && a != z
  }

  /** Everything the rows moved that way. */
  function Flow(rows: seq<Row>, cellZone: seq<nat>, way: Way): int
    requires ValidRows(rows, cellZone)
  {
    if rows == [] then 0
    else
      var r := rows[|rows| - 1];
      Flow(rows[..|rows| - 1], cellZone, way) + if way(cellZone[r.from], cellZone[r.to]) then r.n else 0
  }

  /** Everything that changed zone. */
  function CrossTotal(rows: seq<Row>, cellZone: seq<nat>): int
    requires ValidRows(rows, cellZone)
  {
    Flow(rows, cellZone, Crossing())
  }

  method GrossFlow(rows: seq<Row>, cellZone: seq<nat>) returns (gross: map<Pair, int>, order: seq<Pair>)
    requires ValidRows(rows, cellZone)
    ensures Enumerates(order, gross.Keys)
    ensures forall a: nat, b: nat :: Get(gross, (a, b)) == Moved(rows, cellZone, a, b)
    ensures forall k :: k in gross ==> k.0 != k.1 && k.0 in cellZone && k.1 in cellZone
  {
    gross, order := map[], [];
    for i := 0 to |rows|
      invariant Enumerates(order, gross.Keys)
      invariant forall a: nat, b: nat :: Get(gross, (a, b)) == Moved(rows[..i], cellZone, a, b)
      invariant forall k :: k in gross ==> k.0 != k.1 && k.0 in cellZone && k.1 in cellZone
    {
      assert rows[..i + 1][..i] == rows[..i];
      var za, zb := cellZone[rows[i].from], cellZone[rows[i].to];
      if za != zb {
        if (za, zb) !in gross {
          order := order + [(za, zb)];
        }
        gross := gross[(za, zb) := Get(gross, (za, zb)) + rows[i].n];
      }
    }
    assert rows[..|rows|] == rows;
  }

  /** What must remain of flow a -> b after opposite directions cancel. */
  function NetOf(gross: map<Pair, int>, a: nat, b: nat): int {
    var d := Get(gross, (a, b)) - Get(gross, (b, a));
    if d > 0 then d else 0
  }

  /** net holds exactly the positive differences. */
  ghost predicate IsNet(gross: map<Pair, int>, net: map<Pair, int>) {
    forall a: nat, b: nat :: Get(net, (a, b)) == NetOf(gross, a, b) && ((a, b) in net <==> NetOf(gross, a, b) > 0)
  }

  /** Main result: whatever order the dictionary yields its items in, each direction keeps its surplus. */
  method NetFlow(gross: map<Pair, int>, order: seq<Pair>) returns (net: map<Pair, int>, netOrder: seq<Pair>)
    requires Enumerates(order, gross.Keys)
    requires forall k :: k in gross ==> k.0 != k.1
    ensures IsNet(gross, net)
    ensures Enumerates(netOrder, net.Keys)
  {
    net, netOrder := map[], [];
    for i := 0 to |order|
      invariant Enumerates(netOrder, net.Keys)
      invariant forall k :: k in net ==> net[k] == NetOf(gross, k.0, k.1) && net[k] > 0
      invariant forall j :: 0 <= j < i ==>
        Settled(gross, net, order[j]) && Settled(gross, net, (order[j].1, order[j].0))
    {
      var (za, zb) := order[i];
      assert (za, zb) in gross && za != zb;
      hide Enumerates;
      if (zb, za) in net {
        continue;
      }
      var diff := gross[(za, zb)] - Get(gross, (zb, za));
      if diff > 0 {
        if (za, zb) !in net {
          EnumeratesSnoc(netOrder, net.Keys, (za, zb));
          netOrder := netOrder + [(za, zb)];
        }
        net := net[(za, zb) := diff];
      } else if diff < 0 {
        EnumeratesSnoc(netOrder, net.Keys, (zb, za));
        netOrder := netOrder + [(zb, za)];
        net := net[(zb, za) := -diff];
      }
    }
    AllSettled(gross, order, net);
  }

  lemma AllSettled(gross: map<Pair, int>, order: seq<Pair>, net: map<Pair, int>)
    requires Enumerates(order, gross.Keys)
    requires forall k :: k in net ==> net[k] == NetOf(gross, k.0, k.1) && net[k] > 0
    requires forall j :: 0 <= j < |order| ==>
      Settled(gross, net, order[j]) && Settled(gross, net, (order[j].1, order[j].0))
    ensures IsNet(gross, net)
  {
  }

  ghost predicate Settled(gross: map<Pair, int>, net: map<Pair, int>, k: Pair) {
    k in net <==> NetOf(gross, k.0, k.1) > 0
  }

  /** Never both directions of one pair, and count plus back count is the winner's gross. */
  lemma NetEdges(gross: map<Pair, int>, net: map<Pair, int>, a: nat, b: nat)
    requires IsNet(gross, net) && (a, b) in net
    ensures (b, a) !in net
    ensures net[(a, b)] + Get(gross, (b, a)) == Get(gross, (a, b))
    ensures Get(gross, (a, b)) > Get(gross, (b, a))
  {
  }

  // ---- the busiest edges --------------------------------------------------------------------------

  function Descending(e: Row): real {
    -(e.n as real)
  }

  function PairOf(e: Row): Pair {
    (e.from, e.to)
  }

  function ItemList(m: map<Pair, int>, order: seq<Pair>): seq<Row>
    requires forall i :: 0 <= i < |order| ==> order[i] in m
  {
    seq(|order|, i requires 0 <= i < |order| => Row(order[i].0, order[i].1, m[order[i]]))
  }

  /** all lists the entries of m once each, the largest counts first; equal counts come in any order. */
  ghost predicate RankingOf(m: map<Pair, int>, all: seq<Row>) {
    && (forall i :: 0 <= i < |all| ==> PairOf(all[i]) in m && all[i].n == m[PairOf(all[i])])
    && (forall i, j :: 0 <= i < j < |all| ==> PairOf(all[i]) != PairOf(all[j]))
    && (forall k :: k in m ==> exists q :: 0 <= q < |all| && PairOf(all[q]) == k)
    && (forall i, j :: 0 <= i < j < |all| ==> all[i].n >= all[j].n)
  }

  function Ranked(m: map<Pair, int>, order: seq<Pair>): seq<Row>
    requires forall i :: 0 <= i < |order| ==> order[i] in m
  {
    StableSort(ItemList(m, order), Descending)
  }

  function First(all: seq<Row>, limit: nat): seq<Row> {
    if |all| > limit then all[..limit] else all
  }

  lemma RankedMembers(m: map<Pair, int>, order: seq<Pair>)
    requires Enumerates(order, m.Keys)
    ensures var all := Ranked(m, order);
      && (forall i :: 0 <= i < |all| ==> PairOf(all[i]) in m && all[i].n == m[PairOf(all[i])])
      && (forall k :: k in m ==> exists q :: 0 <= q < |all| && PairOf(all[q]) == k)
  {
    var items := ItemList(m, order);
    var all := Ranked(m, order);
    hide StableSort;
    forall i | 0 <= i < |all| ensures PairOf(all[i]) in m && all[i].n == m[PairOf(all[i])] {
      SortMembers(items, Descending, all[i]);
    }
    forall k | k in m ensures exists q :: 0 <= q < |all| && PairOf(all[q]) == k {
      var p :| 0 <= p < |order| && order[p] == k;
      SortMembers(items, Descending, items[p]);
      var q :| 0 <= q < |all| && all[q] == items[p];
      assert PairOf(all[q]) == k;
    }
  }

  lemma RankedOrder(m: map<Pair, int>, order: seq<Pair>)
    requires Enumerates(order, m.Keys)
    ensures var all := Ranked(m, order);
      && |all| == |m|
      && (forall i, j :: 0 <= i < j < |all| ==> all[i] != all[j] && all[i].n >= all[j].n)
  {
    var items := ItemList(m, order);
    var all := Ranked(m, order);
    SortSorts(items, Descending);
    EnumeratedSize(order, m.Keys);
    assert |m.Keys| == |m|;
    assert forall i :: 0 <= i < |items| ==> PairOf(items[i]) == order[i];
    SortDistinct(items, Descending);
    hide StableSort, ItemList;
    forall i, j | 0 <= i < j < |all| ensures all[i].n >= all[j].n {
      assert Descending(all[i]) <= Descending(all[j]);
    }
  }

  lemma RankedIsRanking(m: map<Pair, int>, order: seq<Pair>)
    requires Enumerates(order, m.Keys)
    ensures RankingOf(m, Ranked(m, order)) && |Ranked(m, order)| == |m|
  {
    RankedMembers(m, order);
    RankedOrder(m, order);
    hide Ranked, Enumerates;
  }

  function Top(net: map<Pair, int>, order: seq<Pair>): seq<Row>
    requires forall i :: 0 <= i < |order| ==> order[i] in net
  {
    First(Ranked(net, order), TOP_EDGES)
  }

  /** The edges shown are net edges, busiest first, and no hidden edge is busier than a shown one. */
  lemma TopIsBusiest(net: map<Pair, int>, order: seq<Pair>)
    requires Enumerates(order, net.Keys)
    ensures var top := Top(net, order);
      && |top| == (if |net| > 10 then 10 else |net|)
      && (forall i :: 0 <= i < |top| ==> PairOf(top[i]) in net && top[i].n == net[PairOf(top[i])])
      && (forall i, j :: 0 <= i < j < |top| ==> top[i].n >= top[j].n)
      && (forall k, i :: k in net && 0 <= i < |top| && Hidden(top, k) ==> top[i].n >= net[k])
  {
    RankedIsRanking(net, order);
    hide Ranked, Enumerates;
    CutRanked(net, Ranked(net, order), TOP_EDGES);
  }

  /** k is not among the edges listed. */
  ghost predicate Hidden(top: seq<Row>, k: Pair) {
    forall q :: 0 <= q < |top| ==> PairOf(top[q]) != k
  }

  lemma CutRanked(m: map<Pair, int>, all: seq<Row>, limit: nat)
    requires RankingOf(m, all)
    ensures var top := First(all, limit);
      forall k, i :: k in m && 0 <= i < |top| && Hidden(top, k) ==> top[i].n >= m[k]
  {
    var top := First(all, limit);
    assert forall q :: 0 <= q < |top| ==> top[q] == all[q];
    forall k, i | k in m && 0 <= i < |top| && Hidden(top, k) ensures top[i].n >= m[k] {
      var q :| 0 <= q < |all| && PairOf(all[q]) == k;
    }
  }

  // ---- the stored edges and the query that reads them ------------------------------------------

  const QUERY_LIMIT := 200

  /** GROUP BY from_cell, to_cell over the stored rows of the window, counts summed. */
  function Grouped(stored: seq<Row>): map<Pair, int> {
    if stored == [] then map[]
    else
      var r := stored[|stored| - 1];
      Bump(Grouped(stored[..|stored| - 1]), PairOf(r), r.n)
  }

  /** The query: grouped, busiest first, cut at the limit; `all` is the list before the cut. */
  method FlowEdges(stored: seq<Row>) returns (rows: seq<Row>, ghost all: seq<Row>)
    ensures RankingOf(Grouped(stored), all) && rows == First(all, QUERY_LIMIT)
  {
    var sums: map<Pair, int>, order: seq<Pair> := map[], [];
    for i := 0 to |stored|
      invariant sums == Grouped(stored[..i]) && Enumerates(order, sums.Keys)
    {
      assert stored[..i + 1][..i] == stored[..i];
      var k := PairOf(stored[i]);
      if k !in sums {
        EnumeratesSnoc(order, sums.Keys, k);
        order := order + [k];
      }
      ghost var keys := sums.Keys + {k};
      sums := Bump(sums, k, stored[i].n);
      assert sums.Keys == keys;
    }
    assert stored[..|stored|] == stored;
    RankedIsRanking(sums, order);
    hide Ranked;
    all := Ranked(sums, order);
    rows := First(Ranked(sums, order), QUERY_LIMIT);
  }

  predicate Goes(e: Row, cellZone: seq<nat>, way: Way) {
    e.from < |cellZone| && e.to < |cellZone| && way(cellZone[e.from], cellZone[e.to])
  }

  /** What the listed pairs hold of the flow that goes that way. */
  function KeySum(m: map<Pair, int>, order: seq<Row>, cellZone: seq<nat>, way: Way): int {
    if order == [] then 0
    else
      var e := order[|order| - 1];
      KeySum(m, order[..|order| - 1], cellZone, way) + if Goes(e, cellZone, way) then Get(m, PairOf(e)) else 0
  }

  lemma {:induction false} KeySumBump(m: map<Pair, int>, order: seq<Row>, cellZone: seq<nat>, way: Way, r: Row)
    requires forall i, j :: 0 <= i < j < |order| ==> PairOf(order[i]) != PairOf(order[j])
    ensures KeySum(Bump(m, PairOf(r), r.n), order, cellZone, way) == KeySum(m, order, cellZone, way)
      + if Goes(r, cellZone, way) && !Hidden(order, PairOf(r)) then r.n else 0
  {
    if order != [] {
      var front, e := order[..|order| - 1], order[|order| - 1];
      KeySumBump(m, front, cellZone, way, r);
      if PairOf(e) == PairOf(r) {
        assert Hidden(front, PairOf(r));
        assert !Hidden(order, PairOf(r));
      } else if !Hidden(front, PairOf(r)) {
        var q :| 0 <= q < |front| && PairOf(front[q]) == PairOf(r);
        assert PairOf(order[q]) == PairOf(r);
      }
    }
  }

  lemma {:induction false} KeySumEmpty(order: seq<Row>, cellZone: seq<nat>, way: Way)
    ensures KeySum(map[], order, cellZone, way) == 0
  {
    if order != [] {
      KeySumEmpty(order[..|order| - 1], cellZone, way);
    }
  }

  lemma {:induction false} KeySumOfStored(stored: seq<Row>, order: seq<Row>, cellZone: seq<nat>, way: Way)
    requires ValidRows(stored, cellZone)
    requires forall i, j :: 0 <= i < j < |order| ==> PairOf(order[i]) != PairOf(order[j])
    requires forall i :: 0 <= i < |stored| ==> !Hidden(order, PairOf(stored[i]))
    ensures KeySum(Grouped(stored), order, cellZone, way) == Flow(stored, cellZone, way)
  {
    if stored == [] {
      KeySumEmpty(order, cellZone, way);
    } else {
      var front, r := stored[..|stored| - 1], stored[|stored| - 1];
      KeySumOfStored(front, order, cellZone, way);
      KeySumBump(Grouped(front), order, cellZone, way, r);
    }
  }

  lemma {:induction false} KeySumOfRanking(m: map<Pair, int>, all: seq<Row>, cellZone: seq<nat>, way: Way)
    requires ValidRows(all, cellZone)
    requires forall i :: 0 <= i < |all| ==> PairOf(all[i]) in m && all[i].n == m[PairOf(all[i])]
    ensures KeySum(m, all, cellZone, way) == Flow(all, cellZone, way)
  {
    if all != [] {
      KeySumOfRanking(m, all[..|all| - 1], cellZone, way);
    }
  }

  lemma {:induction false} GroupedKeys(stored: seq<Row>, k: Pair)
    ensures k in Grouped(stored) <==> exists i :: 0 <= i < |stored| && PairOf(stored[i]) == k
    ensures (forall i :: 0 <= i < |stored| ==> stored[i].n > 0) && k in Grouped(stored) ==> Grouped(stored)[k] > 0
  {
    if stored != [] {
      var front, r := stored[..|stored| - 1], stored[|stored| - 1];
      GroupedKeys(front, k);
      if k in Grouped(front) {
        var i :| 0 <= i < |front| && PairOf(front[i]) == k;
        assert PairOf(stored[i]) == k;
      }
    }
  }

  /** The full ranking holds the stored cells, and everything that went that way in the window. */
  lemma RankingHoldsAll(stored: seq<Row>, all: seq<Row>, cellZone: seq<nat>, way: Way)
    requires ValidRows(stored, cellZone) && RankingOf(Grouped(stored), all)
    ensures ValidRows(all, cellZone) && Flow(all, cellZone, way) == Flow(stored, cellZone, way)
    ensures forall i :: 0 <= i < |stored| ==> !Hidden(all, PairOf(stored[i]))
  {
    forall i | 0 <= i < |all| ensures all[i].from < |cellZone| && all[i].to < |cellZone| {
      GroupedKeys(stored, PairOf(all[i]));
    }
    forall i | 0 <= i < |stored| ensures !Hidden(all, PairOf(stored[i])) {
      GroupedKeys(stored, PairOf(stored[i]));
      var q :| 0 <= q < |all| && PairOf(all[q]) == PairOf(stored[i]);
    }
    KeySumOfStored(stored, all, cellZone, way);
    KeySumOfRanking(Grouped(stored), all, cellZone, way);
  }

  lemma {:induction false} FlowConcat(a: seq<Row>, b: seq<Row>, cellZone: seq<nat>, way: Way)
    requires ValidRows(a, cellZone) && ValidRows(b, cellZone)
    ensures ValidRows(a + b, cellZone)
      && Flow(a + b, cellZone, way) == Flow(a, cellZone, way) + Flow(b, cellZone, way)
  {
    if b == [] {
      assert a + b == a;
    } else {
      FlowConcat(a, b[..|b| - 1], cellZone, way);
      assert (a + b)[..|a + b| - 1] == a + b[..|b| - 1];
    }
  }

  lemma {:induction false} FlowPositive(rows: seq<Row>, cellZone: seq<nat>, way: Way)
    requires ValidRows(rows, cellZone) && forall i :: 0 <= i < |rows| ==> rows[i].n > 0
    ensures Flow(rows, cellZone, way) >= 0
    ensures Flow(rows, cellZone, way) == 0 <==> forall i :: 0 <= i < |rows| ==> !Goes(rows[i], cellZone, way)
  {
    if rows != [] {
      FlowPositive(rows[..|rows| - 1], cellZone, way);
      assert rows[..|rows| - 1] + [rows[|rows| - 1]] == rows;
    }
  }

  /** What the queried rows moved that way is what the window moved, if and only if no edge that way is cut. */
  lemma WayExactly(stored: seq<Row>, all: seq<Row>, cellZone: seq<nat>, way: Way)
    requires ValidRows(stored, cellZone) && RankingOf(Grouped(stored), all)
    requires forall i :: 0 <= i < |stored| ==> stored[i].n > 0
    ensures ValidRows(First(all, QUERY_LIMIT), cellZone) && |Grouped(stored)| == |all|
    ensures var kept := Flow(First(all, QUERY_LIMIT), cellZone, way);
      && kept <= Flow(stored, cellZone, way)
      && (kept == Flow(stored, cellZone, way)
          <==> forall i :: QUERY_LIMIT <= i < |all| ==> !Goes(all[i], cellZone, way))
  {
    RankingHoldsAll(stored, all, cellZone, way);
    RankingSize(Grouped(stored), all);
    forall i | 0 <= i < |all| ensures all[i].n > 0 {
      GroupedKeys(stored, PairOf(all[i]));
    }
    hide Grouped, RankingOf, Flow, Goes;
    CutExactly(all, cellZone, way);
  }

  lemma CutExactly(all: seq<Row>, cellZone: seq<nat>, way: Way)
    requires ValidRows(all, cellZone) && forall i :: 0 <= i < |all| ==> all[i].n > 0
    ensures var kept := First(all, QUERY_LIMIT);
      && ValidRows(kept, cellZone) && Flow(kept, cellZone, way) <= Flow(all, cellZone, way)
      && (Flow(kept, cellZone, way) == Flow(all, cellZone, way)
          <==> forall i :: QUERY_LIMIT <= i < |all| ==> !Goes(all[i], cellZone, way))
  {
    if |all| > QUERY_LIMIT {
      var kept, cut := all[..QUERY_LIMIT], all[QUERY_LIMIT..];
      assert all == kept + cut;
      FlowConcat(kept, cut, cellZone, way);
      FlowPositive(cut, cellZone, way);
      hide Flow, Goes;
      assert forall i :: QUERY_LIMIT <= i < |all| ==> all[i] == cut[i - QUERY_LIMIT];
    }
  }

  /**
   The totals are documented to reflect the whole window. They are computed from the query's rows, so they
   hold everything that changed zone if and only if no cut edge changes zone; up to 200 edges always do.
   */
  lemma WholeWindowExactly(stored: seq<Row>, all: seq<Row>, cellZone: seq<nat>)
    requires ValidRows(stored, cellZone) && RankingOf(Grouped(stored), all)
    requires forall i :: 0 <= i < |stored| ==> stored[i].n > 0
    ensures ValidRows(First(all, QUERY_LIMIT), cellZone)
    ensures CrossTotal(First(all, QUERY_LIMIT), cellZone) <= CrossTotal(stored, cellZone)
    ensures CrossTotal(First(all, QUERY_LIMIT), cellZone) == CrossTotal(stored, cellZone)
      <==> forall i :: QUERY_LIMIT <= i < |all| ==> !Goes(all[i], cellZone, Crossing())
    ensures |Grouped(stored)| == |all|
    ensures |Grouped(stored)| <= QUERY_LIMIT ==>
      CrossTotal(First(all, QUERY_LIMIT), cellZone) == CrossTotal(stored, cellZone)
  {
    hide Flow, Goes, Grouped, RankingOf, Crossing;
    WayExactly(stored, all, cellZone, Crossing());
  }

  /** Zone by zone: departures are complete if and only if no cut edge leaves it, and arrivals if none enters. */
  lemma ZoneWindowExactly(stored: seq<Row>, all: seq<Row>, cellZone: seq<nat>, z: nat)
    requires ValidRows(stored, cellZone) && RankingOf(Grouped(stored), all)
    requires forall i :: 0 <= i < |stored| ==> stored[i].n > 0
    ensures ValidRows(First(all, QUERY_LIMIT), cellZone)
    ensures Flow(First(all, QUERY_LIMIT), cellZone, Leaving(z)) == Flow(stored, cellZone, Leaving(z))
      <==> forall i :: QUERY_LIMIT <= i < |all| ==> !Goes(all[i], cellZone, Leaving(z))
    ensures Flow(First(all, QUERY_LIMIT), cellZone, Entering(z)) == Flow(stored, cellZone, Entering(z))
      <==> forall i :: QUERY_LIMIT <= i < |all| ==> !Goes(all[i], cellZone, Entering(z))
  {
    hide Flow, Goes, Grouped, RankingOf, Leaving, Entering;
    WayExactly(stored, all, cellZone, Leaving(z));
    WayExactly(stored, all, cellZone, Entering(z));
  }

  lemma RankingSize(m: map<Pair, int>, all: seq<Row>)
    requires RankingOf(m, all)
    ensures |all| == |m|
  {
    var ks := seq(|all|, i requires 0 <= i < |all| => PairOf(all[i]));
    forall k | k in m ensures k in ks {
      var q :| 0 <= q < |all| && PairOf(all[q]) == k;
      assert ks[q] == k;
    }
    EnumeratedSize(ks, m.Keys);
    assert |m.Keys| == |m|;
  }

  // ---- totals -----------------------------------------------------------------------------------------

  /** Everything leaving zone z towards zones below n, and everything arriving from them. */
  function RowSum(m: map<Pair, int>, z: nat, n: nat): int {
    if n == 0 then 0 else RowSum(m, z, n - 1) + Get(m, (z, n - 1))
  }

  function ColSum(m: map<Pair, int>, z: nat, n: nat): int {
    if n == 0 then 0 else ColSum(m, z, n - 1) + Get(m, (n - 1, z))
  }

  lemma {:induction false} SumsAfterBump(m: map<Pair, int>, k: Pair, v: int, z: nat, n: nat)
    ensures RowSum(m[k := Get(m, k) + v], z, n) == RowSum(m, z, n) + if k.0 == z && k.1 < n then v else 0
    ensures ColSum(m[k := Get(m, k) + v], z, n) == ColSum(m, z, n) + if k.1 == z && k.0 < n then v else 0
  {
    if n > 0 {
      SumsAfterBump(m, k, v, z, n - 1);
    }
  }

  /** The per-zone totals over all edges, as the summary chips show them. */
  method Totals(gross: map<Pair, int>, order: seq<Pair>, n: nat) returns (outTotal: array<int>, inTotal: array<int>)
    requires Enumerates(order, gross.Keys)
    requires forall k :: k in gross ==> k.0 < n && k.1 < n
    ensures fresh(outTotal) && fresh(inTotal) && outTotal.Length == inTotal.Length == n
    ensures forall z :: 0 <= z < n ==> outTotal[z] == RowSum(gross, z, n) && inTotal[z] == ColSum(gross, z, n)
  {
    outTotal := new int[n](i => 0);
    inTotal := new int[n](i => 0);
    ghost var part: map<Pair, int> := map[];
    forall z | 0 <= z < n
      ensures RowSum(part, z, n) == 0 && ColSum(part, z, n) == 0
    {
      EmptySums(z, n);
    }
    for i := 0 to |order|
      invariant forall k :: k in part ==> k in gross && part[k] == gross[k]
      invariant forall j :: 0 <= j < i ==> order[j] in part
      invariant forall j :: i <= j < |order| ==> order[j] !in part
      invariant forall z :: 0 <= z < n ==> outTotal[z] == RowSum(part, z, n) && inTotal[z] == ColSum(part, z, n)
    {
      var (za, zb) := order[i];
      var count := gross[(za, zb)];
      forall z | 0 <= z < n
        ensures RowSum(part[(za, zb) := count], z, n) == RowSum(part, z, n) + if za == z then count else 0
        ensures ColSum(part[(za, zb) := count], z, n) == ColSum(part, z, n) + if zb == z then count else 0
      {
        SumsAfterBump(part, (za, zb), count, z, n);
      }
      outTotal[za] := outTotal[za] + count;
      inTotal[zb] := inTotal[zb] + count;
      part := part[(za, zb) := count];
    }
    assert part == gross;
  }

  lemma {:induction false} EmptySums(z: nat, n: nat)
    ensures RowSum(map[], z, n) == 0 && ColSum(map[], z, n) == 0
  {
    if n > 0 {
      EmptySums(z, n - 1);
    }
  }

  /** Main result: netting moves no balance; a zone's surplus is the same gross or net. */
  lemma {:induction false} NettingConserves(gross: map<Pair, int>, net: map<Pair, int>, z: nat, n: nat)
    requires IsNet(gross, net)
    ensures RowSum(gross, z, n) - ColSum(gross, z, n) == RowSum(net, z, n) - ColSum(net, z, n)
  {
    if n > 0 {
      NettingConserves(gross, net, z, n - 1);
      assert Get(net, (z, n - 1)) == NetOf(gross, z, n - 1) && Get(net, (n - 1, z)) == NetOf(gross, n - 1, z);
    }
  }

  /** Sum of the out totals (of the in totals) over zones below n. */
  function AllOut(m: map<Pair, int>, n: nat, upTo: nat): int {
    if upTo == 0 then 0 else AllOut(m, n, upTo - 1) + RowSum(m, upTo - 1, n)
  }

  function AllIn(m: map<Pair, int>, n: nat, upTo: nat): int {
    if upTo == 0 then 0 else AllIn(m, n, upTo - 1) + ColSum(m, upTo - 1, n)
  }

  lemma {:induction false} AllAfterBump(m: map<Pair, int>, k: Pair, v: int, n: nat, upTo: nat)
    requires k.0 < n && k.1 < n
    ensures AllOut(m[k := Get(m, k) + v], n, upTo) == AllOut(m, n, upTo) + if k.0 < upTo then v else 0
    ensures AllIn(m[k := Get(m, k) + v], n, upTo) == AllIn(m, n, upTo) + if k.1 < upTo then v else 0
  {
    if upTo > 0 {
      AllAfterBump(m, k, v, n, upTo - 1);
      SumsAfterBump(m, k, v, upTo - 1, n);
    }
  }

  /** The gross map built row by row. */
  function GrossMap(rows: seq<Row>, cellZone: seq<nat>): map<Pair, int>
    requires ValidRows(rows, cellZone)
  {
    if rows == [] then map[]
    else
      var r := rows[|rows| - 1];
      var m := GrossMap(rows[..|rows| - 1], cellZone);
      var k := (cellZone[r.from], cellZone[r.to]);
      if k.0 == k.1 then m else m[k := Get(m, k) + r.n]
  }

  lemma {:induction false} EmptyAll(n: nat, upTo: nat)
    ensures AllOut(map[], n, upTo) == 0 && AllIn(map[], n, upTo) == 0
  {
    if upTo > 0 {
      EmptyAll(n, upTo - 1);
      EmptySums(upTo - 1, n);
    }
  }

  lemma {:induction false} GrossMapHolds(rows: seq<Row>, cellZone: seq<nat>, n: nat)
    requires ValidRows(rows, cellZone) && forall c :: 0 <= c < |cellZone| ==> cellZone[c] < n
    ensures AllOut(GrossMap(rows, cellZone), n, n) == CrossTotal(rows, cellZone)
    ensures AllIn(GrossMap(rows, cellZone), n, n) == CrossTotal(rows, cellZone)
    ensures forall a: nat, b: nat :: Get(GrossMap(rows, cellZone), (a, b)) == Moved(rows, cellZone, a, b)
  {
    if rows == [] {
      EmptyAll(n, n);
    } else {
      var front, r := rows[..|rows| - 1], rows[|rows| - 1];
      GrossMapHolds(front, cellZone, n);
      AllAfterBump(GrossMap(front, cellZone), (cellZone[r.from], cellZone[r.to]), r.n, n, n);
    }
  }

  /** A zone's row sum is what left it, its column sum what entered it. */
  lemma {:induction false} GrossMapZone(rows: seq<Row>, cellZone: seq<nat>, z: nat, n: nat)
    requires ValidRows(rows, cellZone) && forall c :: 0 <= c < |cellZone| ==> cellZone[c] < n
    ensures RowSum(GrossMap(rows, cellZone), z, n) == Flow(rows, cellZone, Leaving(z))
    ensures ColSum(GrossMap(rows, cellZone), z, n) == Flow(rows, cellZone, Entering(z))
  {
    if rows == [] {
      EmptySums(z, n);
    } else {
      var front, r := rows[..|rows| - 1], rows[|rows| - 1];
      GrossMapZone(front, cellZone, z, n);
      SumsAfterBump(GrossMap(front, cellZone), (cellZone[r.from], cellZone[r.to]), r.n, z, n);
    }
  }

  lemma {:induction false} SameSums(m: map<Pair, int>, m': map<Pair, int>, z: nat, n: nat)
    requires forall a: nat, b: nat :: Get(m, (a, b)) == Get(m', (a, b))
    ensures RowSum(m, z, n) == RowSum(m', z, n) && ColSum(m, z, n) == ColSum(m', z, n)
  {
    if n > 0 {
      SameSums(m, m', z, n - 1);
    }
  }

  lemma {:induction false} SameAll(m: map<Pair, int>, m': map<Pair, int>, n: nat, upTo: nat)
    requires forall a: nat, b: nat :: Get(m, (a, b)) == Get(m', (a, b))
    ensures AllOut(m, n, upTo) == AllOut(m', n, upTo) && AllIn(m, n, upTo) == AllIn(m', n, upTo)
  {
    if upTo > 0 {
      SameAll(m, m', n, upTo - 1);
      SameSums(m, m', upTo - 1, n);
    }
  }

  function Total(s: seq<int>): int {
    if s == [] then 0 else Total(s[..|s| - 1]) + s[|s| - 1]
  }

  lemma {:induction false} TotalIsAll(gross: map<Pair, int>, out: seq<int>, arrived: seq<int>, n: nat)
    requires |out| == |arrived|
    requires forall z :: 0 <= z < |out| ==> out[z] == RowSum(gross, z, n) && arrived[z] == ColSum(gross, z, n)
    ensures Total(out) == AllOut(gross, n, |out|) && Total(arrived) == AllIn(gross, n, |out|)
  {
    if out != [] {
      TotalIsAll(gross, out[..|out| - 1], arrived[..|out| - 1], n);
    }
  }

  /**
   A zone's totals are what left it and what entered it, and over all zones both add up to everything in the rows
   that changed zone, for any gross map that holds what moved and any totals that are its row and column sums.
   */
  lemma TotalsAddUp(rows: seq<Row>, cellZone: seq<nat>, gross: map<Pair, int>, out: seq<int>, arrived: seq<int>)
    requires ValidRows(rows, cellZone) && forall c :: 0 <= c < |cellZone| ==> cellZone[c] < |out|
    requires forall a: nat, b: nat :: Get(gross, (a, b)) == Moved(rows, cellZone, a, b)
    requires |out| == |arrived|
    requires forall z :: 0 <= z < |out| ==> out[z] == RowSum(gross, z, |out|) && arrived[z] == ColSum(gross, z, |out|)
    ensures Total(out) == Total(arrived) == CrossTotal(rows, cellZone)
    ensures forall z :: 0 <= z < |out| ==>
      out[z] == Flow(rows, cellZone, Leaving(z)) && arrived[z] == Flow(rows, cellZone, Entering(z))
  {
    var n := |out|;
    forall z | 0 <= z < n
      ensures out[z] == Flow(rows, cellZone, Leaving(z)) && arrived[z] == Flow(rows, cellZone, Entering(z))
    {
      GrossMapHolds(rows, cellZone, n);
      GrossMapZone(rows, cellZone, z, n);
      hide Moved, GrossMap, Flow, AllOut, AllIn, RowSum, ColSum, Total;
      SameSums(gross, GrossMap(rows, cellZone), z, n);
    }
    GrossMapHolds(rows, cellZone, n);
    hide Moved, GrossMap, CrossTotal, AllOut, AllIn, RowSum, ColSum, Total;
    SameAll(gross, GrossMap(rows, cellZone), n, n);
    TotalIsAll(gross, out, arrived, n);
  }

  // ---- the endpoint -----------------------------------------------------------------------------------

  /** top are the busiest edges of the net flow between zones. */
  ghost predicate TopOfNet(rows: seq<Row>, cellZone: seq<nat>, top: seq<Row>)
    requires ValidRows(rows, cellZone)
  {
    exists gross: map<Pair, int>, net: map<Pair, int>, order: seq<Pair> :: (
      IsNet(gross, net) && Enumerates(order, net.Keys) && top == Top(net, order) && HoldsMoved(gross, rows, cellZone))
  }

  ghost predicate HoldsMoved(gross: map<Pair, int>, rows: seq<Row>, cellZone: seq<nat>)
    requires ValidRows(rows, cellZone)
  {
    forall a: nat, b: nat :: Get(gross, (a, b)) == Moved(rows, cellZone, a, b)
  }

  /** What the rows make of the answer: the busiest net edges, what went back along each, and each zone's totals. */
  ghost predicate SummaryOf(rows: seq<Row>, cellZone: seq<nat>, n: nat, s: Summary)
    requires ValidRows(rows, cellZone)
  {
    && TopOfNet(rows, cellZone, s.top) && |s.back| == |s.top| && |s.out| == |s.arrived| == n
    && (forall i :: 0 <= i < |s.top| ==> s.back[i] == Moved(rows, cellZone, s.top[i].to, s.top[i].from))
    && (forall z :: 0 <= z < n ==>
          s.out[z] == Flow(rows, cellZone, Leaving(z)) && s.arrived[z] == Flow(rows, cellZone, Entering(z)))
    && Total(s.out) == Total(s.arrived) == CrossTotal(rows, cellZone)
  }

  datatype Summary = Summary(top: seq<Row>, back: seq<int>, out: seq<int>, arrived: seq<int>)

  /** From the query's rows to the arrows and the per-zone totals. */
  method Summarize(rows: seq<Row>, cellZone: seq<nat>, n: nat) returns (s: Summary)
    requires ValidRows(rows, cellZone) && forall c :: 0 <= c < |cellZone| ==> cellZone[c] < n
    ensures SummaryOf(rows, cellZone, n, s)
  {
    hide Top, IsNet, CrossTotal, Moved, Total, Flow, RowSum, ColSum;
    var gross, order := GrossFlow(rows, cellZone);
    var net, netOrder := NetFlow(gross, order);
    var top := Top(net, netOrder);
    assert HoldsMoved(gross, rows, cellZone);
    var outTotal, inTotal := Totals(gross, order, n);
    var back := seq(|top|, i requires 0 <= i < |top| => Get(gross, (top[i].to, top[i].from)));
    TotalsAddUp(rows, cellZone, gross, outTotal[..], inTotal[..]);
    s := Summary(top, back, outTotal[..], inTotal[..]);
  }

  /** The answer for these fixtures and stored edges: nothing below two zones, else the summary of the queried rows. */
  ghost predicate Answers(fixtures: seq<Fixture>, stored: seq<Row>, s: Summary) {
    var zones := ZonesOf(fixtures);
    if |zones| < 2 then s == Summary([], [], [], [])
    else
      exists cellZone: seq<nat>, all: seq<Row> ::
        IsPartition(zones, cellZone) && RankingOf(Grouped(stored), all)
        && ValidRows(First(all, QUERY_LIMIT), cellZone)
        && SummaryOf(First(all, QUERY_LIMIT), cellZone, |zones|, s)
  }

  /** Every coarse cell has the zone of its centre. */
  ghost predicate IsPartition(zones: seq<Zone>, cellZone: seq<nat>) {
    |cellZone| == FLOW_GRID * FLOW_GRID
    && forall c :: 0 <= c < |cellZone| ==> IsZoneOf(zones, CellCentre(c), cellZone[c])
  }

  ghost predicate InGrid(stored: seq<Row>) {
    forall i :: 0 <= i < |stored| ==>
      stored[i].from < FLOW_GRID * FLOW_GRID && stored[i].to < FLOW_GRID * FLOW_GRID
  }

  method StoreZoneFlow(fixtures: seq<Fixture>, stored: seq<Row>) returns (s: Summary)
    requires InGrid(stored)
    ensures Answers(fixtures, stored, s)
  {
    hide IsZoneOf, CellCentre, SummaryOf, Grouped, RankingOf, ZonesOf, Flow;
    var zones := ReadZones(fixtures);
    if |zones| < 2 {
      return Summary([], [], [], []);
    }
    var cellZone := CellZones(zones);
    ZonesInRange(zones, cellZone);
    var rows, all := FlowEdges(stored);
    RankingHoldsAll(stored, all, cellZone, Crossing());
    s := Summarize(rows, cellZone, |zones|);
    assert IsPartition(zones, cellZone);
  }

  lemma ZonesInRange(zones: seq<Zone>, cellZone: seq<nat>)
    requires forall c :: 0 <= c < |cellZone| ==> IsZoneOf(zones, CellCentre(c), cellZone[c])
    ensures forall c :: 0 <= c < |cellZone| ==> cellZone[c] < |zones|
  {
  }
}
