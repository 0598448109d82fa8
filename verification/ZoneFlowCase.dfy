/** A plan and a window on which the zone totals miss flow, because the query cuts the 201st edge. */
module ZoneFlowCase {
  import opened Geometry
  import opened Sequences
  import opened ZoneFlow
  import Polygon
  import Projection

  // ---- the plan ---------------------------------------------------------------------------------------

  const LEFT := [Point(0.0, 0.0), Point(0.03, 0.5), Point(0.0, 1.0)]
  const RIGHT := [Point(1.0, 0.0), Point(0.97, 0.5), Point(1.0, 1.0)]

  /** Two shelves, along the left and the right wall. */
  function Shelves(): seq<Fixture> {
    [Fixture(false, LEFT), Fixture(false, RIGHT)]
  }

  lemma ShelfZones()
    ensures ZonesOf(Shelves()) == [Zone(LEFT, Point(0.01, 0.5)), Zone(RIGHT, Point(0.99, 0.5))]
  {
    SumOfThree(Point(0.0, 0.0), Point(0.03, 0.5), Point(0.0, 1.0));
    SumOfThree(Point(1.0, 0.0), Point(0.97, 0.5), Point(1.0, 1.0));
    hide SumX, SumY;
    var fs := Shelves();
    assert fs[..1][..0] == [] && fs[..1] == [Fixture(false, LEFT)];
    assert ZonesOf([]) == [];
    assert ZonesOf(fs[..1]) == [Zone(LEFT, Centroid(LEFT))];
    assert ZonesOf(fs) == ZonesOf(fs[..1]) + [Zone(RIGHT, Centroid(RIGHT))];
  }

  lemma SumOfThree(a: Point, b: Point, c: Point)
    ensures SumX([a, b, c]) == a.x + b.x + c.x && SumY([a, b, c]) == a.y + b.y + c.y
  {
    assert [a, b, c][..2] == [a, b] && [a, b][..1] == [a] && [a][..0] == [];
    assert SumX([a]) == a.x && SumY([a]) == a.y;
    assert SumX([a, b]) == a.x + b.x && SumY([a, b]) == a.y + b.y;
  }

  /** The left half of the grid is nearest to the left shelf, the right half to the right one. */
  function HalfOf(c: nat): nat {
    if c % FLOW_GRID < 6 then 0 else 1
  }

  function Halves(): (cellZone: seq<nat>)
    ensures |cellZone| == FLOW_GRID * FLOW_GRID && forall c :: 0 <= c < |cellZone| ==> cellZone[c] == HalfOf(c)
  {
    seq(FLOW_GRID * FLOW_GRID, (c: int) requires 0 <= c => HalfOf(c))
  }

  lemma CellHalf(c: nat)
    ensures IsZoneOf(ZonesOf(Shelves()), CellCentre(c), HalfOf(c))
  {
    ShelfZones();
    var zones, p := ZonesOf(Shelves()), CellCentre(c);
    var col := (c % FLOW_GRID) as real;
    assert p.x == (col + 0.5) / 12.0 && 0.03 < p.x < 0.97;
    assert Polygon.OutsideBox(p, LEFT) && Polygon.OutsideBox(p, RIGHT);
    Polygon.OutsideBoxIsOutside(p, LEFT);
    Polygon.OutsideBoxIsOutside(p, RIGHT);
    hide Polygon.Inside;
    NearerShelf(p);
    assert p.x < 0.5 <==> HalfOf(c) == 0;
    assert forall i :: 0 <= i < |zones| ==> !Polygon.Inside(p, zones[i].poly);
  }

  lemma NearerShelf(p: Point)
    ensures Len2(Point(0.99, 0.5), p) - Len2(Point(0.01, 0.5), p) == 1.96 * (0.5 - p.x)
  {
  }

  /** So every partition of this plan is the two halves. */
  lemma OnePartition(cellZone: seq<nat>)
    requires IsPartition(ZonesOf(Shelves()), cellZone)
    ensures cellZone == Halves()
  {
    forall c | 0 <= c < |cellZone| ensures cellZone[c] == Halves()[c] {
      CellHalf(c);
      hide ZonesOf, IsZoneOf;
      ZoneUnique(ZonesOf(Shelves()), CellCentre(c), cellZone[c], HalfOf(c));
    }
  }

  // ---- the window ---------------------------------------------------------------------------------------

  /** Steps over the middle from row r: up to two rows away, between columns 5 and 6, 4 and 6, or 5 and 7. */
  function LeftCell(k: nat): nat {
    (2 + k / 15) * 12 + if k % 3 == 1 then 4 else 5
  }

  function RightCell(k: nat): nat {
    (k / 15 + k % 15 / 3) * 12 + if k % 3 == 2 then 7 else 6
  }

  /** Edge i, one walker each: 120 to the right, then as many back. */
  function Stride(i: nat): Row {
    if i < 120 then Row(LeftCell(i), RightCell(i), 1) else Row(RightCell(i - 120), LeftCell(i - 120), 1)
  }

  function BusyWindow(): (stored: seq<Row>)
    ensures |stored| == 201 && forall i :: 0 <= i < 201 ==> stored[i] == Stride(i)
  {
    seq(201, (i: int) requires 0 <= i => Stride(i))
  }

  lemma CellsOf(k: nat)
    requires k < 120
    ensures LeftCell(k) < 144 && RightCell(k) < 144
    ensures LeftCell(k) / 12 == 2 + k / 15 && LeftCell(k) % 12 == if k % 3 == 1 then 4 else 5
    ensures RightCell(k) / 12 == k / 15 + k % 15 / 3 && RightCell(k) % 12 == if k % 3 == 2 then 7 else 6
  {
    DivMod(2 + k / 15, if k % 3 == 1 then 4 else 5);
    DivMod(k / 15 + k % 15 / 3, if k % 3 == 2 then 7 else 6);
  }

  lemma DivMod(row: nat, col: nat)
    requires col < 12
    ensures (row * 12 + col) / 12 == row && (row * 12 + col) % 12 == col
  {
  }

  /** Each is a step the program counts, from one zone to the other. */
  lemma StrideSteps(i: nat)
    requires i < 201
    ensures Stride(i).from < 144 && Stride(i).to < 144 && Stride(i).n == 1
    ensures Projection.FlowAdjacent(Stride(i).from, Stride(i).to) && Goes(Stride(i), Halves(), Crossing())
  {
    CellsOf(if i < 120 then i else i - 120);
  }

  lemma StridesDiffer(i: nat, j: nat)
    requires i < j < 201
    ensures PairOf(Stride(i)) != PairOf(Stride(j))
  {
    var a, b := if i < 120 then i else i - 120, if j < 120 then j else j - 120;
    CellsOf(a);
    CellsOf(b);
    hide LeftCell, RightCell;
    if (i < 120) == (j < 120) && PairOf(Stride(i)) == PairOf(Stride(j)) {
      assert a / 15 == b / 15 && a % 15 / 3 == b % 15 / 3 && a % 3 == b % 3;
      Decoded(a);
      Decoded(b);
    }
  }

  lemma Decoded(k: nat)
    ensures k == k / 15 * 15 + k % 15 / 3 * 3 + k % 3
  {
    assert k % 15 % 3 == k % 3;
  }

  lemma BusySize()
    ensures |Grouped(BusyWindow())| >= 201
  {
    var stored := BusyWindow();
    var ks := seq(201, (i: int) requires 0 <= i < 201 => PairOf(stored[i]));
    forall i, j | 0 <= i < j < 201 ensures ks[i] != ks[j] {
      StridesDiffer(i, j);
    }
    hide Stride, Grouped;
    var members := set k | k in ks;
    EnumeratedSize(ks, members);
    forall k | k in members ensures k in Grouped(stored) {
      var i :| 0 <= i < |ks| && ks[i] == k;
      GroupedKeys(stored, k);
    }
    assert |Grouped(stored).Keys| == |Grouped(stored)|;
    var rest := Grouped(stored).Keys - members;
    assert Grouped(stored).Keys == members + rest;
  }

  lemma WindowSteps()
    ensures InGrid(BusyWindow()) && ValidRows(BusyWindow(), Halves())
    ensures forall i :: 0 <= i < 201 ==> BusyWindow()[i].n > 0 && Goes(BusyWindow()[i], Halves(), Crossing())
  {
    forall i | 0 <= i < 201 ensures BusyWindow()[i] == Stride(i) && Stride(i).from < 144 && Stride(i).to < 144
      ensures Stride(i).n > 0 && Goes(Stride(i), Halves(), Crossing())
    {
      StrideSteps(i);
    }
  }

  /** Every ranking of the window has an edge the query cuts, and it changes zone. */
  lemma CutMissesFlow(all: seq<Row>)
    requires RankingOf(Grouped(BusyWindow()), all)
    ensures ValidRows(BusyWindow(), Halves()) && ValidRows(First(all, QUERY_LIMIT), Halves())
    ensures CrossTotal(First(all, QUERY_LIMIT), Halves()) < CrossTotal(BusyWindow(), Halves())
  {
    var stored, cellZone := BusyWindow(), Halves();
    WindowSteps();
    BusySize();
    hide Stride, Grouped, Flow, Halves, Crossing;
    WholeWindowExactly(stored, all, cellZone);
    GroupedKeys(stored, PairOf(all[200]));
    var i :| 0 <= i < |stored| && PairOf(stored[i]) == PairOf(all[200]);
    assert Goes(all[200], cellZone, Crossing());
  }

  /** Whatever the endpoint answers for this plan and window, its totals miss some of what changed zone. */
  lemma CutWindowMissesFlow(s: Summary)
    requires Answers(Shelves(), BusyWindow(), s)
    ensures InGrid(BusyWindow()) && IsPartition(ZonesOf(Shelves()), Halves()) && ValidRows(BusyWindow(), Halves())
    ensures Total(s.out) == Total(s.arrived) < CrossTotal(BusyWindow(), Halves())
  {
    WindowSteps();
    ShelfZones();
    forall c | 0 <= c < |Halves()| ensures IsZoneOf(ZonesOf(Shelves()), CellCentre(c), Halves()[c]) {
      CellHalf(c);
    }
    hide Grouped, RankingOf, Flow, Stride, CellCentre, IsZoneOf;
    var cellZone, all :| IsPartition(ZonesOf(Shelves()), cellZone) && RankingOf(Grouped(BusyWindow()), all)
      && ValidRows(First(all, QUERY_LIMIT), cellZone) && SummaryOf(First(all, QUERY_LIMIT), cellZone, 2, s);
    OnePartition(cellZone);
    CutMissesFlow(all);
  }
}
