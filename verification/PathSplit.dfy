/**
 Splitting a raw walked path where it pierces a wall or teleports
 (`_segs_intersect`, `_split_path`).
 */
module PathSplit {
  import opened Geometry
  import opened Sequences

  datatype Wall = Wall(c: Point, d: Point)

  /** 0.12 squared: the largest believable step between two samples. */
  const TELEPORT_SQ: real := 0.0144
  const MIN_SAVED_POINTS := 3

  // ---- the wall test ------------------------------------------------------------------------

  predicate SegsIntersect(a: Point, b: Point, w: Wall) {
    var d1 := Cross(w.c, w.d, a);
    var d2 := Cross(w.c, w.d, b);
    var d3 := Cross(a, b, w.c);
    var d4 := Cross(a, b, w.d);
    ((d1 > 0.0) != (d2 > 0.0)) && ((d3 > 0.0) != (d4 > 0.0))
  }

  /** Step a-b and wall w share the point at fractions t and u, not being parallel. */
  ghost predicate MeetAt(a: Point, b: Point, w: Wall, t: real, u: real) {
    && 0.0 <= t <= 1.0 && 0.0 <= u <= 1.0
    && At(a, b, t) == At(w.c, w.d, u)
    && Cross(w.c, w.d, a) != Cross(w.c, w.d, b)
  }

  /** How the code decides a touch: an end point counts only if the other end is strictly left. */
  ghost predicate TouchCounts(a: Point, b: Point, w: Wall, t: real, u: real) {
    && (t == 0.0 ==> Cross(w.c, w.d, b) > 0.0)
    && (t == 1.0 ==> Cross(w.c, w.d, a) > 0.0)
    && (u == 0.0 ==> Cross(a, b, w.d) > 0.0)
    && (u == 1.0 ==> Cross(a, b, w.c) > 0.0)
  }

  /** The two side differences are opposite: both measure the angle between step and wall. */
  lemma SideDifferences(a: Point, b: Point, w: Wall)
    ensures Cross(w.c, w.d, a) - Cross(w.c, w.d, b) == Cross(a, b, w.d) - Cross(a, b, w.c)
  {
    var rx, ry := b.x - a.x, b.y - a.y;
    var sx, sy := w.d.x - w.c.x, w.d.y - w.c.y;
    assert Cross(w.c, w.d, b) == Cross(w.c, w.d, a) + (sx * ry - sy * rx);
    assert Cross(a, b, w.d) == Cross(a, b, w.c) + (rx * sy - ry * sx);
  }

  /** Cramer's rule for the crossing of two lines, in vectors q = a - c, r = b - a, s = d - c. */
  lemma CrossingIdentity(qx: real, qy: real, rx: real, ry: real, sx: real, sy: real)
    ensures (sy * rx - sx * ry) * qx + (sx * qy - sy * qx) * rx == (rx * qy - ry * qx) * sx
    ensures (sy * rx - sx * ry) * qy + (sx * qy - sy * qx) * ry == (rx * qy - ry * qx) * sy
  {
  }

  /** a + (n / m) r == c + (k / m) s once m q + n r == k s, for q = a - c. */
  lemma SolveAt(a: real, c: real, r: real, s: real, m: real, n: real, k: real)
    requires m != 0.0 && m * (a - c) + n * r == k * s
    ensures a + (n / m) * r == c + (k / m) * s
  {
    var t, u := n / m, k / m;
    assert t * m == n && u * m == k;
    assert m * ((a + t * r) - (c + u * s)) == m * (a - c) + (t * m) * r - (u * m) * s;
  }

  lemma SidesAlong(a: Point, b: Point, c: Point, d: Point, t: real)
    ensures Cross(c, d, At(a, b, t)) == (1.0 - t) * Cross(c, d, a) + t * Cross(c, d, b)
  {
    var sx, sy := d.x - c.x, d.y - c.y;
    var ux, uy := a.x - c.x, a.y - c.y;
    var vx, vy := b.x - c.x, b.y - c.y;
    var p := At(a, b, t);
    assert p.x - c.x == (1.0 - t) * ux + t * vx;
    assert p.y - c.y == (1.0 - t) * uy + t * vy;
    assert sx * ((1.0 - t) * uy + t * vy) - sy * ((1.0 - t) * ux + t * vx)
        == (1.0 - t) * (sx * uy - sy * ux) + t * (sx * vy - sy * vx);
  }

  /** A point of the wall's own line is on neither side of it. */
  lemma OnOwnLine(c: Point, d: Point, u: real)
    ensures Cross(c, d, At(c, d, u)) == 0.0
  {
    var sx, sy := d.x - c.x, d.y - c.y;
    assert At(c, d, u).x - c.x == u * sx && At(c, d, u).y - c.y == u * sy;
    assert sx * (u * sy) == sy * (u * sx);
  }

  /** n / (n - k) is a fraction strictly inside [0, 1] unless n or k is zero. */
  lemma Fraction(n: real, k: real)
    requires (n > 0.0) != (k > 0.0)
    ensures n != k && 0.0 <= n / (n - k) <= 1.0
    ensures n / (n - k) == 0.0 ==> n == 0.0
    ensures n / (n - k) == 1.0 ==> k == 0.0
  {
    var t := n / (n - k);
    assert t * (n - k) == n;
  }

  /** The sign test finds the crossing point. */
  lemma IntersectMeets(a: Point, b: Point, w: Wall)
    requires SegsIntersect(a, b, w)
    ensures var d1, d2 := Cross(w.c, w.d, a), Cross(w.c, w.d, b);
            var d3, d4 := Cross(a, b, w.c), Cross(a, b, w.d);
            && d1 != d2 && d3 != d4
            && MeetAt(a, b, w, d1 / (d1 - d2), d3 / (d3 - d4))
            && TouchCounts(a, b, w, d1 / (d1 - d2), d3 / (d3 - d4))
  {
    hide Cross, At;
    Fraction(Cross(w.c, w.d, a), Cross(w.c, w.d, b));
    Fraction(Cross(a, b, w.c), Cross(a, b, w.d));
    CrossingMeets(a, b, w);
  }

  lemma CrossingMeets(a: Point, b: Point, w: Wall)
    requires Cross(w.c, w.d, a) != Cross(w.c, w.d, b)
    ensures var d1, d2 := Cross(w.c, w.d, a), Cross(w.c, w.d, b);
      var d3, d4 := Cross(a, b, w.c), Cross(a, b, w.d);
      d3 != d4 && At(a, b, d1 / (d1 - d2)) == At(w.c, w.d, d3 / (d3 - d4))
  {
    hide Cross;
    var d1, d2 := Cross(w.c, w.d, a), Cross(w.c, w.d, b);
    var d3, d4 := Cross(a, b, w.c), Cross(a, b, w.d);
    SideDifferences(a, b, w);
    CrossingPoint(a, b, w);
    MeetCoordinate(a.x, w.c.x, b.x - a.x, w.d.x - w.c.x, d1, d1 - d2, d3, d3 - d4);
    MeetCoordinate(a.y, w.c.y, b.y - a.y, w.d.y - w.c.y, d1, d1 - d2, d3, d3 - d4);
  }

  lemma MeetCoordinate(a: real, c: real, r: real, s: real, n: real, m: real, k: real, m': real)
    requires m != 0.0 && m' == -m && m * (a - c) + n * r == (-k) * s
    ensures a + (n / m) * r == c + (k / m') * s
  {
    SolveAt(a, c, r, s, m, n, -k);
    OppositeQuotients(k, m);
  }

  lemma OppositeQuotients(n: real, m: real)
    requires m != 0.0
    ensures (-n) / m == n / (-m)
  {
    var u := n / (-m);
    assert u * (-m) == n;
    assert u * m == -n;
  }

  lemma CrossingPoint(a: Point, b: Point, w: Wall)
    ensures var d1, d2 := Cross(w.c, w.d, a), Cross(w.c, w.d, b);
            var d3 := Cross(a, b, w.c);
            && (d1 - d2) * (a.x - w.c.x) + d1 * (b.x - a.x) == (-d3) * (w.d.x - w.c.x)
            && (d1 - d2) * (a.y - w.c.y) + d1 * (b.y - a.y) == (-d3) * (w.d.y - w.c.y)
  {
    hide Cross;
    CrossParts(a, b, w);
    CrossingIdentity(a.x - w.c.x, a.y - w.c.y, b.x - a.x, b.y - a.y, w.d.x - w.c.x, w.d.y - w.c.y);
  }

  lemma CrossParts(a: Point, b: Point, w: Wall)
    ensures var qx, qy := a.x - w.c.x, a.y - w.c.y;
            var rx, ry := b.x - a.x, b.y - a.y;
            var sx, sy := w.d.x - w.c.x, w.d.y - w.c.y;
            && Cross(w.c, w.d, a) == sx * qy - sy * qx
            && Cross(w.c, w.d, a) - Cross(w.c, w.d, b) == sy * rx - sx * ry
            && -Cross(a, b, w.c) == rx * qy - ry * qx
  {
    var qx, qy := a.x - w.c.x, a.y - w.c.y;
    var rx, ry := b.x - a.x, b.y - a.y;
    var sx, sy := w.d.x - w.c.x, w.d.y - w.c.y;
    assert b.x - w.c.x == qx + rx && b.y - w.c.y == qy + ry;
    assert sx * (qy + ry) - sy * (qx + rx) == (sx * qy - sy * qx) + (sx * ry - sy * rx);
    assert rx * (0.0 - qy) - ry * (0.0 - qx) == -(rx * qy - ry * qx);
  }

  /** A zero combination of two unequal sides separates them, the tie rule deciding the ends. */
  lemma SidesDiffer(n: real, k: real, t: real)
    requires 0.0 <= t <= 1.0 && (1.0 - t) * n + t * k == 0.0 && n != k
    requires (t == 0.0 ==> k > 0.0) && (t == 1.0 ==> n > 0.0)
    ensures (n > 0.0) != (k > 0.0)
  {
    if 0.0 < t < 1.0 {
      ScaledSign(1.0 - t, n);
      ScaledSign(t, k);
    }
  }

  lemma ScaledSign(c: real, n: real)
    requires c > 0.0
    ensures c * n > 0.0 <==> n > 0.0
    ensures c * n == 0.0 <==> n == 0.0
  {
  }

  lemma MeetsIntersect(a: Point, b: Point, w: Wall, t: real, u: real)
    requires MeetAt(a, b, w, t, u) && TouchCounts(a, b, w, t, u)
    ensures SegsIntersect(a, b, w)
  {
    var d1, d2 := Cross(w.c, w.d, a), Cross(w.c, w.d, b);
    var d3, d4 := Cross(a, b, w.c), Cross(a, b, w.d);
    SidesAlong(a, b, w.c, w.d, t);
    OnOwnLine(w.c, w.d, u);
    SidesAlong(w.c, w.d, a, b, u);
    OnOwnLine(a, b, t);
    SideDifferences(a, b, w);
    SidesDiffer(d1, d2, t);
    SidesDiffer(d3, d4, u);
  }

  /** Main result: exactly when the sign test reports a crossing. */
  lemma IntersectExact(a: Point, b: Point, w: Wall)
    ensures SegsIntersect(a, b, w) <==> exists t, u :: MeetAt(a, b, w, t, u) && TouchCounts(a, b, w, t, u)
  {
    if SegsIntersect(a, b, w) {
      IntersectMeets(a, b, w);
    }
    if t, u :| MeetAt(a, b, w, t, u) && TouchCounts(a, b, w, t, u) {
      MeetsIntersect(a, b, w, t, u);
    }
  }

  /** The comment in the code says shared end points do not count: here one does. */
  lemma SharedEndCanCount()
    ensures SegsIntersect(Point(0.0, 0.0), Point(1.0, 0.0), Wall(Point(0.0, 1.0), Point(0.0, 0.0)))
    ensures !SegsIntersect(Point(0.0, 0.0), Point(1.0, 0.0), Wall(Point(0.0, 0.0), Point(0.0, 1.0)))
  {
  }

  /**
   A step that shares an end with a wall counts if and only if it begins at the wall's second end, or ends at its
   first, with the wall's other end strictly to its left.
   */
  lemma SharedEndsExactly(a: Point, b: Point, w: Wall)
    requires a == w.c || a == w.d || b == w.c || b == w.d
    ensures SegsIntersect(a, b, w)
      <==> (a == w.d && Cross(a, b, w.c) > 0.0) || (b == w.c && Cross(a, b, w.d) > 0.0)
  {
    SideDifferences(a, b, w);
    NoTurn(a, b);
    NoTurn(w.c, w.d);
  }

  lemma NoTurn(o: Point, p: Point)
    ensures Cross(o, p, o) == 0.0 && Cross(o, p, p) == 0.0
  {
  }

  /** Walking the step backwards gives another answer exactly if one wall end alone is on its line. */
  lemma ReverseStep(a: Point, b: Point, w: Wall)
    ensures (SegsIntersect(a, b, w) == SegsIntersect(b, a, w)) <==>
              ((Cross(w.c, w.d, a) > 0.0) != (Cross(w.c, w.d, b) > 0.0) ==>
                (Cross(a, b, w.c) == 0.0) == (Cross(a, b, w.d) == 0.0))
  {
    CrossReversed(a, b, w.c);
    CrossReversed(a, b, w.d);
  }

  lemma CrossReversed(o: Point, p: Point, q: Point)
    ensures Cross(p, o, q) == -Cross(o, p, q)
  {
    var dx, dy := p.x - o.x, p.y - o.y;
    var ex, ey := q.x - o.x, q.y - o.y;
    assert q.x - p.x == ex - dx && q.y - p.y == ey - dy;
    assert (-dx) * (ey - dy) - (-dy) * (ex - dx) == -(dx * ey - dy * ex);
  }

  // ---- the split ----------------------------------------------------------------------------

  /** The step a-b may not be drawn: a teleport, or through a wall. */
  predicate Blocked(a: Point, b: Point, walls: seq<Wall>) {
    Len2(a, b) >= TELEPORT_SQ || exists i :: 0 <= i < |walls| && SegsIntersect(a, b, walls[i])
  }

  /** A step is blocked from 0.12 of the plan on, or where it meets a wall as `TouchCounts` reads it. */
  lemma BlockedExactly(a: Point, b: Point, walls: seq<Wall>)
    ensures Blocked(a, b, walls) <==>
      Len2(a, b) >= 0.12 * 0.12 || exists w, t, u :: w in walls && MeetAt(a, b, w, t, u) && TouchCounts(a, b, w, t, u)
  {
    hide MeetAt, TouchCounts, SegsIntersect;
    forall i | 0 <= i < |walls| {
      IntersectExact(a, b, walls[i]);
    }
  }

  /** The step into point i is blocked. */
  predicate CutAt(pts: seq<Point>, walls: seq<Wall>, i: nat) {
    0 < i < |pts| && Blocked(pts[i - 1], pts[i], walls)
  }

  /** The bounds of the runs below point `end`: 0 and every cut, in order. */
  function Starts(pts: seq<Point>, walls: seq<Wall>, end: nat): (b: seq<nat>)
    requires end <= |pts|
    ensures |b| > 0 && b[0] == 0
    ensures forall q :: 0 <= q < |b| ==> b[q] < end || b[q] == 0
  {
    if end == 0 then [0]
    else Starts(pts, walls, end - 1) + if CutAt(pts, walls, end - 1) then [end - 1] else []
  }

  /** All run bounds: run q is [b[q], b[q + 1]). */
  function Bounds(pts: seq<Point>, walls: seq<Wall>): seq<nat> {
    Starts(pts, walls, |pts|) + [|pts|]
  }

  ghost predicate BoundsIn(pts: seq<Point>, b: seq<nat>) {
    Increasing(b) && forall q :: 0 <= q < |b| ==> b[q] <= |pts|
  }

  /** The stretches between consecutive bounds that are long enough to be worth a row. */
  function Saved(pts: seq<Point>, b: seq<nat>): (parts: seq<seq<Point>>)
    requires BoundsIn(pts, b)
    ensures forall p :: p in parts ==> |p| >= MIN_SAVED_POINTS
  {
    if |b| <= 1 then []
    else
      var lo, hi := b[|b| - 2], b[|b| - 1];
      Saved(pts, b[..|b| - 1]) + if hi - lo >= MIN_SAVED_POINTS then [pts[lo..hi]] else []
  }

  /** The cuts are exactly the blocked steps, in order. */
  lemma {:induction false} StartsExact(pts: seq<Point>, walls: seq<Wall>, end: nat, x: nat)
    requires 0 < end <= |pts|
    ensures Increasing(Starts(pts, walls, end))
    ensures x in Starts(pts, walls, end) <==> x == 0 || (x < end && CutAt(pts, walls, x))
  {
    hide Blocked;
    if end > 1 {
      StartsExact(pts, walls, end - 1, x);
    } else {
      assert Starts(pts, walls, 0) == [0];
      assert Starts(pts, walls, 1) == [0];
    }
  }

  lemma BoundsIncreasing(pts: seq<Point>, walls: seq<Wall>)
    requires |pts| > 0
    ensures BoundsIn(pts, Bounds(pts, walls))
  {
    StartsExact(pts, walls, |pts|, 0);
  }

  /** Every point is in exactly one run. */
  lemma RunOf(pts: seq<Point>, walls: seq<Wall>, x: nat) returns (q: nat)
    requires x < |pts|
    ensures var b := Bounds(pts, walls);
            && q + 1 < |b| && b[q] <= x < b[q + 1]
            && forall r :: 0 <= r < |b| && r != q && r + 1 < |b| ==> !(b[r] <= x < b[r + 1])
  {
    var b := Bounds(pts, walls);
    BoundsIncreasing(pts, walls);
    q := 0;
    while x >= b[q + 1]
      invariant q + 1 < |b| && b[q] <= x
      decreases |b| - q
    {
      q := q + 1;
    }
    forall r | 0 <= r < |b| && r != q && r + 1 < |b|
      ensures !(b[r] <= x < b[r + 1])
    {
      assert r < q ==> b[r + 1] <= b[q];
      assert q < r ==> b[q + 1] <= b[r];
    }
  }

  /** Inside a run no step is blocked; between two runs the step is. */
  lemma RunSteps(pts: seq<Point>, walls: seq<Wall>, q: nat, i: nat)
    requires |pts| > 0 && q + 1 < |Bounds(pts, walls)|
    requires Bounds(pts, walls)[q] <= i < Bounds(pts, walls)[q + 1]
    ensures CutAt(pts, walls, i) <==> i == Bounds(pts, walls)[q] && i > 0
  {
    var b := Bounds(pts, walls);
    var starts := Starts(pts, walls, |pts|);
    BoundsIncreasing(pts, walls);
    StartsExact(pts, walls, |pts|, i);
    assert b[q] == starts[q];
    if i in starts {
      var r :| 0 <= r < |starts| && starts[r] == i;
      assert b[r] == i;
      SameRun(b, q, r);
    }
  }

  lemma SameRun(b: seq<nat>, q: nat, r: nat)
    requires Increasing(b) && q + 1 < |b| && r < |b|
    ensures b[q] <= b[r] < b[q + 1] ==> r == q
  {
    if q + 1 < r {
      assert b[q + 1] < b[r];
    }
  }

  /** Run q, from bound q to the next, has at least three points. */
  predicate IsLong(b: seq<nat>, q: nat) {
    q + 1 < |b| && b[q] + 3 <= b[q + 1]
  }

  function LongRuns(b: seq<nat>): seq<nat> {
    if |b| <= 1 then []
    else LongRuns(b[..|b| - 1]) + if IsLong(b, |b| - 2) then [|b| - 2] else []
  }

  /** The long runs, each once and in order. */
  lemma {:induction false} LongRunsExactly(b: seq<nat>, q: nat)
    ensures Increasing(LongRuns(b)) && forall k :: 0 <= k < |LongRuns(b)| ==> LongRuns(b)[k] + 1 < |b|
    ensures q in LongRuns(b) <==> IsLong(b, q)
  {
    if |b| > 1 {
      var front := b[..|b| - 1];
      LongRunsExactly(front, q);
      assert q < |b| - 2 ==> IsLong(front, q) == IsLong(b, q);
    }
  }

  /** What is saved are the long runs: the p-th saved stretch is the p-th run of at least three points. */
  lemma {:induction false} SavedExactly(pts: seq<Point>, b: seq<nat>, p: nat)
    requires BoundsIn(pts, b)
    ensures |Saved(pts, b)| == |LongRuns(b)|
    ensures p < |LongRuns(b)| ==> var q := LongRuns(b)[p];
      IsLong(b, q) && Saved(pts, b)[p] == pts[b[q]..b[q + 1]]
  {
    if |b| > 1 {
      var front := b[..|b| - 1];
      assert BoundsIn(pts, front);
      SavedExactly(pts, front, p);
      hide BoundsIn, Increasing;
    }
  }

  /** What a caller relies on: no saved stretch holds a teleport or a true wall crossing. */
  lemma {:induction false} SavedRespectsWalls(pts: seq<Point>, walls: seq<Wall>, parts: seq<seq<Point>>, p: nat,
      i: nat, a: Point, c: Point)
    requires |pts| > 0 && BoundsIn(pts, Bounds(pts, walls)) && parts == Saved(pts, Bounds(pts, walls))
    requires p < |parts| && 0 < i < |parts[p]| && a == parts[p][i - 1] && c == parts[p][i]
    ensures Len2(a, c) < 0.12 * 0.12
    ensures forall w, t, u :: w in walls && 0.0 < t < 1.0 && 0.0 < u < 1.0 ==> !MeetAt(a, c, w, t, u)
  {
    var b := Bounds(pts, walls);
    SavedExactly(pts, b, p);
    var q := LongRuns(b)[p];
    hide Saved, Bounds, BoundsIn, Blocked, MeetAt, SegsIntersect, LongRuns;
    var k := b[q] + i;
    assert a == pts[k - 1] && c == pts[k];
    RunSteps(pts, walls, q, k);
    assert !Blocked(a, c, walls);
    forall w, t, u | w in walls && 0.0 < t < 1.0 && 0.0 < u < 1.0
      ensures !MeetAt(a, c, w, t, u)
    {
      hide MeetAt, SegsIntersect;
      if MeetAt(a, c, w, t, u) {
        MeetsIntersect(a, c, w, t, u);
        assert false;
      }
    }
  }

  // ---- the code -----------------------------------------------------------------------------

  method AnyIntersects(a: Point, b: Point, walls: seq<Wall>) returns (hit: bool)
    ensures hit <==> exists i :: 0 <= i < |walls| && SegsIntersect(a, b, walls[i])
  {
    for i := 0 to |walls|
      invariant forall j :: 0 <= j < i ==> !SegsIntersect(a, b, walls[j])
    {
      if SegsIntersect(a, b, walls[i]) {
        return true;
      }
    }
    return false;
  }

  method IsBlocked(a: Point, b: Point, walls: seq<Wall>) returns (blocked: bool)
    ensures blocked == Blocked(a, b, walls)
  {
    var jump := Len2(a, b) >= TELEPORT_SQ;
    blocked := jump;
    if !jump {
      blocked := AnyIntersects(a, b, walls);
    }
  }

  method SplitPath(pts: seq<Point>, walls: seq<Wall>) returns (parts: seq<seq<Point>>)
    requires |pts| > 0
    ensures BoundsIn(pts, Bounds(pts, walls))
    ensures parts == Saved(pts, Bounds(pts, walls))
  {
    hide Blocked, Starts, Saved, CutAt, BoundsIn;
    BoundsIncreasing(pts, walls);
    parts := [];
    var cur := [pts[0]];
    ghost var b: seq<nat> := [0];
    FirstRun(pts, walls);
    for i := 1 to |pts|
      invariant b == Starts(pts, walls, i) && BoundsIn(pts, b) && b[|b| - 1] < i
      invariant cur == pts[b[|b| - 1]..i]
      invariant parts == Saved(pts, b)
    {
      NextStart(pts, walls, i);
      var blocked := IsBlocked(pts[i - 1], pts[i], walls);
      if blocked {
        SavedSnoc(pts, b, i);
        b := b + [i];
        if |cur| >= MIN_SAVED_POINTS {
          parts := parts + [cur];
        }
        cur := [pts[i]];
      } else {
        LongerRun(pts, b[|b| - 1], i);
        cur := cur + [pts[i]];
      }
    }
    SavedSnoc(pts, b, |pts|);
    if |cur| >= MIN_SAVED_POINTS {
      parts := parts + [cur];
    }
  }

  lemma LongerRun(pts: seq<Point>, lo: nat, i: nat)
    requires lo <= i < |pts|
    ensures pts[lo..i] + [pts[i]] == pts[lo..i + 1]
  {
  }

  lemma FirstRun(pts: seq<Point>, walls: seq<Wall>)
    requires |pts| > 0
    ensures Starts(pts, walls, 1) == [0] && BoundsIn(pts, [0]) && Saved(pts, [0]) == []
  {
    assert Starts(pts, walls, 0) == [0];
  }

  lemma {:induction false} NextStart(pts: seq<Point>, walls: seq<Wall>, i: nat)
    requires 0 < i < |pts|
    ensures Starts(pts, walls, i + 1) ==
              Starts(pts, walls, i) + if Blocked(pts[i - 1], pts[i], walls) then [i] else []
    ensures Increasing(Starts(pts, walls, i + 1))
  {
    hide Blocked;
    StartsExact(pts, walls, i + 1, 0);
  }

  lemma SavedSnoc(pts: seq<Point>, b: seq<nat>, hi: nat)
    requires |b| > 0 && BoundsIn(pts, b) && b[|b| - 1] < hi <= |pts|
    ensures BoundsIn(pts, b + [hi])
    ensures var lo := b[|b| - 1];
            Saved(pts, b + [hi]) == Saved(pts, b) + if hi - lo >= MIN_SAVED_POINTS then [pts[lo..hi]] else []
  {
    SnocIncreasing(b, hi);
    var all := b + [hi];
    assert all[..|all| - 1] == b;
    hide Increasing;
  }

  lemma SnocIncreasing(b: seq<nat>, hi: nat)
    requires |b| > 0 && Increasing(b) && b[|b| - 1] < hi
    ensures Increasing(b + [hi]) && forall q :: 0 <= q < |b| ==> b[q] <= hi
  {
  }
}
