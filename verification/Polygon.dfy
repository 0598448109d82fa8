/**
 Ray-casting point-in-polygon (`point_in_polygon`).

 The loop is proved equal to a parity over the closed vertex path. The lemmas give that
 parity its meaning: exact on triangles, additive over chords, independent of where the
 vertex list starts, of its direction and of the units, and false outside the bounding box.
 */
module Polygon {
  import opened Geometry

  /** A drawn vertex as stored in the plan: it may fail to convert to two numbers. */
  datatype Vertex = Malformed | Vertex(p: Point)

  /** The ray from p towards larger x crosses edge k-j, taken half-open in y. */
  predicate EdgeHit(p: Point, k: Point, j: Point) {
    (k.y > p.y) != (j.y > p.y) && p.x < (j.x - k.x) * (p.y - k.y) / (j.y - k.y) + k.x
  }

  /** Parity of the hits along an open path of vertices. */
  function PathParity(p: Point, path: seq<Point>): bool {
    if |path| < 2 then false
    else PathParity(p, path[..|path| - 1]) != EdgeHit(p, path[|path| - 1], path[|path| - 2])
  }

  function Closed(vs: seq<Point>): seq<Point>
    requires |vs| > 0
  {
    vs + [vs[0]]
  }

  predicate Inside(p: Point, vs: seq<Point>) {
    |vs| >= 3 && PathParity(p, Closed(vs))
  }

  function Points(vertices: seq<Vertex>): seq<Point>
    requires forall i :: 0 <= i < |vertices| ==> vertices[i].Vertex?
  {
    seq(|vertices|, i requires 0 <= i < |vertices| => vertices[i].p)
  }

  predicate WellFormed(vertices: seq<Vertex>) {
    forall i :: 0 <= i < |vertices| ==> vertices[i].Vertex?
  }

  lemma WellFormedExactly(vertices: seq<Vertex>)
    ensures WellFormed(vertices) <==> Malformed !in vertices
  {
  }

  // ---- one edge -----------------------------------------------------------------------------

  /** Division-free form: an upward edge is hit by points on its left, a downward one likewise. */
  lemma HitIsSide(p: Point, k: Point, j: Point)
    requires k.y > p.y >= j.y
    ensures EdgeHit(p, k, j) <==> Cross(j, k, p) > 0.0
    ensures EdgeHit(p, j, k) <==> Cross(j, k, p) > 0.0
  {
    var h := k.y - j.y;
    var q := (j.x - k.x) * (p.y - k.y) / (j.y - k.y);
    var r := (k.x - j.x) * (p.y - j.y) / h;
    assert q * (-h) == (j.x - k.x) * (p.y - k.y);
    assert r * h == (k.x - j.x) * (p.y - j.y);
    HitTerms(p, k, j, q, r, h);
    ScaledOrder(h, p.x, q + k.x);
    ScaledOrder(h, p.x, r + j.x);
  }

  lemma HitTerms(p: Point, k: Point, j: Point, q: real, r: real, h: real)
    requires h == k.y - j.y
    requires q * (-h) == (j.x - k.x) * (p.y - k.y) && r * h == (k.x - j.x) * (p.y - j.y)
    ensures h * (q + k.x) - h * p.x == Cross(j, k, p)
    ensures h * (r + j.x) - h * p.x == Cross(j, k, p)
  {
    var dx, u, v := k.x - j.x, p.x - j.x, p.y - j.y;
    assert p.y - k.y == v - h;
    assert q * h == dx * (v - h);
    assert h * (dx - u) + dx * (v - h) == dx * v - h * u;
  }

  lemma ScaledOrder(h: real, a: real, b: real)
    requires h > 0.0
    ensures a < b <==> h * b - h * a > 0.0
  {
    assert h * b - h * a == h * (b - a);
  }

  lemma HitSymmetric(p: Point, k: Point, j: Point)
    ensures EdgeHit(p, k, j) == EdgeHit(p, j, k)
  {
    if k.y > p.y >= j.y {
      HitIsSide(p, k, j);
    } else if j.y > p.y >= k.y {
      HitIsSide(p, j, k);
    }
  }

  // ---- paths --------------------------------------------------------------------------------

  /** The parity of a path is the parity of its two pieces at any shared vertex. */
  lemma {:induction false} PathSplits(p: Point, path: seq<Point>, m: nat)
    requires m < |path|
    ensures PathParity(p, path) == (PathParity(p, path[..m + 1]) != PathParity(p, path[m..]))
  {
    hide EdgeHit;
    if m + 1 == |path| {
      assert path[..m + 1] == path;
    } else {
      var front := path[..|path| - 1];
      PathSplits(p, front, m);
      assert front[..m + 1] == path[..m + 1];
      assert front[m..] == path[m..][..|path[m..]| - 1];
    }
  }

  function Reverse(path: seq<Point>): seq<Point> {
    seq(|path|, i requires 0 <= i < |path| => path[|path| - 1 - i])
  }

  lemma {:induction false} PathReverse(p: Point, path: seq<Point>)
    ensures PathParity(p, Reverse(path)) == PathParity(p, path)
  {
    hide EdgeHit;
    if |path| >= 2 {
      var n := |path|;
      var front := path[..n - 1];
      PathReverse(p, front);
      var r := Reverse(path);
      PathSplits(p, r, 1);
      assert r[1..] == Reverse(front);
      Edge(p, r[..2]);
      HitSymmetric(p, path[n - 1], path[n - 2]);
    }
  }

  lemma Edge(p: Point, path: seq<Point>)
    requires |path| == 2
    ensures PathParity(p, path) == EdgeHit(p, path[1], path[0])
  {
    assert |path[..1]| == 1;
  }

  // ---- the loop of the code -------------------------------------------------------------------

  /** The code starts with the closing edge; the closed path ends with it. */
  lemma ClosingEdgeFirst(p: Point, vs: seq<Point>)
    requires |vs| > 0
    ensures PathParity(p, [vs[|vs| - 1]] + vs) == PathParity(p, Closed(vs))
  {
    hide EdgeHit;
    var a := [vs[|vs| - 1]] + vs;
    PathSplits(p, a, 1);
    Edge(p, a[..2]);
    assert a[1..] == vs;
    assert Closed(vs)[..|vs|] == vs;
    HitSymmetric(p, vs[0], vs[|vs| - 1]);
  }

  method PointInPolygon(px: real, py: real, points: seq<Vertex>) returns (inside: bool)
    ensures inside <==> WellFormed(points) && Inside(Point(px, py), Points(points))
  {
    hide EdgeHit;
    var n := |points|;
    if n < 3 {
      return false;
    }
    inside := false;
    var j := n - 1;
    ghost var p := Point(px, py);
    for k := 0 to n
      invariant 0 <= j < n && j == if k == 0 then n - 1 else k - 1
      invariant forall i :: 0 <= i < k ==> points[i].Vertex?
      invariant k > 0 ==> points[n - 1].Vertex?
      invariant inside == (k > 0 && PathParity(p, [points[n - 1].p] + Points(points[..k])))
    {
      if points[k].Malformed? || points[j].Malformed? {
        return false;
      }
      ghost var path := [points[n - 1].p] + Points(points[..k + 1]);
      assert path[..|path| - 1] == [points[n - 1].p] + Points(points[..k]);
      assert path[|path| - 1] == points[k].p && path[|path| - 2] == points[j].p;
      if RayMeets(px, py, points[k].p, points[j].p) {
        inside := !inside;
      }
      j := k;
    }
    assert points[..n] == points;
    ClosingEdgeFirst(p, Points(points));
  }

  /** The test in the loop body; `or 1e-9` only guards a division the first test already excludes. */
  predicate RayMeets(px: real, py: real, k: Point, j: Point)
    ensures RayMeets(px, py, k, j) == EdgeHit(Point(px, py), k, j)
  {
    var dy := if j.y - k.y == 0.0 then 0.000000001 else j.y - k.y;
    (k.y > py) != (j.y > py) && px < (j.x - k.x) * (py - k.y) / dy + k.x
  }

  // ---- what the answer means ------------------------------------------------------------------

  /** Starting the vertex list elsewhere changes nothing. */
  lemma RotationInvariant(p: Point, vs: seq<Point>, m: nat)
    requires m < |vs|
    ensures Inside(p, vs[m..] + vs[..m]) == Inside(p, vs)
  {
    hide EdgeHit;
    if m > 0 {
      var ws := vs[m..] + vs[..m];
      PathSplits(p, Closed(vs), m);
      PathSplits(p, Closed(ws), |vs| - m);
      assert Closed(vs)[..m + 1] == Closed(ws)[|vs| - m..];
      assert Closed(vs)[m..] == Closed(ws)[..|vs| - m + 1];
    } else {
      assert vs[m..] + vs[..m] == vs;
    }
  }

  /** Nor does drawing the polygon the other way round. */
  lemma DirectionInvariant(p: Point, vs: seq<Point>)
    ensures Inside(p, Reverse(vs)) == Inside(p, vs)
  {
    hide EdgeHit;
    if |vs| >= 3 {
      PathReverse(p, Closed(vs));
      var r := Reverse(vs);
      ClosingEdgeFirst(p, r);
      assert Reverse(Closed(vs)) == [r[|r| - 1]] + r;
    }
  }

  /** Cutting along the chord between two vertices: p is in exactly one part iff it is in the whole. */
  lemma ChordAdditive(p: Point, a: seq<Point>, b: seq<Point>)
    requires |a| >= 2 && |b| >= 2
    ensures Inside(p, a + b) == (Inside(p, a + [b[0]]) != Inside(p, b + [a[0]]))
  {
    hide EdgeHit;
    var whole, left, right := Closed(a + b), Closed(a + [b[0]]), Closed(b + [a[0]]);
    PathSplits(p, whole, |a|);
    assert whole[..|a| + 1] == a + [b[0]] == left[..|a| + 1];
    assert whole[|a|..] == b + [a[0]] == right[..|b| + 1];
    HitSymmetric(p, a[0], b[0]);
  }

  /** Parity when every edge between the two levels counts: only the ends matter. */
  lemma {:induction false} AllStraddlesHit(p: Point, path: seq<Point>)
    requires |path| > 0
    requires forall i, j :: 0 <= i < |path| && 0 <= j < |path| && path[i].y > p.y >= path[j].y ==>
      EdgeHit(p, path[i], path[j])
    ensures PathParity(p, path) == ((path[0].y > p.y) != (path[|path| - 1].y > p.y))
  {
    hide EdgeHit;
    if |path| >= 2 {
      var front := path[..|path| - 1];
      AllStraddlesHit(p, front);
      var u, v := path[|path| - 1], path[|path| - 2];
      HitSymmetric(p, u, v);
      HitNeedsStraddle(p, u, v);
    }
  }

  lemma HitNeedsStraddle(p: Point, u: Point, v: Point)
    ensures EdgeHit(p, u, v) ==> (u.y > p.y) != (v.y > p.y)
  {
  }

  lemma {:induction false} NoHit(p: Point, path: seq<Point>)
    requires forall i, j :: 0 <= i < |path| && 0 <= j < |path| ==> !EdgeHit(p, path[i], path[j])
    ensures !PathParity(p, path)
  {
    hide EdgeHit;
    if |path| >= 2 {
      NoHit(p, path[..|path| - 1]);
    }
  }

  /** The cross product is the two horizontal distances from p, each weighted by the other end's vertical one. */
  lemma CrossWeighs(j: Point, k: Point, p: Point)
    ensures Cross(j, k, p) == (k.x - p.x) * (p.y - j.y) + (j.x - p.x) * (k.y - p.y)
  {
    var a, b, up, down := k.x - p.x, j.x - p.x, k.y - p.y, p.y - j.y;
    assert k.x - j.x == a - b && k.y - j.y == up + down;
    assert (a - b) * down - (up + down) * (-b) == a * down + b * up;
  }

  /** On the left of both ends every straddling edge is hit, on the right none is. */
  lemma SideOfEdge(p: Point, k: Point, j: Point)
    requires k.y > p.y >= j.y
    ensures p.x < k.x && p.x < j.x ==> EdgeHit(p, k, j)
    ensures p.x >= k.x && p.x >= j.x ==> !EdgeHit(p, k, j) && !EdgeHit(p, j, k)
  {
    hide EdgeHit, Cross;
    HitIsSide(p, k, j);
    CrossWeighs(j, k, p);
    var up, down := k.y - p.y, p.y - j.y;
    if p.x < k.x && p.x < j.x {
      assert (k.x - p.x) * down >= 0.0 && (j.x - p.x) * up > 0.0;
    }
    if p.x >= k.x && p.x >= j.x {
      assert (k.x - p.x) * down <= 0.0 && (j.x - p.x) * up <= 0.0;
    }
  }

  ghost predicate OutsideBox(p: Point, vs: seq<Point>) {
    || (forall i :: 0 <= i < |vs| ==> p.x < vs[i].x)
    || (forall i :: 0 <= i < |vs| ==> p.x >= vs[i].x)
    || (forall i :: 0 <= i < |vs| ==> p.y < vs[i].y)
    || (forall i :: 0 <= i < |vs| ==> p.y >= vs[i].y)
  }

  /** No point outside the bounding box is ever reported inside. */
  lemma OutsideBoxIsOutside(p: Point, vs: seq<Point>)
    requires OutsideBox(p, vs)
    ensures !Inside(p, vs)
  {
    if |vs| >= 3 {
      var path := Closed(vs);
      if forall i :: 0 <= i < |vs| ==> p.x < vs[i].x {
        forall i, j | 0 <= i < |path| && 0 <= j < |path| && path[i].y > p.y >= path[j].y
          ensures EdgeHit(p, path[i], path[j])
        {
          SideOfEdge(p, path[i], path[j]);
        }
        AllStraddlesHit(p, path);
      } else {
        forall i, j | 0 <= i < |path| && 0 <= j < |path|
          ensures !EdgeHit(p, path[i], path[j])
        {
          if path[i].y > p.y >= path[j].y {
            SideOfEdge(p, path[i], path[j]);
          } else if path[j].y > p.y >= path[i].y {
            SideOfEdge(p, path[j], path[i]);
          }
        }
        NoHit(p, path);
      }
    }
  }

  /** Change of units: an independent positive scale and an offset per axis. */
  function Rescale(p: Point, sx: real, tx: real, sy: real, ty: real): Point {
    Point(sx * p.x + tx, sy * p.y + ty)
  }

  function RescaleAll(vs: seq<Point>, sx: real, tx: real, sy: real, ty: real): seq<Point> {
    seq(|vs|, i requires 0 <= i < |vs| => Rescale(vs[i], sx, tx, sy, ty))
  }

  lemma ShiftedOrder(s: real, t: real, a: real, b: real)
    requires s > 0.0
    ensures s * a + t < s * b + t <==> a < b
  {
    ScaledOrder(s, a, b);
  }

  lemma HitRescaled(p: Point, k: Point, j: Point, sx: real, tx: real, sy: real, ty: real)
    requires sx > 0.0 && sy > 0.0
    ensures EdgeHit(Rescale(p, sx, tx, sy, ty), Rescale(k, sx, tx, sy, ty), Rescale(j, sx, tx, sy, ty))
        == EdgeHit(p, k, j)
  {
    var p', k', j' := Rescale(p, sx, tx, sy, ty), Rescale(k, sx, tx, sy, ty), Rescale(j, sx, tx, sy, ty);
    CrossRescaled(j, k, p, sx, tx, sy, ty);
    CrossRescaled(k, j, p, sx, tx, sy, ty);
    hide EdgeHit, Cross;
    ShiftedOrder(sy, ty, p.y, k.y);
    ShiftedOrder(sy, ty, p.y, j.y);
    assert (k'.y > p'.y) == (k.y > p.y) && (j'.y > p'.y) == (j.y > p.y);
    if k.y > p.y >= j.y {
      HitIsSide(p, k, j);
      HitIsSide(p', k', j');
    } else if j.y > p.y >= k.y {
      HitIsSide(p, j, k);
      HitIsSide(p', j', k');
    } else {
      HitNeedsStraddle(p, k, j);
      HitNeedsStraddle(p', k', j');
    }
  }

  lemma CrossRescaled(o: Point, a: Point, b: Point, sx: real, tx: real, sy: real, ty: real)
    requires sx > 0.0 && sy > 0.0
    ensures Cross(Rescale(o, sx, tx, sy, ty), Rescale(a, sx, tx, sy, ty), Rescale(b, sx, tx, sy, ty)) > 0.0
       <==> Cross(o, a, b) > 0.0
  {
    var o', a', b' := Rescale(o, sx, tx, sy, ty), Rescale(a, sx, tx, sy, ty), Rescale(b, sx, tx, sy, ty);
    var ax, ay, bx, by_ := a.x - o.x, a.y - o.y, b.x - o.x, b.y - o.y;
    assert a'.x - o'.x == sx * ax && a'.y - o'.y == sy * ay;
    assert b'.x - o'.x == sx * bx && b'.y - o'.y == sy * by_;
    var m := ax * by_ - ay * bx;
    assert (sx * ax) * (sy * by_) - (sy * ay) * (sx * bx) == (sx * sy) * m;
    assert sx * sy > 0.0;
    assert (sx * sy) * m > 0.0 <==> m > 0.0;
  }

  lemma {:induction false} PathRescaled(p: Point, path: seq<Point>, sx: real, tx: real, sy: real, ty: real)
    requires sx > 0.0 && sy > 0.0
    ensures PathParity(Rescale(p, sx, tx, sy, ty), RescaleAll(path, sx, tx, sy, ty)) == PathParity(p, path)
  {
    hide EdgeHit;
    if |path| >= 2 {
      var n := |path|;
      PathRescaled(p, path[..n - 1], sx, tx, sy, ty);
      assert RescaleAll(path, sx, tx, sy, ty)[..n - 1] == RescaleAll(path[..n - 1], sx, tx, sy, ty);
      HitRescaled(p, path[n - 1], path[n - 2], sx, tx, sy, ty);
    }
  }

  /** Plan units (gate counting, zones) and normalized units (zone flow) agree. */
  lemma UnitInvariant(p: Point, vs: seq<Point>, sx: real, tx: real, sy: real, ty: real)
    requires sx > 0.0 && sy > 0.0
    ensures Inside(Rescale(p, sx, tx, sy, ty), RescaleAll(vs, sx, tx, sy, ty)) == Inside(p, vs)
  {
    if |vs| >= 3 {
      PathRescaled(p, Closed(vs), sx, tx, sy, ty);
      assert RescaleAll(Closed(vs), sx, tx, sy, ty) == Closed(RescaleAll(vs, sx, tx, sy, ty));
    }
  }

  // ---- triangles: the exact answer ------------------------------------------------------------

  /** The barycentric weights of p balance its heights over the three corners. */
  lemma Barycentric(a: Point, b: Point, c: Point, p: Point)
    ensures Cross(a, b, p) + Cross(b, c, p) + Cross(c, a, p) == Cross(a, b, c)
    ensures Cross(a, b, p) * (c.y - p.y) + Cross(b, c, p) * (a.y - p.y) + Cross(c, a, p) * (b.y - p.y) == 0.0
  {
    var ax, ay, bx, by_, cx, cy := a.x - p.x, a.y - p.y, b.x - p.x, b.y - p.y, c.x - p.x, c.y - p.y;
    CrossFrom(a, b, p);
    CrossFrom(b, c, p);
    CrossFrom(c, a, p);
    assert Cross(a, b, c) == (bx - ax) * (cy - ay) - (by_ - ay) * (cx - ax);
    assert (ax * by_ - ay * bx) * cy + (bx * cy - by_ * cx) * ay + (cx * ay - cy * ax) * by_ == 0.0;
  }

  lemma CrossFrom(u: Point, v: Point, p: Point)
    ensures Cross(u, v, p) == (u.x - p.x) * (v.y - p.y) - (u.y - p.y) * (v.x - p.x)
  {
    var ux, uy, vx, vy := u.x - p.x, u.y - p.y, v.x - p.x, v.y - p.y;
    assert v.x - u.x == vx - ux && v.y - u.y == vy - uy;
    assert (vx - ux) * (-uy) - (vy - uy) * (-ux) == ux * vy - uy * vx;
  }

  /** Parity over a triangle is the parity of its three edges. */
  lemma TriangleEdges(p: Point, a: Point, b: Point, c: Point)
    ensures Inside(p, [a, b, c]) == ((EdgeHit(p, b, a) != EdgeHit(p, c, b)) != EdgeHit(p, a, c))
  {
    hide EdgeHit;
    var path := Closed([a, b, c]);
    assert path == [a, b, c, a];
    PathSplits(p, path, 2);
    assert path[..3] == [a, b, c] && path[2..] == [c, a];
    PathSplits(p, [a, b, c], 1);
    assert [a, b, c][..2] == [a, b] && [a, b, c][1..] == [b, c];
    Edge(p, [a, b]);
    Edge(p, [b, c]);
    Edge(p, [c, a]);
  }

  /** Cross(p, ..) of the downward edge seen from its upper end. */
  lemma CrossSwap(u: Point, v: Point, p: Point)
    ensures Cross(u, v, p) == -Cross(v, u, p)
  {
    CrossFrom(u, v, p);
    CrossFrom(v, u, p);
  }

  /** One corner on one side of p's level, two on the other. */
  lemma LoneCorner(p: Point, a: Point, b: Point, c: Point)
    requires Cross(a, b, c) > 0.0
    requires (c.y > p.y) != (a.y > p.y) && (a.y > p.y) == (b.y > p.y)
    ensures Cross(a, b, p) > 0.0 && Cross(b, c, p) > 0.0 && Cross(c, a, p) > 0.0 ==> Inside(p, [a, b, c])
    ensures Cross(a, b, p) < 0.0 || Cross(b, c, p) < 0.0 || Cross(c, a, p) < 0.0 ==> !Inside(p, [a, b, c])
  {
    hide EdgeHit, Inside, Cross;
    var w1, w2, w3 := Cross(a, b, p), Cross(b, c, p), Cross(c, a, p);
    Barycentric(a, b, c, p);
    TriangleEdges(p, a, b, c);
    HitNeedsStraddle(p, b, a);
    HitSymmetric(p, c, b);
    HitSymmetric(p, a, c);
    CrossSwap(b, c, p);
    CrossSwap(c, a, p);
    if c.y > p.y {
      HitIsSide(p, c, b);
      HitIsSide(p, c, a);
      Balance(w1, w2, w3, c.y - p.y, p.y - a.y, p.y - b.y);
    } else {
      HitIsSide(p, b, c);
      HitIsSide(p, a, c);
      BalanceDown(w1, w2, w3, p.y - c.y, a.y - p.y, b.y - p.y);
    }
  }

  lemma Balance(w1: real, w2: real, w3: real, up: real, d2: real, d3: real)
    requires up > 0.0 && d2 >= 0.0 && d3 >= 0.0
    requires w1 * up == w2 * d2 + w3 * d3 && w1 + w2 + w3 > 0.0
    ensures !(w2 <= 0.0 && w3 < 0.0)
    ensures w2 >= 0.0 && w3 >= 0.0 ==> w1 >= 0.0
  {
    SignOfProduct(w1, up);
    SignOfProduct(w2, d2);
    SignOfProduct(w3, d3);
  }

  lemma BalanceDown(w1: real, w2: real, w3: real, down: real, u2: real, u3: real)
    requires down >= 0.0 && u2 > 0.0 && u3 > 0.0
    requires w1 * down == w2 * u2 + w3 * u3 && w1 + w2 + w3 > 0.0
    ensures !(w2 < 0.0 && w3 <= 0.0)
    ensures w2 >= 0.0 && w3 > 0.0 ==> w1 > 0.0
  {
    SignOfProduct(w1, down);
    SignOfProduct(w2, u2);
    SignOfProduct(w3, u3);
  }

  lemma SignOfProduct(w: real, d: real)
    ensures w > 0.0 && d > 0.0 ==> w * d > 0.0
    ensures w < 0.0 && d > 0.0 ==> w * d < 0.0
    ensures w > 0.0 && d < 0.0 ==> w * d < 0.0
    ensures w == 0.0 || d == 0.0 ==> w * d == 0.0
  {
  }

  /** Main result: on a counter-clockwise triangle the strict interior is in, the strict exterior out. */
  lemma TriangleExact(p: Point, a: Point, b: Point, c: Point)
    requires Cross(a, b, c) > 0.0
    ensures Cross(a, b, p) > 0.0 && Cross(b, c, p) > 0.0 && Cross(c, a, p) > 0.0 ==> Inside(p, [a, b, c])
    ensures Cross(a, b, p) < 0.0 || Cross(b, c, p) < 0.0 || Cross(c, a, p) < 0.0 ==> !Inside(p, [a, b, c])
  {
    hide EdgeHit, Inside, Cross;
    CrossRotates(a, b, c);
    if (a.y > p.y) == (b.y > p.y) == (c.y > p.y) {
      FlatLevel(p, a, b, c);
    } else if (a.y > p.y) == (b.y > p.y) {
      LoneCorner(p, a, b, c);
    } else if (b.y > p.y) == (c.y > p.y) {
      LoneCorner(p, b, c, a);
      RotationInvariant(p, [a, b, c], 1);
      assert [a, b, c][1..] + [a, b, c][..1] == [b, c, a];
    } else {
      LoneCorner(p, c, a, b);
      RotationInvariant(p, [a, b, c], 2);
      assert [a, b, c][2..] + [a, b, c][..2] == [c, a, b];
    }
  }

  lemma CrossRotates(a: Point, b: Point, c: Point)
    ensures Cross(a, b, c) == Cross(b, c, a) == Cross(c, a, b)
  {
    CrossFrom(b, c, a);
    CrossFrom(c, a, b);
    var bx, by_, cx, cy := b.x - a.x, b.y - a.y, c.x - a.x, c.y - a.y;
    assert c.x - b.x == cx - bx && c.y - b.y == cy - by_;
    assert (cx - bx) * (-by_) - (cy - by_) * (-bx) == bx * cy - by_ * cx;
  }

  lemma FlatLevel(p: Point, a: Point, b: Point, c: Point)
    requires Cross(a, b, c) > 0.0
    requires (a.y > p.y) == (b.y > p.y) == (c.y > p.y)
    ensures !Inside(p, [a, b, c])
    ensures !(Cross(a, b, p) > 0.0 && Cross(b, c, p) > 0.0 && Cross(c, a, p) > 0.0)
  {
    hide EdgeHit, Inside;
    TriangleEdges(p, a, b, c);
    HitNeedsStraddle(p, b, a);
    HitNeedsStraddle(p, c, b);
    HitNeedsStraddle(p, a, c);
    Barycentric(a, b, c, p);
    var w1, w2, w3 := Cross(a, b, p), Cross(b, c, p), Cross(c, a, p);
    if w1 > 0.0 && w2 > 0.0 && w3 > 0.0 {
      SameSignSum(w1, w2, w3, c.y - p.y, a.y - p.y, b.y - p.y);
      FlatIsDegenerate(a, b, c);
    }
  }

  lemma FlatIsDegenerate(a: Point, b: Point, c: Point)
    requires a.y == b.y == c.y
    ensures Cross(a, b, c) == 0.0
  {
  }

  lemma SameSignSum(w1: real, w2: real, w3: real, x: real, y: real, z: real)
    requires w1 > 0.0 && w2 > 0.0 && w3 > 0.0
    requires (x > 0.0) == (y > 0.0) == (z > 0.0)
    requires w1 * x + w2 * y + w3 * z == 0.0
    ensures x == 0.0 && y == 0.0 && z == 0.0
  {
    SignOfProduct(w1, x);
    SignOfProduct(w2, y);
    SignOfProduct(w3, z);
  }
}
