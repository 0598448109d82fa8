/**
 Douglas-Peucker simplification of a walked path (`_rdp`).

 `Kept` is the textbook recursion on index intervals. `Rdp` is the code: a keep array and
 an explicit stack, proved to return exactly the points at the `Kept` indices. The lemmas
 then say what a caller gets: the tolerance, nesting in eps, and idempotence.
 */
module Rdp {
  import opened Geometry
  import opened Sequences

  /** 1e-12 squared: below it the chord counts as a single point. */
  const MIN_CHORD_SQ: real := 0.000000000000000000000001

  predicate Collapsed(a: Point, b: Point) {
    Len2(a, b) < MIN_CHORD_SQ
  }

  /** The squared distance of p from chord a-b, times `Scale(a, b)`. */
  function Deviation(a: Point, b: Point, p: Point): (d: real)
    ensures d >= 0.0
  {
    if Collapsed(a, b) then Len2(a, p) else Cross(a, b, p) * Cross(a, b, p)
  }

  function Scale(a: Point, b: Point): (r: real)
    ensures r > 0.0
  {
    if Collapsed(a, b) then 1.0 else Len2(a, b)
  }

  /** The comparison `best_d > eps` for a deviation already known to be positive. */
  predicate Exceeds(a: Point, b: Point, p: Point, eps: real) {
    eps < 0.0 || Deviation(a, b, p) > eps * eps * Scale(a, b)
  }

  /** p is no further than eps from chord a-b; on the chord itself for a negative eps. */
  predicate Within(a: Point, b: Point, p: Point, eps: real) {
    if eps < 0.0 then Deviation(a, b, p) == 0.0
    else Deviation(a, b, p) <= eps * eps * Scale(a, b)
  }

  /** k is the first interior index at the greatest positive deviation from chord lo-hi. */
  ghost predicate IsFarthest(pts: seq<Point>, lo: nat, hi: nat, end: nat, k: int)
    requires lo < hi < |pts| && end <= hi
  {
    if k < 0 then
      k == -1 && forall i :: lo < i < end ==> Deviation(pts[lo], pts[hi], pts[i]) == 0.0
    else
      && lo < k < end
      && Deviation(pts[lo], pts[hi], pts[k]) > 0.0
      && (forall i :: lo < i < k ==> Deviation(pts[lo], pts[hi], pts[i]) < Deviation(pts[lo], pts[hi], pts[k]))
      && (forall i :: k < i < end ==> Deviation(pts[lo], pts[hi], pts[i]) <= Deviation(pts[lo], pts[hi], pts[k]))
  }

  function FarthestBefore(pts: seq<Point>, lo: nat, hi: nat, end: nat): (k: int)
    requires lo < end <= hi < |pts|
    ensures IsFarthest(pts, lo, hi, end, k)
  {
    if end == lo + 1 then -1
    else
      var k := FarthestBefore(pts, lo, hi, end - 1);
      var d := Deviation(pts[lo], pts[hi], pts[end - 1]);
      if d > (if k < 0 then 0.0 else Deviation(pts[lo], pts[hi], pts[k])) then end - 1 else k
  }

  function Farthest(pts: seq<Point>, lo: nat, hi: nat): (k: int)
    requires lo < hi < |pts|
    ensures IsFarthest(pts, lo, hi, hi, k)
  {
    FarthestBefore(pts, lo, hi, hi)
  }

  /** Where the interval is split, or -1 when nothing in it strays further than eps. */
  function SplitAt(pts: seq<Point>, eps: real, lo: nat, hi: nat): (k: int)
    requires lo < hi < |pts|
    ensures k == -1 || lo < k < hi
  {
    var k := Farthest(pts, lo, hi);
    if k > 0 && Exceeds(pts[lo], pts[hi], pts[k], eps) then k else -1
  }

  /** The recursive Douglas-Peucker: kept indices from lo to hi, both included. */
  function Kept(pts: seq<Point>, eps: real, lo: nat, hi: nat): (ix: seq<nat>)
    requires lo < hi < |pts|
    ensures |ix| >= 2 && ix[0] == lo && ix[|ix| - 1] == hi
    ensures InRange(ix, lo, hi)
    decreases hi - lo
  {
    var k := SplitAt(pts, eps, lo, hi);
    if k < 0 then [lo, hi]
    else
      var left := Kept(pts, eps, lo, k);
      left[..|left| - 1] + Kept(pts, eps, k, hi)
  }

  ghost predicate InRange(ix: seq<nat>, lo: nat, hi: nat) {
    forall i :: 0 <= i < |ix| ==> lo <= ix[i] <= hi
  }

  lemma KeptParts(pts: seq<Point>, eps: real, lo: nat, hi: nat)
    requires lo < hi < |pts| && SplitAt(pts, eps, lo, hi) >= 0
    ensures var k := SplitAt(pts, eps, lo, hi);
      var left := Kept(pts, eps, lo, k);
      lo < k < hi && Kept(pts, eps, lo, hi) == left[..|left| - 1] + Kept(pts, eps, k, hi)
  {
  }

  lemma {:induction false} KeptIncreasing(pts: seq<Point>, eps: real, lo: nat, hi: nat)
    requires lo < hi < |pts|
    ensures Increasing(Kept(pts, eps, lo, hi))
    decreases hi - lo
  {
    var k := SplitAt(pts, eps, lo, hi);
    if k >= 0 {
      KeptIncreasing(pts, eps, lo, k);
      KeptIncreasing(pts, eps, k, hi);
    }
  }

  function Select(pts: seq<Point>, ix: seq<nat>): (r: seq<Point>)
    requires forall i :: 0 <= i < |ix| ==> ix[i] < |pts|
  {
    seq(|ix|, i requires 0 <= i < |ix| => pts[ix[i]])
  }

  function Simplify(pts: seq<Point>, eps: real): seq<Point> {
    if |pts| < 3 then pts else Select(pts, Kept(pts, eps, 0, |pts| - 1))
  }

  // ---- what the simplification promises --------------------------------------------------

  /** The squared distance of p from the point at t of the line a-b, split along the line and across it. */
  lemma DistanceParts(a: Point, b: Point, p: Point, t: real)
    ensures var u := (p.x - a.x) * (b.x - a.x) + (p.y - a.y) * (b.y - a.y) - t * Len2(a, b);
      Len2(a, b) * Len2(At(a, b, t), p) == Cross(a, b, p) * Cross(a, b, p) + u * u
  {
    hide *;
    var rx, ry, qx, qy := b.x - a.x, b.y - a.y, p.x - a.x, p.y - a.y;
    var vx, vy := qx - t * rx, qy - t * ry;
    FromLine(a, b, p, t);
    Spread(a, b, p);
    Lagrange(rx, ry, vx, vy);
    Sheared(rx, ry, qx, qy, t);
  }

  lemma FromLine(a: Point, b: Point, p: Point, t: real)
    ensures var vx, vy := p.x - a.x - t * (b.x - a.x), p.y - a.y - t * (b.y - a.y);
      Len2(At(a, b, t), p) == vx * vx + vy * vy
  {
  }

  lemma Spread(a: Point, b: Point, p: Point)
    ensures var rx, ry, qx, qy := b.x - a.x, b.y - a.y, p.x - a.x, p.y - a.y;
      Len2(a, b) == rx * rx + ry * ry && Cross(a, b, p) == rx * qy - ry * qx
  {
  }

  lemma Lagrange(rx: real, ry: real, vx: real, vy: real)
    ensures var c, d := rx * vy - ry * vx, vx * rx + vy * ry;
      (rx * rx + ry * ry) * (vx * vx + vy * vy) == c * c + d * d
  {
  }

  /** Taking t times r off q leaves its area with r as it is and takes t times r's length off its share along r. */
  lemma Sheared(rx: real, ry: real, qx: real, qy: real, t: real)
    ensures rx * (qy - t * ry) - ry * (qx - t * rx) == rx * qy - ry * qx
    ensures (qx - t * rx) * rx + (qy - t * ry) * ry == qx * rx + qy * ry - t * (rx * rx + ry * ry)
  {
  }

  lemma NearFoot(a: Point, b: Point, p: Point, bound: real) returns (t: real)
    requires Len2(a, b) > 0.0 && Cross(a, b, p) * Cross(a, b, p) <= bound * Len2(a, b)
    ensures Len2(At(a, b, t), p) <= bound
  {
    hide *;
    var along := (p.x - a.x) * (b.x - a.x) + (p.y - a.y) * (b.y - a.y);
    t := along / Len2(a, b);
    assert t * Len2(a, b) == along;
    DistanceParts(a, b, p, t);
    ScaleBound(Len2(a, b), Len2(At(a, b, t), p), bound);
  }

  lemma NoNearerThanLine(a: Point, b: Point, p: Point, t: real, bound: real)
    requires Len2(a, b) > 0.0 && Len2(At(a, b, t), p) <= bound
    ensures Cross(a, b, p) * Cross(a, b, p) <= bound * Len2(a, b)
  {
    hide *;
    DistanceParts(a, b, p, t);
    ScaleBound(Len2(a, b), Len2(At(a, b, t), p), bound);
  }

  /** The line a-b comes within the bound of p. */
  ghost predicate LineNear(a: Point, b: Point, p: Point, bound: real) {
    exists t :: Len2(At(a, b, t), p) <= bound
  }

  lemma NearestOnLine(a: Point, b: Point, p: Point, bound: real)
    requires Len2(a, b) > 0.0
    ensures Cross(a, b, p) * Cross(a, b, p) <= bound * Len2(a, b) <==> LineNear(a, b, p, bound)
  {
    hide Len2, At, Cross;
    if Cross(a, b, p) * Cross(a, b, p) <= bound * Len2(a, b) {
      var t := NearFoot(a, b, p, bound);
    }
    if t :| Len2(At(a, b, t), p) <= bound {
      NoNearerThanLine(a, b, p, t, bound);
    }
  }

  lemma ScaleBound(m: real, d: real, bound: real)
    requires m > 0.0
    ensures d <= bound <==> m * d <= bound * m
  {
    if d <= bound {
      assert (bound - d) * m >= 0.0;
    } else {
      assert (d - bound) * m > 0.0;
    }
  }

  /** What the tolerance means: the line through a and b comes within eps of p; the point a does, when b is on it. */
  lemma WithinIsNear(a: Point, b: Point, p: Point, eps: real)
    ensures var reach := if eps < 0.0 then 0.0 else eps * eps;
      Within(a, b, p, eps) <==>
        if Len2(a, b) < 0.000000000000000000000001 then Len2(a, p) <= reach
        else LineNear(a, b, p, reach)
  {
    hide Len2, Cross, LineNear;
    if Len2(a, b) >= MIN_CHORD_SQ {
      NearestOnLine(a, b, p, if eps < 0.0 then 0.0 else eps * eps);
    }
  }

  /** An interval is split exactly when some point inside it strays, and then at the first that strays most. */
  lemma SplitExactly(pts: seq<Point>, eps: real, lo: nat, hi: nat)
    requires lo < hi < |pts|
    ensures SplitAt(pts, eps, lo, hi) == -1 <==> forall i :: lo < i < hi ==> Within(pts[lo], pts[hi], pts[i], eps)
    ensures SplitAt(pts, eps, lo, hi) >= 0 ==> IsFarthest(pts, lo, hi, hi, SplitAt(pts, eps, lo, hi))
  {
    hide Deviation, Scale;
  }

  /** Every dropped point lies within eps of the chord between its two kept neighbours. */
  lemma {:induction false} KeptTolerance(pts: seq<Point>, eps: real, lo: nat, hi: nat, j: nat, p: nat)
    requires lo < hi < |pts|
    requires j + 1 < |Kept(pts, eps, lo, hi)|
    requires Kept(pts, eps, lo, hi)[j] < p < Kept(pts, eps, lo, hi)[j + 1]
    ensures Within(pts[Kept(pts, eps, lo, hi)[j]], pts[Kept(pts, eps, lo, hi)[j + 1]], pts[p], eps)
    decreases hi - lo
  {
    var k := SplitAt(pts, eps, lo, hi);
    if k >= 0 {
      var left := Kept(pts, eps, lo, k);
      var right := Kept(pts, eps, k, hi);
      KeptParts(pts, eps, lo, hi);
      hide Kept, SplitAt, Within, InRange;
      if j + 1 < |left| {
        KeptTolerance(pts, eps, lo, k, j, p);
      } else {
        KeptTolerance(pts, eps, k, hi, j - (|left| - 1), p);
      }
    }
  }

  /** A larger tolerance keeps a subset of the points a smaller one keeps. */
  lemma {:induction false} KeptNested(pts: seq<Point>, eps: real, eps': real, lo: nat, hi: nat)
    requires lo < hi < |pts|
    requires eps <= eps'
    ensures forall x :: x in Kept(pts, eps', lo, hi) ==> x in Kept(pts, eps, lo, hi)
    decreases hi - lo
  {
    hide Deviation, Scale;
    var k := SplitAt(pts, eps', lo, hi);
    if k >= 0 {
      ExceedsMonotone(pts[lo], pts[hi], pts[k], eps, eps');
      KeptNested(pts, eps, eps', lo, k);
      KeptNested(pts, eps, eps', k, hi);
      ConcatMembers(pts, eps, lo, hi);
      ConcatMembers(pts, eps', lo, hi);
    } else {
      var ix := Kept(pts, eps, lo, hi);
      assert ix[0] in ix && ix[|ix| - 1] in ix;
    }
  }

  lemma ExceedsMonotone(a: Point, b: Point, p: Point, eps: real, eps': real)
    requires eps <= eps' && Exceeds(a, b, p, eps')
    ensures Exceeds(a, b, p, eps)
  {
  }

  /** Membership in a split interval is membership in one of the halves. */
  lemma {:induction false} ConcatMembers(pts: seq<Point>, eps: real, lo: nat, hi: nat)
    requires lo < hi < |pts|
    requires SplitAt(pts, eps, lo, hi) >= 0
    ensures var k := SplitAt(pts, eps, lo, hi);
            forall x :: x in Kept(pts, eps, lo, hi) <==> x in Kept(pts, eps, lo, k) || x in Kept(pts, eps, k, hi)
  {
    var k := SplitAt(pts, eps, lo, hi);
    var left, right := Kept(pts, eps, lo, k), Kept(pts, eps, k, hi);
    assert left == left[..|left| - 1] + [k];
    assert right[0] == k;
  }

  /** a, a + 1, .., b. */
  function Run(a: nat, b: nat): (r: seq<nat>)
    requires a <= b
  {
    seq(b + 1 - a, i requires 0 <= i < b + 1 - a => a + i)
  }

  /** Two lists joined at a shared element fall apart there. */
  lemma JoinedAt(whole: seq<nat>, left: seq<nat>, right: seq<nat>)
    requires |left| >= 2 && |right| >= 2 && left[|left| - 1] == right[0]
    requires whole == left[..|left| - 1] + right
    ensures var m := |left| - 1;
      0 < m < |whole| - 1 && whole[m] == right[0] && whole[..m + 1] == left && whole[m..] == right
  {
    assert left == left[..|left| - 1] + [right[0]];
  }

  lemma RunConcat(a: nat, m: nat, b: nat)
    requires a < m < b
    ensures Run(a, m)[..m - a] + Run(m, b) == Run(a, b)
  {
  }

  /** From position a on, r holds the points of pts at the strictly increasing indices ix. */
  ghost predicate Picked(pts: seq<Point>, r: seq<Point>, a: nat, ix: seq<nat>) {
    && a + |ix| <= |r| && Increasing(ix)
    && forall i :: 0 <= i < |ix| ==> ix[i] < |pts| && r[a + i] == pts[ix[i]]
  }

  /** On points picked from pts at the kept indices, nothing more is dropped. */
  lemma {:induction false} KeptOfKept(pts: seq<Point>, r: seq<Point>, eps: real, lo: nat, hi: nat, a: nat)
    requires lo < hi < |pts| && Picked(pts, r, a, Kept(pts, eps, lo, hi))
    ensures var b := a + |Kept(pts, eps, lo, hi)| - 1; Kept(r, eps, a, b) == Run(a, b)
    decreases hi - lo
  {
    hide *;
    if SplitAt(pts, eps, lo, hi) < 0 {
      KeptPair(pts, eps, lo, hi);
      PickedBound(pts, r, a, Kept(pts, eps, lo, hi));
      KeptEdge(r, eps, a);
    } else {
      var m := KeptHalves(pts, r, eps, lo, hi, a);
      var ix := Kept(pts, eps, lo, hi);
      KeptOfKept(pts, r, eps, lo, ix[m], a);
      KeptOfKept(pts, r, eps, ix[m], hi, a + m);
      KeptJoin(r, eps, a, a + m, a + |ix| - 1);
    }
  }

  lemma KeptPair(pts: seq<Point>, eps: real, lo: nat, hi: nat)
    requires lo < hi < |pts| && SplitAt(pts, eps, lo, hi) < 0
    ensures |Kept(pts, eps, lo, hi)| == 2
  {
  }

  lemma PickedBound(pts: seq<Point>, r: seq<Point>, a: nat, ix: seq<nat>)
    requires Picked(pts, r, a, ix)
    ensures a + |ix| <= |r|
  {
  }

  /** Where the kept list of a split interval falls apart: both parts are picked, and r is split there too. */
  lemma KeptHalves(pts: seq<Point>, r: seq<Point>, eps: real, lo: nat, hi: nat, a: nat) returns (m: nat)
    requires lo < hi < |pts| && Picked(pts, r, a, Kept(pts, eps, lo, hi)) && SplitAt(pts, eps, lo, hi) >= 0
    ensures var ix := Kept(pts, eps, lo, hi);
      && 0 < m < |ix| - 1 && a + |ix| <= |r| && lo < ix[m] < hi
      && |Kept(pts, eps, lo, ix[m])| == m + 1 && |Kept(pts, eps, ix[m], hi)| == |ix| - m
      && Picked(pts, r, a, Kept(pts, eps, lo, ix[m])) && Picked(pts, r, a + m, Kept(pts, eps, ix[m], hi))
      && SplitAt(r, eps, a, a + |ix| - 1) == a + m
  {
    hide *;
    KeptParts(pts, eps, lo, hi);
    var ix, k := Kept(pts, eps, lo, hi), SplitAt(pts, eps, lo, hi);
    var left, right := Kept(pts, eps, lo, k), Kept(pts, eps, k, hi);
    m := |left| - 1;
    JoinedAt(ix, left, right);
    PickedBound(pts, r, a, ix);
    PickedParts(pts, r, a, ix, m);
    SameSplit(pts, r, ix, eps, a, m);
  }

  lemma PickedParts(pts: seq<Point>, r: seq<Point>, a: nat, ix: seq<nat>, m: nat)
    requires Picked(pts, r, a, ix) && m < |ix|
    ensures Picked(pts, r, a, ix[..m + 1]) && Picked(pts, r, a + m, ix[m..])
  {
    forall i | 0 <= i < |ix[m..]| ensures ix[m..][i] < |pts| && r[a + m + i] == pts[ix[m..][i]] {
      assert ix[m..][i] == ix[m + i];
    }
  }

  lemma KeptEdge(r: seq<Point>, eps: real, a: nat)
    requires a + 1 < |r|
    ensures Kept(r, eps, a, a + 1) == Run(a, a + 1)
  {
  }

  lemma KeptJoin(r: seq<Point>, eps: real, a: nat, m: nat, b: nat)
    requires a < m < b < |r| && SplitAt(r, eps, a, b) == m
    requires Kept(r, eps, a, m) == Run(a, m) && Kept(r, eps, m, b) == Run(m, b)
    ensures Kept(r, eps, a, b) == Run(a, b)
  {
    RunConcat(a, m, b);
  }

  lemma SameSplit(pts: seq<Point>, r: seq<Point>, ix: seq<nat>, eps: real, a: nat, m: nat)
    requires Picked(pts, r, a, ix) && 0 < m < |ix| - 1
    requires ix[m] == SplitAt(pts, eps, ix[0], ix[|ix| - 1])
    ensures SplitAt(r, eps, a, a + |ix| - 1) == a + m
  {
    var b := a + |ix| - 1;
    forall i | a < i < b ensures r[i] == pts[ix[i - a]] && ix[0] < ix[i - a] < ix[|ix| - 1] {
      assert r[a + (i - a)] == pts[ix[i - a]];
    }
  }

  /** Main result: endpoints, order, tolerance and idempotence of the simplified path. */
  lemma SimplifyCorrect(pts: seq<Point>, eps: real) returns (ix: seq<nat>)
    requires |pts| >= 3
    ensures |ix| >= 2 && ix[0] == 0 && ix[|ix| - 1] == |pts| - 1
    ensures forall i, j :: 0 <= i < j < |ix| ==> ix[i] < ix[j] < |pts|
    ensures Simplify(pts, eps) == Select(pts, ix)
    ensures forall j, p :: 0 <= j < |ix| - 1 && ix[j] < p < ix[j + 1] ==>
              Within(pts[ix[j]], pts[ix[j + 1]], pts[p], eps)
  {
    hide Kept, SplitAt, Deviation, Scale;
    KeptIncreasing(pts, eps, 0, |pts| - 1);
    ix := Kept(pts, eps, 0, |pts| - 1);
    forall j, p | 0 <= j < |ix| - 1 && ix[j] < p < ix[j + 1]
      ensures Within(pts[ix[j]], pts[ix[j + 1]], pts[p], eps)
    {
      KeptTolerance(pts, eps, 0, |pts| - 1, j, p);
    }
  }

  lemma SelectAll(r: seq<Point>)
    requires |r| >= 1
    ensures Select(r, Run(0, |r| - 1)) == r
  {
  }

  lemma {:induction false} SimplifyIdempotent(pts: seq<Point>, eps: real)
    ensures Simplify(Simplify(pts, eps), eps) == Simplify(pts, eps)
  {
    hide Kept, Select;
    if |pts| >= 3 {
      SelectedIsFixed(pts, eps);
    }
  }

  lemma SelectedIsFixed(pts: seq<Point>, eps: real)
    requires |pts| >= 3
    ensures var r := Select(pts, Kept(pts, eps, 0, |pts| - 1));
      |r| >= 2 && Select(r, Kept(r, eps, 0, |r| - 1)) == r
  {
    hide *;
    var r := SelectedKept(pts, eps);
    SelectAll(r);
  }

  lemma SelectedKept(pts: seq<Point>, eps: real) returns (r: seq<Point>)
    requires |pts| >= 3
    ensures r == Select(pts, Kept(pts, eps, 0, |pts| - 1))
    ensures |r| >= 2 && Kept(r, eps, 0, |r| - 1) == Run(0, |r| - 1)
  {
    hide *;
    KeptIncreasing(pts, eps, 0, |pts| - 1);
    r := Select(pts, Kept(pts, eps, 0, |pts| - 1));
    SelectPicks(pts, Kept(pts, eps, 0, |pts| - 1));
    KeptOfKept(pts, r, eps, 0, |pts| - 1, 0);
  }

  lemma SelectPicks(pts: seq<Point>, ix: seq<nat>)
    requires Increasing(ix) && forall i :: 0 <= i < |ix| ==> ix[i] < |pts|
    ensures |Select(pts, ix)| == |ix| && Picked(pts, Select(pts, ix), 0, ix)
  {
  }

  // ---- the code -----------------------------------------------------------------------------

  /** Interior indices an interval contributes. */
  ghost function Interior(pts: seq<Point>, eps: real, lo: nat, hi: nat): set<nat>
    requires lo < hi < |pts|
    decreases hi - lo
  {
    var k := SplitAt(pts, eps, lo, hi);
    if k < 0 then {} else Interior(pts, eps, lo, k) + {k} + Interior(pts, eps, k, hi)
  }

  lemma {:induction false} KeptIsInterior(pts: seq<Point>, eps: real, lo: nat, hi: nat, x: nat)
    requires lo < hi < |pts|
    ensures x in Kept(pts, eps, lo, hi) <==> x == lo || x == hi || x in Interior(pts, eps, lo, hi)
    decreases hi - lo
  {
    hide Farthest, Exceeds;
    var k := SplitAt(pts, eps, lo, hi);
    if k < 0 {
      assert Kept(pts, eps, lo, hi) == [lo, hi];
    } else {
      KeptIsInterior(pts, eps, lo, k, x);
      KeptIsInterior(pts, eps, k, hi, x);
      ConcatMembers(pts, eps, lo, hi);
    }
  }

  ghost predicate ValidStack(pts: seq<Point>, stack: seq<(nat, nat)>) {
    forall q :: 0 <= q < |stack| ==> stack[q].0 < stack[q].1 < |pts|
  }

  /** All that the stacked intervals will still mark. */
  ghost function Pending(pts: seq<Point>, eps: real, stack: seq<(nat, nat)>): set<nat>
    requires ValidStack(pts, stack)
  {
    if stack == [] then {}
    else
      var top := stack[|stack| - 1];
      Pending(pts, eps, stack[..|stack| - 1]) + Interior(pts, eps, top.0, top.1)
  }

  /** Termination measure: an interval of length n weighs 2n - 1, more than its two halves. */
  ghost function Weight(stack: seq<(nat, nat)>): nat
    requires forall q :: 0 <= q < |stack| ==> stack[q].0 < stack[q].1
  {
    if stack == [] then 0
    else
      var top := stack[|stack| - 1];
      Weight(stack[..|stack| - 1]) + 2 * (top.1 - top.0) - 1
  }

  /** The stack after its top interval has been examined. */
  ghost function Popped(pts: seq<Point>, eps: real, stack: seq<(nat, nat)>): seq<(nat, nat)>
    requires ValidStack(pts, stack) && stack != []
  {
    var (lo, hi) := stack[|stack| - 1];
    var k := SplitAt(pts, eps, lo, hi);
    stack[..|stack| - 1] + if k < 0 then [] else [(lo, k), (k, hi)]
  }

  /** One round marks the split point and leaves the rest of the work on the stack. */
  lemma PoppedStep(pts: seq<Point>, eps: real, stack: seq<(nat, nat)>)
    requires ValidStack(pts, stack) && stack != []
    ensures var (lo, hi) := stack[|stack| - 1];
            var k := SplitAt(pts, eps, lo, hi);
            var s := Popped(pts, eps, stack);
            && ValidStack(pts, s)
            && Weight(s) < Weight(stack)
            && Pending(pts, eps, stack) == Pending(pts, eps, s) + if k < 0 then {} else {k}
  {
    var (lo, hi) := stack[|stack| - 1];
    var rest := stack[..|stack| - 1];
    var k := SplitAt(pts, eps, lo, hi);
    if k < 0 {
      assert Popped(pts, eps, stack) == rest;
    } else {
      var s1 := rest + [(lo, k)];
      var s := s1 + [(k, hi)];
      assert Popped(pts, eps, stack) == s;
      assert s1[..|s1| - 1] == rest && s[..|s| - 1] == s1;
    }
  }

  /** The indices kept for the whole path. */
  ghost function Goal(pts: seq<Point>, eps: real): set<nat>
    requires |pts| >= 2
  {
    {0, |pts| - 1} + Interior(pts, eps, 0, |pts| - 1)
  }

  /** The points at marked positions below `end`, in order. */
  ghost function Marked(pts: seq<Point>, keep: seq<bool>, end: nat): seq<Point>
    requires end <= |pts| == |keep|
  {
    if end == 0 then []
    else Marked(pts, keep, end - 1) + if keep[end - 1] then [pts[end - 1]] else []
  }

  lemma LastIsLargest(ix: seq<nat>, top: nat)
    requires Increasing(ix) && top in ix
    requires forall i :: 0 <= i < |ix| ==> ix[i] <= top
    ensures ix[|ix| - 1] == top
    ensures Increasing(ix[..|ix| - 1])
    ensures forall i :: 0 <= i < |ix| - 1 ==> ix[i] < top
  {
  }

  /** If exactly the indices ix are marked, collecting the marked points selects ix. */
  lemma {:induction false} MarkedIsSelect(pts: seq<Point>, keep: seq<bool>, end: nat, ix: seq<nat>)
    requires end <= |pts| == |keep|
    requires Increasing(ix)
    requires forall i :: 0 <= i < |ix| ==> ix[i] < end
    requires forall x :: 0 <= x < end ==> (keep[x] <==> x in ix)
    ensures Marked(pts, keep, end) == Select(pts, ix)
  {
    if end > 0 {
      if keep[end - 1] {
        LastIsLargest(ix, end - 1);
        var front := ix[..|ix| - 1];
        forall x | 0 <= x < end - 1
          ensures keep[x] <==> x in front
        {
          assert ix == front + [end - 1];
          assert x in ix <==> x in front;
        }
        MarkedIsSelect(pts, keep, end - 1, front);
        SelectSnoc(pts, front, end - 1);
        assert ix == front + [end - 1];
      } else {
        forall i | 0 <= i < |ix| ensures ix[i] < end - 1 {
          assert ix[i] in ix;
        }
        MarkedIsSelect(pts, keep, end - 1, ix);
      }
    }
  }

  lemma SelectSnoc(pts: seq<Point>, front: seq<nat>, x: nat)
    requires forall i :: 0 <= i < |front| ==> front[i] < |pts|
    requires x < |pts|
    ensures Select(pts, front + [x]) == Select(pts, front) + [pts[x]]
  {
  }

  /** The inner scan of the code: first index of the greatest deviation, -1 if none is positive. */
  method ScanFarthest(pts: seq<Point>, lo: nat, hi: nat) returns (bestDev: real, best: int)
    requires lo < hi < |pts|
    ensures best == Farthest(pts, lo, hi)
    ensures bestDev == if best < 0 then 0.0 else Deviation(pts[lo], pts[hi], pts[best])
  {
    bestDev, best := 0.0, -1;
    for i := lo + 1 to hi
      invariant best == FarthestBefore(pts, lo, hi, i)
      invariant bestDev == if best < 0 then 0.0 else Deviation(pts[lo], pts[hi], pts[best])
    {
      var d := Deviation(pts[lo], pts[hi], pts[i]);
      if d > bestDev {
        bestDev, best := d, i;
      }
    }
  }

  /** The final comprehension: the points whose mark is set. */
  method CollectMarked(pts: seq<Point>, keep: array<bool>) returns (r: seq<Point>)
    requires |pts| == keep.Length
    ensures r == Marked(pts, keep[..], |pts|)
  {
    r := [];
    for i := 0 to |pts|
      invariant r == Marked(pts, keep[..], i)
    {
      if keep[i] {
        r := r + [pts[i]];
      }
    }
  }

  /** One stacked interval examined: the scan and the test against eps. */
  method FindSplit(pts: seq<Point>, eps: real, lo: nat, hi: nat) returns (k: int)
    requires lo < hi < |pts|
    ensures k == SplitAt(pts, eps, lo, hi)
  {
    hide Deviation, Scale;
    var bestDev, best := ScanFarthest(pts, lo, hi);
    if best > 0 && (eps < 0.0 || bestDev > eps * eps * Scale(pts[lo], pts[hi])) {
      k := best;
    } else {
      k := -1;
    }
  }

  lemma CollectedIsSimplified(pts: seq<Point>, eps: real, keep: seq<bool>)
    requires |pts| == |keep| >= 3
    requires forall x :: 0 <= x < |pts| ==> (keep[x] <==> x in Goal(pts, eps))
    ensures Marked(pts, keep, |pts|) == Simplify(pts, eps)
  {
    forall x: nat
      ensures x in Goal(pts, eps) <==> x in Kept(pts, eps, 0, |pts| - 1)
    {
      KeptIsInterior(pts, eps, 0, |pts| - 1, x);
    }
    KeptIncreasing(pts, eps, 0, |pts| - 1);
    MarkedIsSelect(pts, keep, |pts|, Kept(pts, eps, 0, |pts| - 1));
  }

  method Rdp(pts: seq<Point>, eps: real) returns (r: seq<Point>)
    ensures r == Simplify(pts, eps)
  {
    hide Deviation, Scale, Interior, Kept, SplitAt;
    if |pts| < 3 {
      return pts;
    }
    var n := |pts|;
    var keep := new bool[n](i => false);
    keep[0], keep[n - 1] := true, true;
    var stack: seq<(nat, nat)> := [(0, n - 1)];
    ghost var marked: set<nat> := {0, n - 1};
    assert stack[..0] == [];
    while stack != []
      invariant ValidStack(pts, stack)
      invariant forall x :: 0 <= x < n ==> (keep[x] <==> x in marked)
      invariant marked + Pending(pts, eps, stack) == Goal(pts, eps)
      decreases Weight(stack)
    {
      PoppedStep(pts, eps, stack);
      ghost var next := Popped(pts, eps, stack);
      var (i0, i1) := stack[|stack| - 1];
      stack := stack[..|stack| - 1];
      var k := FindSplit(pts, eps, i0, i1);
      if k > 0 {
        keep[k] := true;
        marked := marked + {k};
        stack := stack + [(i0, k), (k, i1)];
      }
      assert stack == next;
    }
    r := CollectMarked(pts, keep);
    CollectedIsSimplified(pts, eps, keep[..]);
  }
}
