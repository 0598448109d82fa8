/**
 The aggregator against the sightings of its batches: each list a batch carries, put down as it stands, leaves every
 presence as the stay that FootfallStays reads off the list, and every counter as those stays and steps add up to.
 */
module FootfallTraces {
  import opened Geometry
  import opened Options
  import opened Tally
  import opened PathSplit
  import opened FootfallModel
  import opened FootfallEvents
  import opened FootfallStays
  import P = Projection

  // ---- the sightings of a batch -----------------------------------------------------------------------

  function Badges(c: Moment, marks: seq<(Option<int>, Option<int>)>): seq<Sight> {
    if marks == [] then []
    else
      var m := marks[|marks| - 1];
      Badges(c, marks[..|marks| - 1]) + if m.0.Some? then [BadgeSeen((c.camera, m.0.value))] else []
  }

  function Visibles(c: Moment, pids: seq<int>): seq<Sight> {
    seq(|pids|, i requires 0 <= i < |pids| => Seen((c.camera, pids[i]), c.store, c.hour, c.now))
  }

  function Links(c: Moment, es: seq<(int, Option<int>)>): seq<Sight> {
    if es == [] then []
    else
      var e := es[|es| - 1];
      Links(c, es[..|es| - 1]) + if e.1.Some? then [Recognized((c.camera, e.0))] else []
  }

  function Classes(c: Moment, ds: seq<(int, string, string)>): seq<Sight> {
    seq(|ds|, i requires 0 <= i < |ds| => Classified((c.camera, ds[i].0), c.store, c.hour, ds[i].1, ds[i].2, c.now))
  }

  function Walks(c: Moment, walls: seq<Wall>, camera: Option<Point>, es: seq<(int, Point)>): seq<Sight> {
    seq(|es|, i requires 0 <= i < |es| => Walked((c.camera, es[i].0), es[i].1, walls, camera))
  }

  function Cells(c: Moment, es: seq<(int, nat)>): seq<Sight> {
    seq(|es|, i requires 0 <= i < |es| => Entered((c.camera, es[i].0), es[i].1, c.store, c.hour))
  }

  function Leaves(c: Moment, walls: map<int, seq<Wall>>, ks: seq<TrackKey>): seq<Sight> {
    seq(|ks|, i requires 0 <= i < |ks| => Left(ks[i], c.now, walls))
  }

  // ---- presences are stays ------------------------------------------------------------------------------

  /** The presence of k as a stay. */
  function View(pr: map<TrackKey, Presence>, k: TrackKey): Stay {
    if k !in pr then Gone
    else
      var p := pr[k];
      Staying(p.store, p.hour, p.first, p.last, p.lastCell, p.gender, p.age, p.path, p.isStaff, p.hasSp)
  }

  ghost predicate StaysTold(pr: map<TrackKey, Presence>, tr: seq<Sight>) {
    forall k :: View(pr, k) == StayOf(tr, k)
  }

  /** One sighting: the track it is about moves on, the others stay as they are. */
  lemma ViewStep(pr: map<TrackKey, Presence>, pr': map<TrackKey, Presence>, tr: seq<Sight>, e: Sight)
    requires StaysTold(pr, tr)
    requires forall k :: View(pr', k) == if About(e, k) then NextStay(View(pr, k), e) else View(pr, k)
    ensures StaysTold(pr', tr + [e])
  {
    hide View, NextStay;
    assert (tr + [e])[..|tr|] == tr;
  }

  lemma {:induction false} MarksAreStays(pr: map<TrackKey, Presence>, tr: seq<Sight>, c: Moment,
                                         marks: seq<(Option<int>, Option<int>)>)
    requires StaysTold(pr, tr)
    ensures StaysTold(MarkAllStaff(pr, c, marks), tr + Badges(c, marks))
  {
    if marks == [] {
      assert tr + [] == tr;
    } else {
      var front, m := marks[..|marks| - 1], marks[|marks| - 1];
      MarksAreStays(pr, tr, c, front);
      var pr1, tr1 := MarkAllStaff(pr, c, front), tr + Badges(c, front);
      if m.0.Some? {
        assert tr + Badges(c, marks) == tr1 + [BadgeSeen((c.camera, m.0.value))];
        hide StaysTold, WorthNoting;
        ViewStep(pr1, MarkStaff(pr1, (c.camera, m.0.value)), tr1, BadgeSeen((c.camera, m.0.value)));
      } else {
        assert tr + Badges(c, marks) == tr1;
      }
    }
  }

  lemma {:induction false} VisiblesAreStays(pr: map<TrackKey, Presence>, tr: seq<Sight>, c: Moment, pids: seq<int>)
    requires StaysTold(pr, tr)
    ensures StaysTold(TouchAll(pr, c, pids), tr + Visibles(c, pids))
  {
    if pids == [] {
      assert tr + [] == tr;
    } else {
      var front, pid := pids[..|pids| - 1], pids[|pids| - 1];
      VisiblesAreStays(pr, tr, c, front);
      var pr1, tr1 := TouchAll(pr, c, front), tr + Visibles(c, front);
      var e := Seen((c.camera, pid), c.store, c.hour, c.now);
      assert tr + Visibles(c, pids) == tr1 + [e];
      hide StaysTold, WorthNoting;
      ViewStep(pr1, Touch(pr1, c, pid), tr1, e);
    }
  }

  lemma {:induction false} LinksAreStays(pr: map<TrackKey, Presence>, tr: seq<Sight>, c: Moment,
                                         es: seq<(int, Option<int>)>)
    requires StaysTold(pr, tr)
    ensures StaysTold(LinkAll(pr, c, es), tr + Links(c, es))
  {
    if es == [] {
      assert tr + [] == tr;
    } else {
      var front, e := es[..|es| - 1], es[|es| - 1];
      LinksAreStays(pr, tr, c, front);
      var pr1, tr1 := LinkAll(pr, c, front), tr + Links(c, front);
      if e.1.Some? {
        assert tr + Links(c, es) == tr1 + [Recognized((c.camera, e.0))];
        hide StaysTold, WorthNoting;
        ViewStep(pr1, LinkAll(pr, c, es), tr1, Recognized((c.camera, e.0)));
      } else {
        assert tr + Links(c, es) == tr1;
      }
    }
  }

  lemma {:induction false} ClassesAreStays(pr: map<TrackKey, Presence>, tr: seq<Sight>, c: Moment,
                                           ds: seq<(int, string, string)>)
    requires StaysTold(pr, tr)
    ensures StaysTold(StampAll(pr, c, ds), tr + Classes(c, ds))
  {
    if ds == [] {
      assert tr + [] == tr;
    } else {
      var front, d := ds[..|ds| - 1], ds[|ds| - 1];
      ClassesAreStays(pr, tr, c, front);
      var pr1, tr1 := StampAll(pr, c, front), tr + Classes(c, front);
      var e := Classified((c.camera, d.0), c.store, c.hour, d.1, d.2, c.now);
      assert tr + Classes(c, ds) == tr1 + [e];
      hide StaysTold, WorthNoting;
      ViewStep(pr1, Stamp(pr1, c, d), tr1, e);
    }
  }

  lemma SamplesIsWorth(path: seq<Point>, p: Point, walls: seq<Wall>, camera: Option<Point>)
    ensures Samples(path, walls, camera, p) <==> WorthNoting(path, p, walls, camera)
  {
    if path != [] {
      SameDistance(path[|path| - 1], p);
    }
    if camera.Some? {
      var start := At(camera.value, p, 0.04);
      assert BehindWall(walls, camera, p) <==> exists i :: 0 <= i < |walls| && SegsIntersect(start, p, walls[i]);
    }
    hide SegsIntersect, Len2;
  }

  lemma SameDistance(a: Point, b: Point)
    ensures Len2(a, b) == Len2(b, a)
  {
    var dx, dy := b.x - a.x, b.y - a.y;
    assert a.x - b.x == -dx && a.y - b.y == -dy;
    assert (-dx) * (-dx) == dx * dx && (-dy) * (-dy) == dy * dy;
  }

  lemma {:induction false} WalksAreStays(pr: map<TrackKey, Presence>, tr: seq<Sight>, c: Moment, walls: seq<Wall>,
                                         camera: Option<Point>, es: seq<(int, Point)>)
    requires StaysTold(pr, tr)
    ensures StaysTold(SampleAll(pr, c, walls, camera, es), tr + Walks(c, walls, camera, es))
  {
    if es == [] {
      assert tr + [] == tr;
    } else {
      var front, e := es[..|es| - 1], es[|es| - 1];
      WalksAreStays(pr, tr, c, walls, camera, front);
      var pr1, tr1 := SampleAll(pr, c, walls, camera, front), tr + Walks(c, walls, camera, front);
      var k := (c.camera, e.0);
      assert tr + Walks(c, walls, camera, es) == tr1 + [Walked(k, e.1, walls, camera)];
      if k in pr1 {
        SamplesIsWorth(pr1[k].path, e.1, walls, camera);
      }
      hide StaysTold, WorthNoting, Samples, Round4;
      ViewStep(pr1, Sample(pr1, c, walls, camera, e), tr1, Walked(k, e.1, walls, camera));
    }
  }

  lemma {:induction false} CellsAreStays(pr: map<TrackKey, Presence>, tr: seq<Sight>, c: Moment, es: seq<(int, nat)>)
    requires StaysTold(pr, tr)
    ensures StaysTold(EnterAll(pr, c, es), tr + Cells(c, es))
  {
    if es == [] {
      assert tr + [] == tr;
    } else {
      var front, e := es[..|es| - 1], es[|es| - 1];
      CellsAreStays(pr, tr, c, front);
      var pr1, tr1 := EnterAll(pr, c, front), tr + Cells(c, front);
      var s := Entered((c.camera, e.0), e.1, c.store, c.hour);
      assert tr + Cells(c, es) == tr1 + [s];
      hide StaysTold, WorthNoting;
      ViewStep(pr1, Enter(pr1, c, e), tr1, s);
    }
  }

  lemma {:induction false} LeavesAreStays(pr: map<TrackKey, Presence>, tr: seq<Sight>, c: Moment,
                                          walls: map<int, seq<Wall>>, ks: seq<TrackKey>)
    requires StaysTold(pr, tr)
    ensures StaysTold(pr - (set k | k in ks), tr + Leaves(c, walls, ks))
  {
    if ks == [] {
      assert tr + [] == tr;
      assert pr - (set k | k in ks) == pr;
    } else {
      var front, k := ks[..|ks| - 1], ks[|ks| - 1];
      LeavesAreStays(pr, tr, c, walls, front);
      var pr1, tr1 := pr - (set q | q in front), tr + Leaves(c, walls, front);
      assert tr + Leaves(c, walls, ks) == tr1 + [Left(k, c.now, walls)];
      assert ks == front + [k];
      assert pr - (set q | q in ks) == pr1 - {k};
      hide StaysTold, WorthNoting;
      ViewStep(pr1, pr1 - {k}, tr1, Left(k, c.now, walls));
    }
  }

  // ---- counters are sums over the list --------------------------------------------------------------------

  lemma NearIsAdjacent(a: nat, b: nat)
    ensures P.FlowAdjacent(a, b) <==> Near(a, b)
  {
  }

  /** One cell entered: what the flow log gains is the step it takes. */
  lemma CrossingIsStep(pr: map<TrackKey, Presence>, tr: seq<Sight>, c: Moment, e: (int, nat),
                       store: int, camera: string, hour: int, a: nat, b: nat)
    requires View(pr, (c.camera, e.0)) == StayOf(tr, (c.camera, e.0))
    ensures Crossed(pr, c, e) == Some(Edge(store, camera, hour, a, b))
      <==> StepsOver(tr, Entered((c.camera, e.0), e.1, c.store, c.hour), store, camera, hour, a, b)
  {
    NearIsAdjacent(a, b);
    hide StayOf, Near, P.FlowAdjacent;
  }

  lemma StepsSnoc(tr: seq<Sight>, e: Sight, store: int, camera: string, hour: int, a: nat, b: nat)
    ensures StepsTaken(tr + [e], store, camera, hour, a, b)
      == StepsTaken(tr, store, camera, hour, a, b) + if StepsOver(tr, e, store, camera, hour, a, b) then 1 else 0
  {
    hide StepsOver;
    assert (tr + [e])[..|tr|] == tr;
  }

  lemma CellsSnoc(tr: seq<Sight>, c: Moment, es: seq<(int, nat)>)
    requires es != []
    ensures var e := es[|es| - 1];
      tr + Cells(c, es) == tr + Cells(c, es[..|es| - 1]) + [Entered((c.camera, e.0), e.1, c.store, c.hour)]
  {
  }

  /** One entry of the flow log per step taken. */
  lemma {:induction false} FlowsAreSteps(pr: map<TrackKey, Presence>, tr: seq<Sight>, c: Moment, es: seq<(int, nat)>,
                                         store: int, camera: string, hour: int, a: nat, b: nat)
    requires StaysTold(pr, tr)
    ensures StepsTaken(tr + Cells(c, es), store, camera, hour, a, b)
      == StepsTaken(tr, store, camera, hour, a, b) + Count(FlowEvents(pr, c, es), Edge(store, camera, hour, a, b))
  {
    if es == [] {
      assert tr + [] == tr;
    } else {
      var front, e := es[..|es| - 1], es[|es| - 1];
      FlowsAreSteps(pr, tr, c, front, store, camera, hour, a, b);
      CellsAreStays(pr, tr, c, front);
      var pr1, tr1, k := EnterAll(pr, c, front), tr + Cells(c, front), (c.camera, e.0);
      CellsSnoc(tr, c, es);
      assert View(pr1, k) == StayOf(tr1, k);
      hide StaysTold, StayOf, EnterAll, Count, Cells, View, Crossed, StepsOver, StepsTaken;
      CrossingIsStep(pr1, tr1, c, e, store, camera, hour, a, b);
      StepsSnoc(tr1, Entered(k, e.1, c.store, c.hour), store, camera, hour, a, b);
      CountSnoc(FlowEvents(pr, c, front), Crossed(pr1, c, e), Edge(store, camera, hour, a, b));
    }
  }

  ghost predicate DemosTold(g: Demos, tr: seq<Sight>) {
    forall k :: (k in g.seen <==> StillKnown(tr, k)) && (k in g.seen ==> LastClassified(tr, k) == Some(g.seen[k]))
  }

  lemma {:induction false} ClassesAreKnown(g: Demos, tr: seq<Sight>, c: Moment, ds: seq<(int, string, string)>)
    requires DemosTold(g, tr)
    ensures DemosTold(CountDemos(g, c, ds), tr + Classes(c, ds))
  {
    if ds == [] {
      assert tr + [] == tr;
    } else {
      var front, d := ds[..|ds| - 1], ds[|ds| - 1];
      ClassesAreKnown(g, tr, c, front);
      var g1, tr1 := CountDemos(g, c, front), tr + Classes(c, front);
      var e := Classified((c.camera, d.0), c.store, c.hour, d.1, d.2, c.now);
      assert tr + Classes(c, ds) == tr1 + [e];
      assert (tr1 + [e])[..|tr1|] == tr1;
    }
  }

  lemma ClassesSnoc(tr: seq<Sight>, c: Moment, ds: seq<(int, string, string)>)
    requires ds != []
    ensures var d := ds[|ds| - 1];
      tr + Classes(c, ds)
        == tr + Classes(c, ds[..|ds| - 1]) + [Classified((c.camera, d.0), c.store, c.hour, d.1, d.2, c.now)]
  {
  }

  /** One classification: what the log gains is the newcomer. */
  lemma ClassIsNewcomer(g: Demos, tr: seq<Sight>, c: Moment, d: (int, string, string),
                        store: int, camera: string, hour: int, gender: string, age: string)
    requires DemosTold(g, tr)
    ensures var e := Classified((c.camera, d.0), c.store, c.hour, d.1, d.2, c.now);
      Newcomers(tr + [e], store, camera, hour, gender, age) == Newcomers(tr, store, camera, hour, gender, age)
        + if NewDemo(g, c, d) == Some(Demo(store, camera, hour, gender, age)) then 1 else 0
  {
    var e := Classified((c.camera, d.0), c.store, c.hour, d.1, d.2, c.now);
    assert (tr + [e])[..|tr|] == tr;
    hide StillKnown, LastClassified;
  }

  lemma {:induction false} DemosAreNewcomers(g: Demos, tr: seq<Sight>, c: Moment, ds: seq<(int, string, string)>,
                                             store: int, camera: string, hour: int, gender: string, age: string)
    requires DemosTold(g, tr)
    ensures Newcomers(tr + Classes(c, ds), store, camera, hour, gender, age)
      == Newcomers(tr, store, camera, hour, gender, age)
         + Count(DemoEvents(g, c, ds), Demo(store, camera, hour, gender, age))
  {
    if ds == [] {
      assert tr + [] == tr;
    } else {
      var front, d := ds[..|ds| - 1], ds[|ds| - 1];
      DemosAreNewcomers(g, tr, c, front, store, camera, hour, gender, age);
      ClassesAreKnown(g, tr, c, front);
      ClassesSnoc(tr, c, ds);
      var g1, tr1 := CountDemos(g, c, front), tr + Classes(c, front);
      hide DemosTold, CountDemos, Count, Classes, Newcomers, NewDemo;
      ClassIsNewcomer(g1, tr1, c, d, store, camera, hour, gender, age);
      CountSnoc(DemoEvents(g, c, front), NewDemo(g1, c, d), Demo(store, camera, hour, gender, age));
    }
  }

  lemma MsIsWhole(first: real, last: real)
    requires first <= last
    ensures DwellMs(first, last) == WholeMs(first, last)
  {
    assert (last - first) * 1000.0 == 1000.0 * (last - first);
  }

  /** What a closing of k logs, against the stay it ends. */
  lemma ClosingIsEnd(pr: map<TrackKey, Presence>, tr: seq<Sight>, k: TrackKey, at: real, walls: map<int, seq<Wall>>,
                     b: Key)
    requires StaysTold(pr, tr) && k in pr && pr[k].first <= pr[k].last
    ensures var o := Closed(CloseOutcome(k, pr[k]));
      && (BanksAt(o, b) <==> EndsUnder(tr, Left(k, at, walls), b))
      && (BanksAt(o, b) ==> o.outcome.ms == WholeMs(StayOf(tr, k).first, StayOf(tr, k).last))
  {
    assert View(pr, k) == StayOf(tr, k);
    MsIsWhole(pr[k].first, pr[k].last);
  }

  lemma LeavesSnoc(tr: seq<Sight>, c: Moment, walls: map<int, seq<Wall>>, ks: seq<TrackKey>)
    requires ks != []
    ensures var front, k := ks[..|ks| - 1], ks[|ks| - 1];
      tr + Leaves(c, walls, ks) == tr + Leaves(c, walls, front) + [Left(k, c.now, walls)]
  {
  }

  lemma EndsSnoc(tr: seq<Sight>, e: Sight, b: Key)
    ensures StaysEnded(tr + [e], b) == StaysEnded(tr, b) + if EndsUnder(tr, e, b) then 1 else 0
    ensures EndsUnder(tr, e, b) ==>
      TimeEnded(tr + [e], b) == TimeEnded(tr, b) + WholeMs(StayOf(tr, e.k).first, StayOf(tr, e.k).last)
    ensures !EndsUnder(tr, e, b) ==> TimeEnded(tr + [e], b) == TimeEnded(tr, b)
  {
    assert (tr + [e])[..|tr|] == tr;
    hide StayOf;
  }

  /** One stay ends. */
  lemma OneEnd(pr: map<TrackKey, Presence>, tr: seq<Sight>, k: TrackKey, at: real, walls: map<int, seq<Wall>>, b: Key)
    requires StaysTold(pr, tr) && k in pr && pr[k].first <= pr[k].last
    ensures var e, o := Left(k, at, walls), Closed(CloseOutcome(k, pr[k]));
      && StaysEnded(tr + [e], b) == StaysEnded(tr, b) + (if BanksAt(o, b) then 1 else 0)
      && TimeEnded(tr + [e], b) == TimeEnded(tr, b) + if BanksAt(o, b) then o.outcome.ms else 0
  {
    ClosingIsEnd(pr, tr, k, at, walls, b);
    hide StaysTold, EndsUnder, CloseOutcome, StayOf;
    EndsSnoc(tr, Left(k, at, walls), b);
  }

  lemma ClosingsSnoc(pr: map<TrackKey, Presence>, ks: seq<TrackKey>, b: Key)
    requires ks != [] && forall k :: k in ks ==> k in pr
    ensures var front, o := ks[..|ks| - 1], Closed(CloseOutcome(ks[|ks| - 1], pr[ks[|ks| - 1]]));
      var outs, before := TrackClosings(pr, ks), TrackClosings(pr, front);
      && BankedAt(outs, b) == BankedAt(before, b) + (if BanksAt(o, b) then 1 else 0)
      && BankedMs(outs, b) == BankedMs(before, b) + if BanksAt(o, b) then o.outcome.ms else 0
  {
    var outs, k := TrackClosings(pr, ks), ks[|ks| - 1];
    assert outs[..|outs| - 1] == TrackClosings(pr, ks[..|ks| - 1]);
    assert outs[|outs| - 1] == (k, Closed(CloseOutcome(k, pr[k])));
    hide CloseOutcome, TrackClosings;
  }

  lemma {:induction false} ClosingsAreEnds(pr: map<TrackKey, Presence>, tr: seq<Sight>, c: Moment,
                                           walls: map<int, seq<Wall>>, ks: seq<TrackKey>, b: Key)
    requires StaysTold(pr, tr) && (forall k :: k in ks ==> k in pr)
    requires forall i, j :: 0 <= i < j < |ks| ==> ks[i] != ks[j]
    requires forall k :: k in pr ==> pr[k].first <= pr[k].last
    ensures var tr', outs := tr + Leaves(c, walls, ks), TrackClosings(pr, ks);
      && StaysEnded(tr', b) == StaysEnded(tr, b) + BankedAt(outs, b)
      && TimeEnded(tr', b) == TimeEnded(tr, b) + BankedMs(outs, b)
  {
    if ks == [] {
      assert tr + [] == tr;
    } else {
      var front, k := ks[..|ks| - 1], ks[|ks| - 1];
      ClosingsAreEnds(pr, tr, c, walls, front, b);
      LeavesAreStays(pr, tr, c, walls, front);
      var pr1, tr1 := pr - (set q | q in front), tr + Leaves(c, walls, front);
      assert k in pr1 && pr1[k] == pr[k];
      hide StaysTold, CloseOutcome, BanksAt, TrackClosings, Leaves, StaysEnded, TimeEnded, BankedAt, BankedMs;
      LeavesSnoc(tr, c, walls, ks);
      ClosingsSnoc(pr, ks, b);
      OneEnd(pr1, tr1, k, c.now, walls, b);
    }
  }

  // ---- rows -------------------------------------------------------------------------------------------------

  lemma {:induction false} RowsAreStretches(k: TrackKey, p: Presence, s: Stay, parts: seq<seq<Point>>)
    requires s.Staying? && s.store == p.store && s.hour == p.hour && s.first == p.first && s.last == p.last
    requires s.gender == p.gender && s.age == p.age
    ensures RowsOf(k, p, parts) == StretchRows(k, s, parts)
  {
    if parts != [] {
      RowsAreStretches(k, p, s, parts[..|parts| - 1]);
    }
  }

  function ClosedRows(pr: map<TrackKey, Presence>, t: Tenancy, k: TrackKey): seq<PathRow>
    requires k in pr
  {
    if pr[k].isStaff then [] else RowsOf(k, pr[k], Parts(pr[k], WallsOf(t, pr[k].store)))
  }

  lemma ClosedRowsSnoc(pr: map<TrackKey, Presence>, t: Tenancy, ks: seq<TrackKey>)
    requires ks != [] && forall k :: k in ks ==> k in pr
    ensures ClosePaths([], pr, t, ks) == ClosePaths([], pr, t, ks[..|ks| - 1]) + ClosedRows(pr, t, ks[|ks| - 1])
  {
    hide RowsOf, Parts, WallsOf;
  }

  lemma ClosingIsRows(pr: map<TrackKey, Presence>, t: Tenancy, s: Stay, k: TrackKey)
    requires k in pr && s == View(pr, k)
    ensures ClosedRows(pr, t, k) == RowsOfStay(k, s, t.walls)
  {
    var p := pr[k];
    var here := WallsOf(t, p.store);
    if |p.path| >= 3 {
      BoundsIncreasing(p.path, here);
      RowsAreStretches(k, p, s, Saved(p.path, Bounds(p.path, here)));
    }
    hide Saved, Bounds, StretchRows;
  }

  lemma RowsSnoc(tr: seq<Sight>, k: TrackKey, at: real, walls: map<int, seq<Wall>>)
    ensures RowsEnded(tr + [Left(k, at, walls)]) == RowsEnded(tr) + RowsOfStay(k, StayOf(tr, k), walls)
  {
    hide RowsOfStay, StayOf;
    assert (tr + [Left(k, at, walls)])[..|tr|] == tr;
  }

  /** A presence not among those gone is as it was. */
  lemma Remains(pr: map<TrackKey, Presence>, tr: seq<Sight>, t: Tenancy, gone: seq<TrackKey>, k: TrackKey)
    requires k in pr && k !in gone && StaysTold(pr - (set q | q in gone), tr)
    ensures View(pr, k) == StayOf(tr, k) && ClosedRows(pr, t, k) == RowsOfStay(k, StayOf(tr, k), t.walls)
  {
    hide RowsOfStay, StayOf, ClosedRows;
    assert k in pr - (set q | q in gone);
    ClosingIsRows(pr, t, View(pr, k), k);
  }

  lemma RowStep(pr: map<TrackKey, Presence>, tr: seq<Sight>, c: Moment, t: Tenancy, ks: seq<TrackKey>)
    requires ks != [] && (forall k :: k in ks ==> k in pr) && ks[|ks| - 1] !in ks[..|ks| - 1]
    requires var front := ks[..|ks| - 1];
      && StaysTold(pr - (set q | q in front), tr + Leaves(c, t.walls, front))
      && RowsEnded(tr + Leaves(c, t.walls, front)) == RowsEnded(tr) + ClosePaths([], pr, t, front)
    ensures RowsEnded(tr + Leaves(c, t.walls, ks)) == RowsEnded(tr) + ClosePaths([], pr, t, ks)
  {
    hide *;
    var front, k := ks[..|ks| - 1], ks[|ks| - 1];
    var tr1 := tr + Leaves(c, t.walls, front);
    LeavesSnoc(tr, c, t.walls, ks);
    Remains(pr, tr1, t, front, k);
    RowsSnoc(tr1, k, c.now, t.walls);
    ClosedRowsSnoc(pr, t, ks);
  }

  lemma {:induction false} PathsAreRows(pr: map<TrackKey, Presence>, tr: seq<Sight>, c: Moment, t: Tenancy,
                                        ks: seq<TrackKey>)
    requires StaysTold(pr, tr) && (forall k :: k in ks ==> k in pr)
    requires forall i, j :: 0 <= i < j < |ks| ==> ks[i] != ks[j]
    ensures RowsEnded(tr + Leaves(c, t.walls, ks)) == RowsEnded(tr) + ClosePaths([], pr, t, ks)
  {
    hide StaysTold, RowsEnded;
    if ks == [] {
      assert tr + Leaves(c, t.walls, ks) == tr;
      assert RowsEnded(tr) + [] == RowsEnded(tr);
    } else {
      var front := ks[..|ks| - 1];
      PathsAreRows(pr, tr, c, t, front);
      LeavesAreStays(pr, tr, c, t.walls, front);
      RowStep(pr, tr, c, t, ks);
    }
  }
}
