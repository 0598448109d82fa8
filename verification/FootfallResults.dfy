/**
 What the tables of the aggregator hold, in terms of the sightings of a run alone: dwell, flow, demographics, walked
 paths, and how long a track stays on the floor.
 */
module FootfallResults {
  import opened Geometry
  import opened Options
  import opened Tally
  import opened PathSplit
  import opened Sequences
  import opened FootfallModel
  import opened FootfallEvents
  import opened FootfallEffects
  import opened FootfallWorld
  import opened FootfallRuns
  import opened FootfallStays
  import opened FootfallTraces
  import opened FootfallVisits
  import opened FootfallHistory
  import Rdp

  // ---- dwell --------------------------------------------------------------------------------------------

  /** Stored, buffered and skipped dwell of a bucket is the stays and visits that ended under it, and their time. */
  lemma {:induction false} DwellExactly(start: real, ops: seq<Op>, b: Key)
    ensures var w, tr, vt := Run(Start(start), ops), Trace(start, ops), VisitTrace(start, ops);
      && Get(w.db.dwellTracks, b) + Get(w.s.dwell.tracks, b) + Get(w.lost.dwellTracks, b)
           == StaysEnded(tr, b) + VisitsEnded(vt, b)
      && Get(w.db.dwellMs, b) + Get(w.s.dwell.ms, b) + Get(w.lost.dwellMs, b) == TimeEnded(tr, b) + VisitTime(vt, b)
  {
    RunInv(start, ops);
    RunEnds(start, ops, b);
    RunVisits(start, ops, b);
    hide Run, Trace, VisitTrace, Start, StaysEnded, TimeEnded, VisitsEnded, VisitTime, BankedAt, BankedMs, VisitsSeen;
    assert ConservedAt(Run(Start(start), ops), b);
  }

  /** Nothing noted of k since its stay began marks it as staff, or as a shopper known across cameras. */
  ghost predicate Unmarked(tr: seq<Sight>, k: TrackKey, p: nat) {
    forall i :: p < i < |tr| ==> tr[i] != BadgeSeen(k) && tr[i] != Recognized(k)
  }

  /**
   A stay of k that ends after tr counts under b if and only if it began, at some p, in b's store and hour, at b's
   camera, and nothing marked it since. It counts for its whole milliseconds from p to the last sighting of k.
   */
  lemma StayCounts(tr: seq<Sight>, k: TrackKey, at: real, walls: map<int, seq<Wall>>, b: Key) returns (p: nat, q: nat)
    ensures EndsUnder(tr, Left(k, at, walls), b)
      <==> BeginsAt(tr, k, p) && Unmarked(tr, k, p) && b == Bucket(tr[p].store, k.0, tr[p].hour)
    ensures BeginsAt(tr, k, p) ==>
      && p <= q && LastSeenAt(tr, k, q)
      && StayOf(tr, k).Staying? && StayOf(tr, k).first == tr[p].at && StayOf(tr, k).last == tr[q].at
  {
    p, q := 0, 0;
    GoneOrBegun(tr, k);
    if StayOf(tr, k).Staying? {
      p, q := StayTells(tr, k);
      FlagsTell(tr, k, p);
    }
    hide StayOf;
  }

  lemma GoneOrBegun(tr: seq<Sight>, k: TrackKey)
    ensures StayOf(tr, k).Gone? ==> forall p: nat :: !BeginsAt(tr, k, p)
  {
    GoneTells(tr, k);
    hide StayOf;
    if StayOf(tr, k).Gone? {
      forall p: nat ensures !BeginsAt(tr, k, p) {
        if p < |tr| && SeenAs(tr[p], k) {
          var m :| p < m < |tr| && LeftAs(tr[m], k);
        }
      }
    }
  }

  // ---- flow ---------------------------------------------------------------------------------------------

  /** Stored, buffered and skipped flow over an edge is the steps taken over it. */
  lemma {:induction false} FlowExactly(start: real, ops: seq<Op>, store: int, camera: string, hour: int, a: nat, b: nat)
    ensures var w, e := Run(Start(start), ops), Edge(store, camera, hour, a, b);
      Get(w.db.flow, e) + Get(w.s.flow, e) + Get(w.lost.flow, e)
        == StepsTaken(Trace(start, ops), store, camera, hour, a, b)
  {
    RunInv(start, ops);
    RunStepsTaken(start, ops, store, camera, hour, a, b);
    hide Run, Trace, Start, StepsTaken;
    assert ConservedAt(Run(Start(start), ops), Edge(store, camera, hour, a, b));
  }

  /**
   A sighting in cell b is a step from a if and only if the track is here, the last cell it was in since its stay
   began is a, and a and b are different and near.
   */
  lemma StepIs(tr: seq<Sight>, k: TrackKey, store: int, hour: int, a: nat, b: nat)
    ensures StepsOver(tr, Entered(k, b, store, hour), store, k.0, hour, a, b)
      <==> (exists i: nat :: InCellSince(tr, k, a, i)) && a != b && Near(a, b)
  {
    CellTells(tr, k, a);
    hide StayOf, Near;
  }

  // ---- demographics -------------------------------------------------------------------------------------

  lemma {:induction false} DemographicsExactly(start: real, ops: seq<Op>, store: int, camera: string, hour: int,
                                               gender: string, age: string)
    ensures var w, d := Run(Start(start), ops), Demo(store, camera, hour, gender, age);
      Get(w.db.demo, d) + Get(w.s.demos.counts, d) + Get(w.lost.demo, d)
        == Newcomers(Trace(start, ops), store, camera, hour, gender, age)
  {
    RunInv(start, ops);
    RunNewcomers(start, ops, store, camera, hour, gender, age);
    hide Run, Trace, Start, Newcomers;
    assert ConservedAt(Run(Start(start), ops), Demo(store, camera, hour, gender, age));
  }

  /** The last classification of k in tr is at i. */
  ghost predicate ClassifiedLast(tr: seq<Sight>, k: TrackKey, i: nat) {
    && i < |tr| && tr[i].Classified? && tr[i].k == k
    && forall j :: i < j < |tr| ==> !(tr[j].Classified? && tr[j].k == k)
  }

  /** Some prune came 45 s or more after the sighting at i. */
  ghost predicate SweptSince(tr: seq<Sight>, i: nat)
    requires i < |tr| && tr[i].Classified?
  {
    exists j :: i < j < |tr| && tr[j].Swept? && tr[j].at - tr[i].at >= 45.0
  }

  /** A track is known if and only if it was classified and no prune has come 45 s after the last time. */
  lemma {:induction false} KnownTells(tr: seq<Sight>, k: TrackKey)
    ensures StillKnown(tr, k) <==> exists i: nat :: ClassifiedLast(tr, k, i) && !SweptSince(tr, i)
    ensures forall i: nat :: ClassifiedLast(tr, k, i) ==> LastClassified(tr, k) == Some(tr[i].at)
    ensures LastClassified(tr, k).Some? ==> exists i: nat :: ClassifiedLast(tr, k, i)
  {
    if tr != [] {
      var n := |tr| - 1;
      var front, e := tr[..n], tr[n];
      KnownTells(front, k);
      if e.Classified? && e.k == k {
        assert ClassifiedLast(tr, k, n) && !SweptSince(tr, n);
        assert forall i: nat :: ClassifiedLast(tr, k, i) ==> i == n;
      } else {
        forall i: nat ensures ClassifiedLast(tr, k, i) <==> ClassifiedLast(front, k, i) {
        }
        forall i: nat | ClassifiedLast(front, k, i)
          ensures SweptSince(tr, i) <==> SweptSince(front, i) || (e.Swept? && e.at - front[i].at >= 45.0)
        {
          SweptSnoc(tr, i);
        }
      }
    }
  }

  lemma SweptSnoc(tr: seq<Sight>, i: nat)
    requires tr != [] && i < |tr| - 1 && tr[i].Classified?
    ensures var e := tr[|tr| - 1];
      SweptSince(tr, i) <==> SweptSince(tr[..|tr| - 1], i) || (e.Swept? && e.at - tr[i].at >= 45.0)
  {
    var n := |tr| - 1;
    var front := tr[..n];
    if SweptSince(front, i) {
      var j :| i < j < n && front[j].Swept? && front[j].at - front[i].at >= 45.0;
      assert tr[j] == front[j];
    }
    if SweptSince(tr, i) {
      var j :| i < j < |tr| && tr[j].Swept? && tr[j].at - tr[i].at >= 45.0;
      if j < n {
        assert front[j] == tr[j];
      }
    }
  }

  // ---- walked paths ---------------------------------------------------------------------------------------

  /** Stored, buffered and skipped path rows are, in some order, the rows of the stays that ended. */
  lemma {:induction false} RowsExactly(start: real, ops: seq<Op>)
    ensures var w := Run(Start(start), ops);
      multiset(w.db.paths + w.s.paths + w.lost.paths) == multiset(RowsEnded(Trace(start, ops)))
  {
    PathsConserved(start, ops);
    RunEnds(start, ops, Bucket(0, "", 0));
    hide Run, Trace, Start, RowsEnded, StaysEnded, TimeEnded, BankedAt, BankedMs;
  }

  /**
   A row of a stay of k that ends after tr holds the store and hour in which the stay began, k's camera, the time from
   its first sighting to its last, and a simplified stretch of the points noted, three or more.
   */
  lemma RowHolds(tr: seq<Sight>, k: TrackKey, walls: map<int, seq<Wall>>, r: PathRow) returns (p: nat, q: nat)
    requires r in RowsOfStay(k, StayOf(tr, k), walls)
    ensures BeginsAt(tr, k, p) && LastSeenAt(tr, k, q) && (forall i :: p < i < |tr| ==> tr[i] != BadgeSeen(k))
    ensures r.store == tr[p].store && r.hour == tr[p].hour && r.camera == k.0 && r.duration == tr[q].at - tr[p].at
    ensures r.gender == StayOf(tr, k).gender && r.age == StayOf(tr, k).age && |r.points| >= 3
    ensures var s := StayOf(tr, k);
      var here := if s.store in walls then walls[s.store] else [];
      |s.path| >= 3 && BoundsIn(s.path, Bounds(s.path, here))
      && exists part :: part in Saved(s.path, Bounds(s.path, here)) && r.points == Rdp.Simplify(part, 0.003)
  {
    var s := StayOf(tr, k);
    p, q := StayTells(tr, k);
    FlagsTell(tr, k, p);
    var here := if s.store in walls then walls[s.store] else [];
    hide StayOf, Saved, Bounds, Rdp.Simplify;
    BoundsIncreasing(s.path, here);
    StretchHolds(k, s, Saved(s.path, Bounds(s.path, here)), r);
  }

  lemma {:induction false} StretchHolds(k: TrackKey, s: Stay, parts: seq<seq<Point>>, r: PathRow)
    requires s.Staying? && r in StretchRows(k, s, parts)
    ensures r.store == s.store && r.hour == s.hour && r.camera == k.0 && r.duration == s.last - s.first
    ensures r.gender == s.gender && r.age == s.age && |r.points| >= 3
    ensures exists part :: part in parts && r.points == Rdp.Simplify(part, 0.003)
  {
    hide Rdp.Simplify;
    var front, part := parts[..|parts| - 1], parts[|parts| - 1];
    if r in StretchRows(k, s, front) {
      StretchHolds(k, s, front, r);
      var old0 :| old0 in front && r.points == Rdp.Simplify(old0, 0.003);
      assert old0 in parts;
    } else {
      assert r in StretchRow(k, s, part);
      assert part in parts;
    }
  }

  /** The noted points of a stay, by index: each is a later sighting, rounded, worth noting after those before it. */
  lemma {:induction false} PathTells(tr: seq<Sight>, k: TrackKey) returns (ns: seq<nat>)
    requires StayOf(tr, k).Staying?
    ensures var path := StayOf(tr, k).path;
      && |ns| == |path| && Increasing(ns)
      && forall i :: 0 <= i < |ns| ==> NotedAt(tr, k, path, i, ns[i])
  {
    var n := |tr| - 1;
    var front, e := tr[..n], tr[n];
    hide WorthNoting, Round4;
    if !About(e, k) {
      ns := PathTells(front, k);
    } else if e.Seen? && StayOf(front, k).Gone? {
      ns := [];
    } else {
      ns := PathTells(front, k);
      if e.BadgeSeen? && !StayOf(front, k).staff {
        ns := [];
      } else if e.Walked? && StayOf(tr, k).path != StayOf(front, k).path {
        ns := ns + [n];
      }
    }
  }

  /** Point i of the path is the sighting at n, to within 0.00005, on the plan and in sight. */
  ghost predicate NotedAt(tr: seq<Sight>, k: TrackKey, path: seq<Point>, i: nat, n: nat)
    requires i < |path|
  {
    && n < |tr| && tr[n].Walked? && tr[n].k == k
    && path[i] == Point(Round4(tr[n].p.x), Round4(tr[n].p.y))
    && WorthNoting(path[..i], tr[n].p, tr[n].walls, tr[n].camera)
  }

  // ---- when stays end -----------------------------------------------------------------------------------------

  /** A stay ends no earlier than 45 s after its last sighting. */
  lemma {:induction false} LeavesLate(start: real, ops: seq<Op>, j: nat)
    requires j < |Trace(start, ops)| && Trace(start, ops)[j].Left?
    ensures var tr := Trace(start, ops);
      var s := StayOf(tr[..j], tr[j].k);
      s.Staying? && tr[j].at - s.last >= 45.0
  {
    var front, op := ops[..|ops| - 1], ops[|ops| - 1];
    var tr := Trace(start, front);
    TraceSnoc(start, ops);
    hide Run, Trace, Start, StayOf;
    if j < |tr| {
      LeavesLate(start, front, j);
      assert Trace(start, ops)[..j] == tr[..j];
    } else {
      RunTold(start, front);
      hide Told, Sights;
      LeavesNow(Run(Start(start), front), tr, op, start, j);
    }
  }

  lemma LeavesNow(w: World, tr: seq<Sight>, op: Op, start: real, j: nat)
    requires Told(w, tr, start) && Handled(w, op)
    requires var tr' := TraceStep(w, tr, op, start); |tr| <= j < |tr'| && tr'[j].Left?
    ensures var tr' := TraceStep(w, tr, op, start);
      var s := StayOf(tr'[..j], tr'[j].k);
      s.Staying? && tr'[j].at - s.last >= 45.0
  {
    var t, c, b, last, order := w.s.tenancy, op.c, op.b, LastSwept(tr, start), op.order;
    var tr2, s1 := UptoLeaves(tr, t, c, b, last), Ingest(w.s, c, b);
    SightsParts(tr, t, c, b, last, order);
    NoneLeft(tr, t, c, b, last);
    BeforeLeaves(w, tr, c, b, start);
    hide Ingest, Sights, UptoLeaves, Told, StaysTold, DemosTold, PruneGates, PruneDemos, StayOf, StaleTracks;
    LeaveIsLate(s1.presence, tr2, c, t.walls, order, j - |tr2|);
  }

  lemma LeaveIsLate(pr: map<TrackKey, Presence>, tr: seq<Sight>, c: Moment, walls: map<int, seq<Wall>>,
                    order: seq<TrackKey>, i: nat)
    requires StaysTold(pr, tr) && Enumerates(order, StaleTracks(pr, c.now)) && i < |order|
    ensures var tr' := tr + Leaves(c, walls, order);
      var s := StayOf(tr'[..|tr| + i], order[i]);
      && tr'[|tr| + i] == Left(order[i], c.now, walls)
      && s.Staying? && c.now - s.last >= 45.0
  {
    var k, tr' := order[i], tr + Leaves(c, walls, order);
    assert k in StaleTracks(pr, c.now);
    assert tr'[..|tr| + i] == tr + Leaves(c, walls, order[..i]);
    LeavesAreStays(pr, tr, c, walls, order[..i]);
    assert k in pr - (set q | q in order[..i]);
    hide StayOf, Leaves;
    assert View(pr - (set q | q in order[..i]), k) == StayOf(tr'[..|tr| + i], k);
  }

  lemma NoneLeft(tr: seq<Sight>, t: Tenancy, c: Moment, b: Batch, last: real)
    ensures var tr2 := UptoLeaves(tr, t, c, b, last);
      |tr| <= |tr2| && forall i :: |tr| <= i < |tr2| ==> !tr2[i].Left?
  {
    AppearancesOnly(c, b);
    hide Appearances;
  }

  /** After a frame nobody unseen for 45 s is still here. */
  lemma {:induction false} NobodyOverstays(start: real, ops: seq<Op>, k: TrackKey)
    requires ops != [] && Handled(Run(Start(start), ops[..|ops| - 1]), ops[|ops| - 1])
    ensures var s := StayOf(Trace(start, ops), k); s.Staying? ==> ops[|ops| - 1].c.now - s.last < 45.0
  {
    RunTold(start, ops);
    var w, op := Run(Start(start), ops[..|ops| - 1]), ops[|ops| - 1];
    var w' := Run(Start(start), ops);
    assert w' == Step(w, op) && View(w'.s.presence, k) == StayOf(Trace(start, ops), k);
    hide Run, Trace, Start, StayOf, StaysTold, DemosTold;
    PresenceAfter(w, op);
  }

  /** What a frame leaves on the floor, and the clocks it leaves behind. */
  lemma PresenceAfter(w: World, op: Op)
    requires Handled(w, op)
    ensures forall k :: k in Step(w, op).s.presence ==> op.c.now - Step(w, op).s.presence[k].last < 45.0
    ensures forall q :: q in Step(w, op).s.spans ==> op.c.now - Step(w, op).s.spans[q].last < 120.0
    ensures op.c.now - Step(w, op).s.gates.pruned < 45.0
  {
    PrunedFrame(w, op);
    hide Step, Handled, Ingest, Enumerates, FlushState, FlushDue, Prune;
    var s := Prune(Ingest(w.s, op.c, op.b), op.c.now, op.order, op.spanOrder);
    PruneLeaves(Ingest(w.s, op.c, op.b), op.c.now, op.order, op.spanOrder);
    FlushKeepsFloor(s, op.c.now, op.ok);
  }

  lemma PrunedFrame(w: World, op: Op)
    requires Handled(w, op)
    ensures var s1 := Ingest(w.s, op.c, op.b);
      && Enumerates(op.order, StaleTracks(s1.presence, op.c.now))
      && Enumerates(op.spanOrder, StaleSpans(s1.spans, op.c.now)) && Orders(w, op.c, op.b, op.order, op.spanOrder)
      && var s, s' := Prune(s1, op.c.now, op.order, op.spanOrder), Step(w, op).s;
         s' == if FlushDue(s, op.c.now) then FlushState(s, op.c.now, op.ok) else s
  {
    hide Ingest, FlushTables, LostTables, FlushDue, Record, Prune, FlushState;
    OrdersOf(w, op.c, op.b, op.order, op.spanOrder, op.ok);
  }

  lemma FlushKeepsFloor(s: State, now: real, ok: bool)
    ensures var s' := FlushState(s, now, ok);
      s'.presence == s.presence && s'.spans == s.spans && s'.gates.pruned == s.gates.pruned && s'.lastFlush == now
  {
    hide NothingBuffered;
  }

  lemma PruneLeaves(s1: State, now: real, order: seq<TrackKey>, spanOrder: seq<SpanKey>)
    requires Enumerates(order, StaleTracks(s1.presence, now)) && Enumerates(spanOrder, StaleSpans(s1.spans, now))
    requires (forall k :: k in order ==> k in s1.presence) && forall q :: q in spanOrder ==> q in s1.spans
    ensures var s := Prune(s1, now, order, spanOrder);
      && (forall k :: k in s.presence ==> now - s.presence[k].last < 45.0)
      && (forall q :: q in s.spans ==> now - s.spans[q].last < 120.0)
      && now - s.gates.pruned < 45.0
  {
    assert forall k :: k in s1.presence && k !in order ==> k !in StaleTracks(s1.presence, now);
    assert forall q :: q in s1.spans && q !in spanOrder ==> q !in StaleSpans(s1.spans, now);
    hide CloseDwell, CloseSpans, ClosePaths, PruneDemos;
  }

  /** No frame leaves 90 s without an attempt to flush, nor 800 buffered cells. */
  lemma FlushInTime(w: World, op: Op)
    requires Handled(w, op)
    ensures var s := Step(w, op).s;
      s.lastFlush == op.c.now || (op.c.now - s.lastFlush < 90.0 && |s.buf| < 800)
  {
    PrunedFrame(w, op);
    hide Step, Handled, Ingest, Enumerates, Prune, FlushState;
    FlushKeepsFloor(Prune(Ingest(w.s, op.c, op.b), op.c.now, op.order, op.spanOrder), op.c.now, op.ok);
  }

  /** A flush that commits leaves nothing behind, path rows included; one that fails leaves every count and row. */
  lemma FlushEmpties(s: State, now: real, ok: bool)
    ensures var s' := FlushState(s, now, ok);
      if ok then
        && s'.buf.Keys == {} && s'.gates.visits.Keys == {} && s'.dwell.tracks.Keys == {} && s'.flow.Keys == {}
        && s'.demos.counts.Keys == {} && s'.paths == []
      else
        && s'.buf == s.buf && s'.gates.visits == s.gates.visits && s'.dwell == s.dwell && s'.flow == s.flow
        && s'.demos == s.demos && s'.paths == s.paths
  {
  }

  // ---- store visits -------------------------------------------------------------------------------------------

  /**
   A visit of q that ends after tr counts under b if and only if it began, at some p, in b's hour, and b is the
   store's own bucket. It counts for its whole milliseconds from p to the last sighting of q.
   */
  lemma VisitCounts(tr: seq<Glimpse>, q: SpanKey, at: real, b: Key) returns (p: nat, j: nat)
    ensures EndsVisit(tr, Finished(q, at), b)
      <==> VisitBegins(tr, q, p) && b == Bucket(q.0, "__store__", tr[p].hour)
    ensures VisitBegins(tr, q, p) ==>
      && p <= j && LastAround(tr, q, j)
      && VisitOf(tr, q).Visiting? && VisitOf(tr, q).first == tr[p].at && VisitOf(tr, q).last == tr[j].at
  {
    p, j := 0, 0;
    NowhereOrBegun(tr, q);
    if VisitOf(tr, q).Visiting? {
      p, j := VisitTells(tr, q);
    }
    hide VisitOf;
  }

  lemma NowhereOrBegun(tr: seq<Glimpse>, q: SpanKey)
    ensures VisitOf(tr, q).NoVisit? ==> forall p: nat :: !VisitBegins(tr, q, p)
  {
    NowhereTells(tr, q);
    hide VisitOf;
    if VisitOf(tr, q).NoVisit? {
      forall p: nat ensures !VisitBegins(tr, q, p) {
        if p < |tr| && AroundAs(tr[p], q) {
          var m :| p < m < |tr| && EndsAs(tr[m], q);
        }
      }
    }
  }

  /** A visit ends no earlier than 120 s after its last sighting, */
  lemma {:induction false} FinishesLate(start: real, ops: seq<Op>, j: nat)
    requires j < |VisitTrace(start, ops)| && VisitTrace(start, ops)[j].Finished?
    ensures var tr := VisitTrace(start, ops);
      var v := VisitOf(tr[..j], tr[j].q);
      v.Visiting? && tr[j].at - v.last >= 120.0
  {
    var front, op := ops[..|ops| - 1], ops[|ops| - 1];
    var w, tr := Run(Start(start), front), VisitTrace(start, front);
    RunVisits(start, front, Bucket(0, "", 0));
    hide Run, Start, VisitOf, VisitsSeen, BankedAt, BankedMs, VisitsEnded, VisitTime, Revokes, Glimpses, Finishes;
    if j < |tr| {
      FinishesLate(start, front, j);
      assert VisitTrace(start, ops)[..j] == tr[..j];
    } else {
      hide Handled;
      FinishesNow(w, tr, op, j);
    }
  }

  lemma FinishesNow(w: World, tr: seq<Glimpse>, op: Op, j: nat)
    requires VisitsSeen(w.s.spans, tr) && Handled(w, op)
    requires var tr' := tr + (Revokes(op.c, op.b.staff) + Glimpses(op.c, op.b.spKeys) + Finishes(op.c, op.spanOrder));
      |tr| <= j < |tr'| && tr'[j].Finished?
    ensures var tr' := tr + (Revokes(op.c, op.b.staff) + Glimpses(op.c, op.b.spKeys) + Finishes(op.c, op.spanOrder));
      var v := VisitOf(tr'[..j], tr'[j].q);
      v.Visiting? && tr'[j].at - v.last >= 120.0
  {
    var c, b, order := op.c, op.b, op.spanOrder;
    var tr' := tr + (Revokes(c, b.staff) + Glimpses(c, b.spKeys) + Finishes(c, order));
    var spans := ExtendSpans(DropSpans(w.s.spans, c, b.staff), c, b.spKeys);
    assert spans == Ingest(w.s, c, b).spans;
    RevokesAreSeen(w.s.spans, tr, c, b.staff);
    GlimpsesAreSeen(DropSpans(w.s.spans, c, b.staff), tr + Revokes(c, b.staff), c, b.spKeys);
    NoneFinished(c, b.staff, b.spKeys);
    var tr2 := tr + Revokes(c, b.staff) + Glimpses(c, b.spKeys);
    assert tr' == tr2 + Finishes(c, order);
    var i, q := j - |tr2|, order[j - |tr2|];
    assert q in order && q in StaleSpans(spans, c.now);
    hide Ingest, Revokes, Glimpses, DropSpans, ExtendSpans;
    assert tr'[..j] == tr2 + Finishes(c, order[..i]) && tr'[j] == Finished(q, c.now);
    FinishesAreSeen(spans, tr2, c, order[..i]);
    assert q in spans - (set x | x in order[..i]);
    assert SpanView(spans - (set x | x in order[..i]), q) == VisitOf(tr'[..j], q);
  }

  /** and after a frame no shopper unseen for 120 s is still visiting. */
  lemma {:induction false} NoVisitOverstays(start: real, ops: seq<Op>, q: SpanKey)
    requires ops != [] && Handled(Run(Start(start), ops[..|ops| - 1]), ops[|ops| - 1])
    ensures var v := VisitOf(VisitTrace(start, ops), q); v.Visiting? ==> ops[|ops| - 1].c.now - v.last < 120.0
  {
    RunVisits(start, ops, Bucket(0, "", 0));
    var w, op := Run(Start(start), ops[..|ops| - 1]), ops[|ops| - 1];
    var w' := Run(Start(start), ops);
    assert w' == Step(w, op) && SpanView(w'.s.spans, q) == VisitOf(VisitTrace(start, ops), q);
    hide Run, VisitTrace, Start, VisitOf, VisitsSeen;
    PresenceAfter(w, op);
  }

  // ---- prunes of the gate memory ----------------------------------------------------------------------------

  function SweepTimes(ev: seq<GateEvent>): seq<real> {
    if ev == [] then [] else SweepTimes(ev[..|ev| - 1]) + if ev[|ev| - 1].Sweep? then [ev[|ev| - 1].at] else []
  }

  function SweptTimes(tr: seq<Sight>): seq<real> {
    if tr == [] then [] else SweptTimes(tr[..|tr| - 1]) + if tr[|tr| - 1].Swept? then [tr[|tr| - 1].at] else []
  }

  lemma {:induction false} SweepTimesConcat(a: seq<GateEvent>, b: seq<GateEvent>)
    ensures SweepTimes(a + b) == SweepTimes(a) + SweepTimes(b)
  {
    if b == [] {
      assert a + b == a;
    } else {
      SweepTimesConcat(a, b[..|b| - 1]);
      assert (a + b)[..|a + b| - 1] == a + b[..|b| - 1];
    }
  }

  lemma {:induction false} SweptTimesConcat(a: seq<Sight>, b: seq<Sight>)
    ensures SweptTimes(a + b) == SweptTimes(a) + SweptTimes(b)
  {
    if b == [] {
      assert a + b == a;
    } else {
      SweptTimesConcat(a, b[..|b| - 1]);
      assert (a + b)[..|a + b| - 1] == a + b[..|b| - 1];
    }
  }

  lemma {:induction false} NoSweeps(tr: seq<Sight>)
    requires forall i :: 0 <= i < |tr| ==> !tr[i].Swept?
    ensures SweptTimes(tr) == []
  {
    if tr != [] {
      NoSweeps(tr[..|tr| - 1]);
    }
  }

  lemma {:induction false} NoGateSweeps(c: Moment, marks: seq<(Option<int>, Option<int>)>, hits: seq<(VisitKey, bool)>)
    ensures SweepTimes(GateBadges(c, marks)) == [] && SweepTimes(GateHits(c, hits)) == []
    decreases |marks|, |hits|
  {
    if marks != [] {
      NoGateSweeps(c, marks[..|marks| - 1], []);
      var k := StaffKey(c, marks[|marks| - 1]);
      SweepTimesConcat(GateBadges(c, marks[..|marks| - 1]), if k.Some? then [Badge(k.value, c.now)] else []);
    }
    if hits != [] {
      NoGateSweeps(c, [], hits[..|hits| - 1]);
      assert GateHits(c, hits)[..|GateHits(c, hits)| - 1] == GateHits(c, hits[..|hits| - 1]);
    }
  }

  lemma SightSweeps(t: Tenancy, c: Moment, b: Batch, last: real, order: seq<TrackKey>)
    ensures SweptTimes(Sights(t, c, b, last, order)) == if c.now - last >= 45.0 then [c.now] else []
  {
    AppearancesOnly(c, b);
    NoSweeps(Appearances(c, b));
    NoSweeps(Classes(c, b.demos));
    NoSweeps(Steps(t, c, b));
    NoSweeps(Cells(c, b.cells));
    NoSweeps(Leaves(c, t.walls, order));
    var swept := Sweep45(c.now, last);
    assert swept == [] || swept[..0] == [];
    assert SweptTimes(swept) == if c.now - last >= 45.0 then [c.now] else [];
    hide Appearances, Classes, Steps, Cells, Leaves, Sweep45, SweptTimes;
    SweptTimesConcat(Appearances(c, b), Classes(c, b.demos));
    var x := Appearances(c, b) + Classes(c, b.demos);
    SweptTimesConcat(x, Steps(t, c, b));
    SweptTimesConcat(x + Steps(t, c, b), Cells(c, b.cells));
    SweptTimesConcat(x + Steps(t, c, b) + Cells(c, b.cells), swept);
    SweptTimesConcat(x + Steps(t, c, b) + Cells(c, b.cells) + swept, Leaves(c, t.walls, order));
  }

  lemma GateSweeps(g: Gates, c: Moment, b: Batch)
    ensures SweepTimes(GateEvents(g, c, b)) == if c.now - g.pruned >= 45.0 then [c.now] else []
  {
    NoGateSweeps(c, b.staff, b.gateHits);
    var x := GateBadges(c, b.staff) + GateHits(c, b.gateHits);
    SweepTimesConcat(GateBadges(c, b.staff), GateHits(c, b.gateHits));
    hide GateBadges, GateHits;
    var y: seq<GateEvent> := if GatePruneDue(g, c.now) then [Sweep(c.now)] else [];
    SweepTimesConcat(x, y);
    assert y == [] || y[..0] == [];
    assert GateEvents(g, c, b) == x + y;
  }

  /** Over any run the gate memory is pruned at the times of the list: by the first frame 45 s after the last time. */
  lemma {:induction false} PrunesExactly(start: real, ops: seq<Op>)
    ensures SweepTimes(Run(Start(start), ops).log.gates) == SweptTimes(Trace(start, ops))
  {
    if ops != [] {
      var front, op := ops[..|ops| - 1], ops[|ops| - 1];
      PrunesExactly(start, front);
      RunTold(start, front);
      TraceSnoc(start, ops);
      var w, tr := Run(Start(start), front), Trace(start, front);
      assert w.s.gates.pruned == LastSwept(tr, start);
      hide Run, Trace, Start, Told, LastSwept, Sights, SweepTimes, SweptTimes;
      if Handled(w, op) {
        PrunedStays(w.s.gates, op.c, op.b);
        FrameGates(w, op);
        var last := LastSwept(tr, start);
        SweptTimesConcat(tr, Sights(w.s.tenancy, op.c, op.b, last, op.order));
        SightSweeps(w.s.tenancy, op.c, op.b, last, op.order);
      } else {
        OtherGates(w, op);
      }
    }
  }

  lemma FrameGates(w: World, op: Op)
    requires Handled(w, op)
    ensures SweepTimes(Step(w, op).log.gates)
      == SweepTimes(w.log.gates) + if op.c.now - w.s.gates.pruned >= 45.0 then [op.c.now] else []
  {
    PrunedStays(w.s.gates, op.c, op.b);
    var s1, w1 := Ingest(w.s, op.c, op.b), Step(w, op);
    assert s1.gates.pruned == w.s.gates.pruned;
    OrdersOf(w, op.c, op.b, op.order, op.spanOrder, op.ok);
    hide Ingest, SweepTimes, FlushState, FlushTables, LostTables, FlushDue, Prune, NothingBuffered;
    var ev := w.log.gates + GateEvents(s1.gates, op.c, op.b);
    assert w1.log.gates == ev || exists ok :: w1.log.gates == ev + [Attempt(ok)];
    hide Step, Handled, GateEvents;
    GateSweeps(s1.gates, op.c, op.b);
    SweepTimesConcat(w.log.gates, GateEvents(s1.gates, op.c, op.b));
    if ok :| w1.log.gates == ev + [Attempt(ok)] {
      AttemptSweeps(ev, ok);
    }
  }

  lemma AttemptSweeps(ev: seq<GateEvent>, ok: bool)
    ensures SweepTimes(ev + [Attempt(ok)]) == SweepTimes(ev)
  {
    assert (ev + [Attempt(ok)])[..|ev|] == ev;
  }

  lemma OtherGates(w: World, op: Op)
    requires !Handled(w, op)
    ensures SweepTimes(Step(w, op).log.gates) == SweepTimes(w.log.gates)
  {
    hide FlushState, FlushTables, LostTables;
    if op.Flush? {
      AttemptSweeps(w.log.gates, op.ok);
    }
  }

  // ---- what lookups leave behind -----------------------------------------------------------------------------

  /** The last lookup of the store that found an organization. */
  function LastOrg(ops: seq<Op>, store: int): Option<int> {
    if ops == [] then None
    else
      var op := ops[|ops| - 1];
      if op.Lookup? && op.store == store && op.org.Some? then op.org else LastOrg(ops[..|ops| - 1], store)
  }

  /** The last lookup of any of the store's cameras. */
  function LastWalls(ops: seq<Op>, store: int): Option<seq<Wall>> {
    if ops == [] then None
    else
      var op := ops[|ops| - 1];
      if op.Lookup? && op.store == store then Some(op.walls) else LastWalls(ops[..|ops| - 1], store)
  }

  /** The last lookup of the camera that found it on the plan. */
  function LastPlace(ops: seq<Op>, store: int, camera: string): Option<Point> {
    if ops == [] then None
    else
      var op := ops[|ops| - 1];
      if op.Lookup? && op.store == store && op.camera == camera && op.pos.Some? then op.pos
      else LastPlace(ops[..|ops| - 1], store, camera)
  }

  /** Over any run a store's organization and walls and a camera's place are those of the last lookup that had them. */
  lemma {:induction false} LookupsExactly(start: real, ops: seq<Op>, store: int, camera: string)
    ensures var t := Run(Start(start), ops).s.tenancy;
      && LastOrg(ops, store) == (if store in t.orgs then Some(t.orgs[store]) else None)
      && LastWalls(ops, store) == (if store in t.walls then Some(t.walls[store]) else None)
      && LastPlace(ops, store, camera)
           == (if (store, camera) in t.camPos then Some(t.camPos[(store, camera)]) else None)
  {
    if ops != [] {
      var front, op := ops[..|ops| - 1], ops[|ops| - 1];
      LookupsExactly(start, front, store, camera);
      var w := Run(Start(start), front);
      assert Run(Start(start), ops) == Step(w, op);
      hide Run, Start;
      if !op.Lookup? {
        TenancyStays(w, op);
      }
    }
  }

  lemma TenancyStays(w: World, op: Op)
    requires !op.Lookup?
    ensures Step(w, op).s.tenancy == w.s.tenancy
  {
    hide StepFlush, StepTake, FlushDue;
    if op.Flush? {
      FlushKeepsTenancy(w, op.now, op.ok);
    } else if ValidOp(w, op) {
      TakeKeepsTenancy(w, op.c, op.b, op.order, op.spanOrder);
      FlushKeepsTenancy(StepTake(w, op.c, op.b, op.order, op.spanOrder), op.c.now, op.ok);
    }
  }

  lemma FlushKeepsTenancy(w: World, now: real, ok: bool)
    ensures StepFlush(w, now, ok).s.tenancy == w.s.tenancy
  {
    hide FlushTables, LostTables, NothingBuffered;
  }

  lemma TakeKeepsTenancy(w: World, c: Moment, b: Batch, order: seq<TrackKey>, spanOrder: seq<SpanKey>)
    requires forall k :: k in order ==> k in Ingest(w.s, c, b).presence
    requires forall k :: k in spanOrder ==> k in Ingest(w.s, c, b).spans
    ensures StepTake(w, c, b, order, spanOrder).s.tenancy == w.s.tenancy
  {
    hide BumpAll, HitGates, CancelVisits, CountDemos, CountFlows, OnFloor, EnterAll, ExtendSpans, DropSpans, Record;
    hide PruneGates, PruneDemos, CloseDwell, CloseSpans, ClosePaths;
  }
}
