/**
 Every run of the aggregator told as one list of sightings, and its results against that list: the time, store and
 hour of every stay, its rows, the steps between cells, the classifications, and when stays are closed.
 */
module FootfallHistory {
  import opened Geometry
  import opened Options
  import opened Tally
  import opened PathSplit
  import opened Sequences
  import opened FootfallModel
  import opened FootfallEvents
  import opened FootfallEffects
  import opened FootfallWorld
  import opened FootfallRuns
  import opened FootfallStays
  import opened FootfallTraces
  import opened FootfallVisits

  // ---- the list of a run --------------------------------------------------------------------------------

  /** What a batch shows before anyone is classified. */
  function Appearances(c: Moment, b: Batch): seq<Sight> {
    Badges(c, b.staff) + Visibles(c, b.present) + Links(c, b.spKeys)
  }

  /** The walls of the frame's store and the place of its camera, as far as they are known. */
  function Steps(t: Tenancy, c: Moment, b: Batch): seq<Sight> {
    Walks(c, if c.store in t.walls then t.walls[c.store] else [],
          if (c.store, c.camera) in t.camPos then Some(t.camPos[(c.store, c.camera)]) else None, b.points)
  }

  function Sweep45(at: real, last: real): seq<Sight> {
    if at - last >= 45.0 then [Swept(at)] else []
  }

  function Sights(t: Tenancy, c: Moment, b: Batch, last: real, order: seq<TrackKey>): seq<Sight> {
    Appearances(c, b) + Classes(c, b.demos) + Steps(t, c, b) + Cells(c, b.cells) + Sweep45(c.now, last)
    + Leaves(c, t.walls, order)
  }

  /** A frame with something in it is handled. */
  ghost predicate Handled(w: World, op: Op) {
    op.Take? && ValidOp(w, op) && !(op.b.pending == [] && op.b.present == [] && op.b.staff == [])
  }

  ghost function Trace(start: real, ops: seq<Op>): seq<Sight> {
    if ops == [] then []
    else
      var front, op := ops[..|ops| - 1], ops[|ops| - 1];
      var w, tr := Run(Start(start), front), Trace(start, front);
      if Handled(w, op) then tr + Sights(w.s.tenancy, op.c, op.b, LastSwept(tr, start), op.order) else tr
  }

  ghost function VisitTrace(start: real, ops: seq<Op>): seq<Glimpse> {
    if ops == [] then []
    else
      var front, op := ops[..|ops| - 1], ops[|ops| - 1];
      var tr := VisitTrace(start, front);
      if Handled(Run(Start(start), front), op)
      then tr + (Revokes(op.c, op.b.staff) + Glimpses(op.c, op.b.spKeys) + Finishes(op.c, op.spanOrder))
      else tr
  }

  // ---- sightings that do not matter to a sum ----------------------------------------------------------------

  lemma {:induction false} StepsSkip(tr: seq<Sight>, x: seq<Sight>, store: int, camera: string, hour: int, a: nat,
                                     b: nat)
    requires forall i :: 0 <= i < |x| ==> !x[i].Entered?
    ensures StepsTaken(tr + x, store, camera, hour, a, b) == StepsTaken(tr, store, camera, hour, a, b)
  {
    if x == [] {
      assert tr + x == tr;
    } else {
      StepsSkip(tr, x[..|x| - 1], store, camera, hour, a, b);
      StepsSnoc(tr + x[..|x| - 1], x[|x| - 1], store, camera, hour, a, b);
      assert tr + x == tr + x[..|x| - 1] + [x[|x| - 1]];
    }
  }

  lemma {:induction false} NewcomersSkip(tr: seq<Sight>, x: seq<Sight>, store: int, camera: string, hour: int,
                                         gender: string, age: string)
    requires forall i :: 0 <= i < |x| ==> !x[i].Classified?
    ensures Newcomers(tr + x, store, camera, hour, gender, age) == Newcomers(tr, store, camera, hour, gender, age)
  {
    if x == [] {
      assert tr + x == tr;
    } else {
      NewcomersSkip(tr, x[..|x| - 1], store, camera, hour, gender, age);
      assert (tr + x)[..|tr + x| - 1] == tr + x[..|x| - 1];
      hide StillKnown;
    }
  }

  lemma {:induction false} EndsSkip(tr: seq<Sight>, x: seq<Sight>, b: Key)
    requires forall i :: 0 <= i < |x| ==> !x[i].Left?
    ensures StaysEnded(tr + x, b) == StaysEnded(tr, b) && TimeEnded(tr + x, b) == TimeEnded(tr, b)
    ensures RowsEnded(tr + x) == RowsEnded(tr)
  {
    if x == [] {
      assert tr + x == tr;
    } else {
      EndsSkip(tr, x[..|x| - 1], b);
      assert (tr + x)[..|tr + x| - 1] == tr + x[..|x| - 1];
      hide StayOf;
    }
  }

  /** The memory of classifications moves with classifications and prunes alone. */
  lemma {:induction false} KnownSkip(tr: seq<Sight>, x: seq<Sight>, k: TrackKey, start: real)
    requires forall i :: 0 <= i < |x| ==> !x[i].Classified? && !x[i].Swept?
    ensures StillKnown(tr + x, k) == StillKnown(tr, k) && LastClassified(tr + x, k) == LastClassified(tr, k)
    ensures LastSwept(tr + x, start) == LastSwept(tr, start)
  {
    if x == [] {
      assert tr + x == tr;
    } else {
      KnownSkip(tr, x[..|x| - 1], k, start);
      assert (tr + x)[..|tr + x| - 1] == tr + x[..|x| - 1];
    }
  }

  lemma {:induction false} SweptSkip(tr: seq<Sight>, x: seq<Sight>, start: real)
    requires forall i :: 0 <= i < |x| ==> !x[i].Swept?
    ensures LastSwept(tr + x, start) == LastSwept(tr, start)
  {
    if x == [] {
      assert tr + x == tr;
    } else {
      SweptSkip(tr, x[..|x| - 1], start);
      assert (tr + x)[..|tr + x| - 1] == tr + x[..|x| - 1];
    }
  }

  lemma {:induction false} NotesOnly(c: Moment, marks: seq<(Option<int>, Option<int>)>, es: seq<(int, Option<int>)>)
    ensures forall i :: 0 <= i < |Badges(c, marks)| ==> Badges(c, marks)[i].BadgeSeen?
    ensures forall i :: 0 <= i < |Links(c, es)| ==> Links(c, es)[i].Recognized?
    decreases |marks|, |es|
  {
    if marks != [] {
      NotesOnly(c, marks[..|marks| - 1], []);
    }
    if es != [] {
      NotesOnly(c, [], es[..|es| - 1]);
    }
  }

  predicate Appears(e: Sight) {
    e.BadgeSeen? || e.Seen? || e.Recognized?
  }

  lemma AppearancesOnly(c: Moment, b: Batch)
    ensures forall i :: 0 <= i < |Appearances(c, b)| ==> Appears(Appearances(c, b)[i])
  {
    NotesOnly(c, b.staff, b.spKeys);
  }

  // ---- one batch ----------------------------------------------------------------------------------------------

  /** Up to the classifications, up to the walked points, and up to the cells. */
  function Upto(tr: seq<Sight>, c: Moment, b: Batch): seq<Sight> {
    tr + Appearances(c, b)
  }

  function UptoSteps(tr: seq<Sight>, t: Tenancy, c: Moment, b: Batch): seq<Sight> {
    Upto(tr, c, b) + Classes(c, b.demos) + Steps(t, c, b)
  }

  lemma BatchStays(s: State, tr: seq<Sight>, c: Moment, b: Batch)
    requires StaysTold(s.presence, tr)
    ensures StaysTold(OnFloor(s, c, b), UptoSteps(tr, s.tenancy, c, b))
    ensures StaysTold(Ingest(s, c, b).presence, UptoSteps(tr, s.tenancy, c, b) + Cells(c, b.cells))
  {
    var marked := MarkAllStaff(s.presence, c, b.staff);
    MarksAreStays(s.presence, tr, c, b.staff);
    var tr1 := tr + Badges(c, b.staff);
    VisiblesAreStays(marked, tr1, c, b.present);
    var touched, tr2 := TouchAll(marked, c, b.present), tr1 + Visibles(c, b.present);
    LinksAreStays(touched, tr2, c, b.spKeys);
    var linked, tr3 := LinkAll(touched, c, b.spKeys), tr2 + Links(c, b.spKeys);
    assert tr3 == Upto(tr, c, b);
    ClassesAreStays(linked, tr3, c, b.demos);
    var stamped, tr4 := StampAll(linked, c, b.demos), tr3 + Classes(c, b.demos);
    var walls, camera := WallsOf(s.tenancy, c.store), CameraOf(s.tenancy, c.store, c.camera);
    WalksAreStays(stamped, tr4, c, walls, camera, b.points);
    assert Steps(s.tenancy, c, b) == Walks(c, walls, camera, b.points);
    var floor := SampleAll(stamped, c, walls, camera, b.points);
    assert floor == OnFloor(s, c, b);
    CellsAreStays(floor, UptoSteps(tr, s.tenancy, c, b), c, b.cells);
    hide MarkAllStaff, TouchAll, LinkAll, StampAll, SampleAll, EnterAll, StaysTold;
  }

  lemma BatchSteps(s: State, tr: seq<Sight>, c: Moment, b: Batch, store: int, camera: string, hour: int, x: nat, y: nat)
    requires StaysTold(s.presence, tr)
    ensures StepsTaken(UptoSteps(tr, s.tenancy, c, b) + Cells(c, b.cells), store, camera, hour, x, y)
      == StepsTaken(tr, store, camera, hour, x, y)
         + Count(FlowEvents(OnFloor(s, c, b), c, b.cells), Edge(store, camera, hour, x, y))
  {
    BatchStays(s, tr, c, b);
    AppearancesOnly(c, b);
    StepsSkip(tr, Appearances(c, b), store, camera, hour, x, y);
    StepsSkip(Upto(tr, c, b), Classes(c, b.demos), store, camera, hour, x, y);
    StepsSkip(Upto(tr, c, b) + Classes(c, b.demos), Steps(s.tenancy, c, b), store, camera, hour, x, y);
    hide StaysTold, OnFloor, StepsTaken, Appearances, Cells, Count, FlowEvents;
    FlowsAreSteps(OnFloor(s, c, b), UptoSteps(tr, s.tenancy, c, b), c, b.cells, store, camera, hour, x, y);
  }

  lemma BatchNewcomers(s: State, tr: seq<Sight>, c: Moment, b: Batch, store: int, camera: string, hour: int,
                       gender: string, age: string)
    requires DemosTold(s.demos, tr)
    ensures DemosTold(CountDemos(s.demos, c, b.demos), UptoSteps(tr, s.tenancy, c, b) + Cells(c, b.cells))
    ensures Newcomers(UptoSteps(tr, s.tenancy, c, b) + Cells(c, b.cells), store, camera, hour, gender, age)
      == Newcomers(tr, store, camera, hour, gender, age)
         + Count(DemoEvents(s.demos, c, b.demos), Demo(store, camera, hour, gender, age))
  {
    AppearancesOnly(c, b);
    DemosSkip(s.demos, tr, Appearances(c, b));
    var tr1 := Upto(tr, c, b);
    ClassesAreKnown(s.demos, tr1, c, b.demos);
    var g, tr2, tr3 := CountDemos(s.demos, c, b.demos), tr1 + Classes(c, b.demos), UptoSteps(tr, s.tenancy, c, b);
    DemosSkip(g, tr2, Steps(s.tenancy, c, b));
    DemosSkip(g, tr3, Cells(c, b.cells));
    NewcomersSkip(tr, Appearances(c, b), store, camera, hour, gender, age);
    DemosAreNewcomers(s.demos, tr1, c, b.demos, store, camera, hour, gender, age);
    NewcomersSkip(tr2, Steps(s.tenancy, c, b), store, camera, hour, gender, age);
    NewcomersSkip(tr3, Cells(c, b.cells), store, camera, hour, gender, age);
    hide DemosTold, CountDemos, Newcomers, Appearances, Count, DemoEvents, Classes;
  }

  lemma DemosSkip(g: Demos, tr: seq<Sight>, x: seq<Sight>)
    requires DemosTold(g, tr) && forall i :: 0 <= i < |x| ==> !x[i].Classified? && !x[i].Swept?
    ensures DemosTold(g, tr + x)
  {
    forall k ensures StillKnown(tr + x, k) == StillKnown(tr, k) && LastClassified(tr + x, k) == LastClassified(tr, k) {
      KnownSkip(tr, x, k, 0.0);
    }
  }

  lemma BatchEnds(tr: seq<Sight>, t: Tenancy, c: Moment, b: Batch, key: Key, last: real)
    ensures var tr' := UptoLeaves(tr, t, c, b, last);
      StaysEnded(tr', key) == StaysEnded(tr, key) && TimeEnded(tr', key) == TimeEnded(tr, key)
      && RowsEnded(tr') == RowsEnded(tr)
  {
    AppearancesOnly(c, b);
    hide Appearances, StaysEnded, TimeEnded, RowsEnded;
    EndsSkip(tr, Appearances(c, b), key);
    EndsSkip(Upto(tr, c, b), Classes(c, b.demos), key);
    EndsSkip(Upto(tr, c, b) + Classes(c, b.demos), Steps(t, c, b), key);
    EndsSkip(UptoSteps(tr, t, c, b), Cells(c, b.cells), key);
    EndsSkip(UptoSteps(tr, t, c, b) + Cells(c, b.cells), Sweep45(c.now, last), key);
  }

  lemma BatchSwept(tr: seq<Sight>, t: Tenancy, c: Moment, b: Batch, start: real)
    ensures LastSwept(UptoSteps(tr, t, c, b) + Cells(c, b.cells), start) == LastSwept(tr, start)
  {
    AppearancesOnly(c, b);
    hide Appearances, LastSwept;
    SweptSkip(tr, Appearances(c, b), start);
    SweptSkip(Upto(tr, c, b), Classes(c, b.demos), start);
    SweptSkip(Upto(tr, c, b) + Classes(c, b.demos), Steps(t, c, b), start);
    SweptSkip(UptoSteps(tr, t, c, b), Cells(c, b.cells), start);
  }

  // ---- the prunes -------------------------------------------------------------------------------------------

  /** A prune is no sighting of any track, and lets go of those classified 45 s ago. */
  lemma SweepTells(pr: map<TrackKey, Presence>, g: Gates, d: Demos, tr: seq<Sight>, now: real, start: real)
    requires StaysTold(pr, tr) && DemosTold(d, tr) && g.pruned == LastSwept(tr, start)
    ensures var tr' := tr + Sweep45(now, LastSwept(tr, start));
      && StaysTold(pr, tr') && DemosTold(PruneDemos(g, d, now), tr')
      && PruneGates(g, now).pruned == LastSwept(tr', start)
  {
    var tr' := tr + Sweep45(now, LastSwept(tr, start));
    if now - g.pruned >= 45.0 {
      assert tr' == tr + [Swept(now)] && tr'[..|tr|] == tr;
      forall k ensures StayOf(tr', k) == StayOf(tr, k) {
      }
    } else {
      assert tr' == tr;
    }
  }

  lemma LeavesSkip(d: Demos, tr: seq<Sight>, c: Moment, walls: map<int, seq<Wall>>, order: seq<TrackKey>, start: real)
    requires DemosTold(d, tr)
    ensures DemosTold(d, tr + Leaves(c, walls, order))
    ensures LastSwept(tr + Leaves(c, walls, order), start) == LastSwept(tr, start)
  {
    DemosSkip(d, tr, Leaves(c, walls, order));
    SweptSkip(tr, Leaves(c, walls, order), start);
  }

  // ---- runs ---------------------------------------------------------------------------------------------------

  /** Dictionaries, logs and clocks say what the list says. */
  ghost predicate Told(w: World, tr: seq<Sight>, start: real) {
    StaysTold(w.s.presence, tr) && DemosTold(w.s.demos, tr) && w.s.gates.pruned == LastSwept(tr, start)
  }

  ghost predicate StepsAgree(w: World, tr: seq<Sight>, store: int, camera: string, hour: int, a: nat, b: nat) {
    Count(w.log.flow, Edge(store, camera, hour, a, b)) == StepsTaken(tr, store, camera, hour, a, b)
  }

  ghost predicate NewcomersAgree(w: World, tr: seq<Sight>, store: int, camera: string, hour: int, gender: string,
                                 age: string) {
    Count(w.log.demo, Demo(store, camera, hour, gender, age)) == Newcomers(tr, store, camera, hour, gender, age)
  }

  ghost predicate EndsAgree(w: World, tr: seq<Sight>, b: Key) {
    && BankedAt(w.log.life, b) == StaysEnded(tr, b) && BankedMs(w.log.life, b) == TimeEnded(tr, b)
    && w.log.paths == RowsEnded(tr)
  }

  /** The list after a frame, in the parts the lemmas above follow. */
  lemma SightsParts(tr: seq<Sight>, t: Tenancy, c: Moment, b: Batch, last: real, order: seq<TrackKey>)
    ensures tr + Sights(t, c, b, last, order)
      == UptoLeaves(tr, t, c, b, last) + Leaves(c, t.walls, order)
  {
    hide Appearances, Classes, Steps, Cells, Sweep45, Leaves;
  }

  /** The list up to the end of the prunes of a frame. */
  function UptoLeaves(tr: seq<Sight>, t: Tenancy, c: Moment, b: Batch, last: real): seq<Sight> {
    UptoSteps(tr, t, c, b) + Cells(c, b.cells) + Sweep45(c.now, last)
  }

  lemma BeforeLeaves(w: World, tr: seq<Sight>, c: Moment, b: Batch, start: real)
    requires Told(w, tr, start)
    ensures var s1, tr2 := Ingest(w.s, c, b), UptoLeaves(tr, w.s.tenancy, c, b, LastSwept(tr, start));
      && s1.tenancy == w.s.tenancy && StaysTold(s1.presence, tr2)
      && DemosTold(PruneDemos(s1.gates, s1.demos, c.now), tr2)
      && PruneGates(s1.gates, c.now).pruned == LastSwept(tr2, start)
  {
    var s1 := Ingest(w.s, c, b);
    var tr1 := UptoSteps(tr, w.s.tenancy, c, b) + Cells(c, b.cells);
    BatchStays(w.s, tr, c, b);
    BatchNewcomers(w.s, tr, c, b, 0, "", 0, "", "");
    BatchSwept(tr, w.s.tenancy, c, b, start);
    PrunedStays(w.s.gates, c, b);
    assert s1.demos == CountDemos(w.s.demos, c, b.demos);
    hide Ingest, StaysTold, DemosTold, LastSwept, UptoSteps, Cells, Sweep45, PruneGates, PruneDemos, CountDemos;
    SweepTells(s1.presence, s1.gates, s1.demos, tr1, c.now, start);
  }

  lemma TakeTold(w: World, tr: seq<Sight>, c: Moment, b: Batch, order: seq<TrackKey>, spanOrder: seq<SpanKey>,
                 start: real)
    requires Told(w, tr, start) && Orders(w, c, b, order, spanOrder)
    ensures var tr' := tr + Sights(w.s.tenancy, c, b, LastSwept(tr, start), order);
      Told(StepTake(w, c, b, order, spanOrder), tr', start)
  {
    var last := LastSwept(tr, start);
    var s1, tr2 := Ingest(w.s, c, b), UptoLeaves(tr, w.s.tenancy, c, b, last);
    BeforeLeaves(w, tr, c, b, start);
    SightsParts(tr, w.s.tenancy, c, b, last, order);
    hide Ingest, StaysTold, DemosTold, LastSwept, UptoLeaves, Sights, Leaves, PruneGates, PruneDemos, Record;
    hide CloseDwell, CloseSpans, ClosePaths;
    LeavesAreStays(s1.presence, tr2, c, w.s.tenancy.walls, order);
    LeavesSkip(PruneDemos(s1.gates, s1.demos, c.now), tr2, c, w.s.tenancy.walls, order, start);
  }

  lemma {:induction false} PrunedStays(g: Gates, c: Moment, b: Batch)
    ensures HitGates(CancelVisits(g, c, b.staff), c, b.gateHits).pruned == g.pruned
  {
    CancelKeepsPruned(g, c, b.staff);
    HitsKeepPruned(CancelVisits(g, c, b.staff), c, b.gateHits);
  }

  lemma {:induction false} CancelKeepsPruned(g: Gates, c: Moment, marks: seq<(Option<int>, Option<int>)>)
    ensures CancelVisits(g, c, marks).pruned == g.pruned
  {
    if marks != [] {
      CancelKeepsPruned(g, c, marks[..|marks| - 1]);
    }
  }

  lemma {:induction false} HitsKeepPruned(g: Gates, c: Moment, hits: seq<(VisitKey, bool)>)
    ensures HitGates(g, c, hits).pruned == g.pruned
  {
    if hits != [] {
      HitsKeepPruned(g, c, hits[..|hits| - 1]);
    }
  }

  lemma FlushTold(w: World, tr: seq<Sight>, now: real, ok: bool, start: real)
    requires Told(w, tr, start)
    ensures Told(StepFlush(w, now, ok), tr, start)
  {
    hide StaysTold, FlushTables, LostTables;
    assert StepFlush(w, now, ok).s.demos.seen == w.s.demos.seen;
  }

  /** Over any run the presences, the memories and the prune clock are what the list of sightings says. */
  lemma {:induction false} RunTold(start: real, ops: seq<Op>)
    ensures Told(Run(Start(start), ops), Trace(start, ops), start)
  {
    if ops != [] {
      var front, op := ops[..|ops| - 1], ops[|ops| - 1];
      RunTold(start, front);
      var w, tr := Run(Start(start), front), Trace(start, front);
      assert Run(Start(start), ops) == Step(w, op);
      assert Trace(start, ops)
        == if Handled(w, op) then tr + Sights(w.s.tenancy, op.c, op.b, LastSwept(tr, start), op.order) else tr;
      hide Run, Trace, Told, Sights, LastSwept, Start;
      StepTold(w, tr, op, start);
    }
  }

  lemma StepTold(w: World, tr: seq<Sight>, op: Op, start: real)
    requires Told(w, tr, start)
    ensures Told(Step(w, op),
      if Handled(w, op) then tr + Sights(w.s.tenancy, op.c, op.b, LastSwept(tr, start), op.order) else tr, start)
  {
    hide Sights, LastSwept, StaysTold, DemosTold, StepFlush, StepTake, FlushDue;
    if Handled(w, op) {
      assert Orders(w, op.c, op.b, op.order, op.spanOrder);
      TakeTold(w, tr, op.c, op.b, op.order, op.spanOrder, start);
      var w1 := StepTake(w, op.c, op.b, op.order, op.spanOrder);
      var tr1 := tr + Sights(w.s.tenancy, op.c, op.b, LastSwept(tr, start), op.order);
      FlushTold(w1, tr1, op.c.now, op.ok, start);
    } else if op.Flush? {
      FlushTold(w, tr, op.now, op.ok, start);
    }
  }

  // ---- the sums, over any run -----------------------------------------------------------------------------

  lemma TakeSteps(w: World, tr: seq<Sight>, c: Moment, b: Batch, order: seq<TrackKey>, spanOrder: seq<SpanKey>,
                  last: real, store: int, camera: string, hour: int, x: nat, y: nat)
    requires StaysTold(w.s.presence, tr) && Orders(w, c, b, order, spanOrder)
      && StepsAgree(w, tr, store, camera, hour, x, y)
    ensures StepsAgree(StepTake(w, c, b, order, spanOrder), tr + Sights(w.s.tenancy, c, b, last, order),
                       store, camera, hour, x, y)
  {
    var tr1 := UptoSteps(tr, w.s.tenancy, c, b) + Cells(c, b.cells);
    assert StepTake(w, c, b, order, spanOrder).log.flow == w.log.flow + FlowEvents(OnFloor(w.s, c, b), c, b.cells);
    hide StepTake, StaysTold, OnFloor, FlowEvents, StepsTaken, UptoSteps, Cells, Count, Sights;
    SightsParts(tr, w.s.tenancy, c, b, last, order);
    BatchSteps(w.s, tr, c, b, store, camera, hour, x, y);
    StepsSkip(tr1, Sweep45(c.now, last), store, camera, hour, x, y);
    StepsSkip(tr1 + Sweep45(c.now, last), Leaves(c, w.s.tenancy.walls, order), store, camera, hour, x, y);
    CountConcat(w.log.flow, FlowEvents(OnFloor(w.s, c, b), c, b.cells), Edge(store, camera, hour, x, y));
  }

  /** One frame or flush, for whatever sum P follows. */
  ghost function TraceStep(w: World, tr: seq<Sight>, op: Op, start: real): seq<Sight> {
    if Handled(w, op) then tr + Sights(w.s.tenancy, op.c, op.b, LastSwept(tr, start), op.order) else tr
  }

  lemma TraceSnoc(start: real, ops: seq<Op>)
    requires ops != []
    ensures var front, op := ops[..|ops| - 1], ops[|ops| - 1];
      var w, tr := Run(Start(start), front), Trace(start, front);
      Run(Start(start), ops) == Step(w, op) && Trace(start, ops) == TraceStep(w, tr, op, start)
  {
    hide Step, Sights, Start;
  }

  /** An operation other than a frame leaves the logs of what happened alone. */
  lemma LogKept(w: World, op: Op)
    requires !Handled(w, op)
    ensures var log := Step(w, op).log;
      log.flow == w.log.flow && log.demo == w.log.demo && log.life == w.log.life && log.spanLife == w.log.spanLife
      && log.paths == w.log.paths
  {
    hide FlushState, FlushTables, LostTables;
  }

  lemma FrameLog(w: World, op: Op)
    requires Handled(w, op)
    ensures Orders(w, op.c, op.b, op.order, op.spanOrder)
    ensures var log, log' := Step(w, op).log, StepTake(w, op.c, op.b, op.order, op.spanOrder).log;
      log.flow == log'.flow && log.demo == log'.demo && log.life == log'.life && log.spanLife == log'.spanLife
      && log.paths == log'.paths
  {
    hide Ingest, StaleTracks, StaleSpans, StepTake, FlushState, FlushTables, LostTables, FlushDue;
    OrdersOf(w, op.c, op.b, op.order, op.spanOrder, op.ok);
  }

  lemma {:induction false} RunStepsTaken(start: real, ops: seq<Op>, store: int, camera: string, hour: int, a: nat,
      b: nat)
    ensures StepsAgree(Run(Start(start), ops), Trace(start, ops), store, camera, hour, a, b)
  {
    if ops != [] {
      var front, op := ops[..|ops| - 1], ops[|ops| - 1];
      RunStepsTaken(start, front, store, camera, hour, a, b);
      RunTold(start, front);
      TraceSnoc(start, ops);
      var w, tr := Run(Start(start), front), Trace(start, front);
      hide Run, Trace, Sights, LastSwept, Start, StaysTold, DemosTold, StepsTaken, Step, StepTake, Handled, Count;
      if Handled(w, op) {
        FrameLog(w, op);
        TakeSteps(w, tr, op.c, op.b, op.order, op.spanOrder, LastSwept(tr, start), store, camera, hour, a, b);
      } else {
        LogKept(w, op);
      }
    }
  }

  lemma TakeNewcomers(w: World, tr: seq<Sight>, c: Moment, b: Batch, order: seq<TrackKey>, spanOrder: seq<SpanKey>,
                      last: real, store: int, camera: string, hour: int, gender: string, age: string)
    requires DemosTold(w.s.demos, tr) && Orders(w, c, b, order, spanOrder)
    requires NewcomersAgree(w, tr, store, camera, hour, gender, age)
    ensures NewcomersAgree(StepTake(w, c, b, order, spanOrder), tr + Sights(w.s.tenancy, c, b, last, order),
                           store, camera, hour, gender, age)
  {
    var tr1 := UptoSteps(tr, w.s.tenancy, c, b) + Cells(c, b.cells);
    assert StepTake(w, c, b, order, spanOrder).log.demo == w.log.demo + DemoEvents(w.s.demos, c, b.demos);
    hide StepTake, DemosTold, DemoEvents, Newcomers, UptoSteps, Cells, Count, Sights;
    SightsParts(tr, w.s.tenancy, c, b, last, order);
    BatchNewcomers(w.s, tr, c, b, store, camera, hour, gender, age);
    NewcomersSkip(tr1, Sweep45(c.now, last), store, camera, hour, gender, age);
    NewcomersSkip(
      tr1 + Sweep45(c.now, last), Leaves(c, w.s.tenancy.walls, order), store, camera, hour, gender, age);
    CountConcat(w.log.demo, DemoEvents(w.s.demos, c, b.demos), Demo(store, camera, hour, gender, age));
  }

  lemma {:induction false} RunNewcomers(start: real, ops: seq<Op>, store: int, camera: string, hour: int,
                                        gender: string, age: string)
    ensures NewcomersAgree(Run(Start(start), ops), Trace(start, ops), store, camera, hour, gender, age)
  {
    if ops != [] {
      var front, op := ops[..|ops| - 1], ops[|ops| - 1];
      RunNewcomers(start, front, store, camera, hour, gender, age);
      RunTold(start, front);
      TraceSnoc(start, ops);
      var w, tr := Run(Start(start), front), Trace(start, front);
      hide Run, Trace, Sights, LastSwept, Start, StaysTold, DemosTold, Newcomers, Step, StepTake, Handled, Count;
      if Handled(w, op) {
        FrameLog(w, op);
        TakeNewcomers(
          w, tr, op.c, op.b, op.order, op.spanOrder, LastSwept(tr, start), store, camera, hour, gender, age);
      } else {
        LogKept(w, op);
      }
    }
  }

  lemma TakeEnds(w: World, tr: seq<Sight>, c: Moment, b: Batch, order: seq<TrackKey>, spanOrder: seq<SpanKey>,
                 start: real, key: Key)
    requires Told(w, tr, start) && Orders(w, c, b, order, spanOrder) && EndsAgree(w, tr, key)
    requires PresenceInv(w.s.presence, w.log.clock) && w.log.clock <= c.now
    requires forall i, j :: 0 <= i < j < |order| ==> order[i] != order[j]
    ensures EndsAgree(StepTake(w, c, b, order, spanOrder),
                      tr + Sights(w.s.tenancy, c, b, LastSwept(tr, start), order), key)
  {
    hide Ingest, StepTake, Told, StaysTold, DemosTold, Sights, UptoLeaves, Leaves, LastSwept, TrackClosings, ClosePaths;
    hide BankedAt, BankedMs, StaysEnded, TimeEnded, RowsEnded, PresenceInv, PruneDemos, PruneGates;
    var s1, last := Ingest(w.s, c, b), LastSwept(tr, start);
    var tr2 := UptoLeaves(tr, w.s.tenancy, c, b, last);
    TakeLog(w, c, b, order, spanOrder, key);
    SightsParts(tr, w.s.tenancy, c, b, last, order);
    BeforeLeaves(w, tr, c, b, start);
    IngestOrdered(w, c, b);
    BatchEnds(tr, w.s.tenancy, c, b, key, last);
    ClosingsAreEnds(s1.presence, tr2, c, w.s.tenancy.walls, order, key);
    PathsAreRows(s1.presence, tr2, c, w.s.tenancy, order);
  }

  lemma IngestOrdered(w: World, c: Moment, b: Batch)
    requires PresenceInv(w.s.presence, w.log.clock) && w.log.clock <= c.now
    ensures var pr := Ingest(w.s, c, b).presence; forall k :: k in pr ==> pr[k].first <= pr[k].last <= c.now
  {
    hide Ingest;
    IngestPresence(w.s, c, b);
  }

  /** What a frame adds to the logs of closings and rows. */
  lemma TakeLog(w: World, c: Moment, b: Batch, order: seq<TrackKey>, spanOrder: seq<SpanKey>, key: Key)
    requires Orders(w, c, b, order, spanOrder)
    ensures var s1, log := Ingest(w.s, c, b), StepTake(w, c, b, order, spanOrder).log;
      && BankedAt(log.life, key) == BankedAt(w.log.life, key) + BankedAt(TrackClosings(s1.presence, order), key)
      && BankedMs(log.life, key) == BankedMs(w.log.life, key) + BankedMs(TrackClosings(s1.presence, order), key)
      && log.paths == w.log.paths + ClosePaths([], s1.presence, w.s.tenancy, order)
      && BankedAt(log.spanLife, key) == BankedAt(w.log.spanLife, key) + BankedAt(SpanClosings(s1.spans, spanOrder), key)
      && BankedMs(log.spanLife, key) == BankedMs(w.log.spanLife, key) + BankedMs(SpanClosings(s1.spans, spanOrder), key)
  {
    var s1 := Ingest(w.s, c, b);
    var log := StepTake(w, c, b, order, spanOrder).log;
    assert log.life == w.log.life + (TrackEvents(w.s, c, b) + TrackClosings(s1.presence, order));
    assert log.spanLife == w.log.spanLife + (SpanEvents(w.s, c, b) + SpanClosings(s1.spans, spanOrder));
    assert s1.tenancy == w.s.tenancy;
    hide Ingest, StepTake, TrackEvents, SpanEvents, TrackClosings, SpanClosings, ClosePaths, BankedAt, BankedMs;
    NothingBanked(TrackEvents(w.s, c, b), key);
    NothingBanked(SpanEvents(w.s, c, b), key);
    BankedConcat(w.log.life, TrackEvents(w.s, c, b) + TrackClosings(s1.presence, order), key);
    BankedConcat(TrackEvents(w.s, c, b), TrackClosings(s1.presence, order), key);
    BankedConcat(w.log.spanLife, SpanEvents(w.s, c, b) + SpanClosings(s1.spans, spanOrder), key);
    BankedConcat(SpanEvents(w.s, c, b), SpanClosings(s1.spans, spanOrder), key);
  }

  lemma {:induction false} RunEnds(start: real, ops: seq<Op>, key: Key)
    ensures EndsAgree(Run(Start(start), ops), Trace(start, ops), key)
  {
    if ops != [] {
      var front, op := ops[..|ops| - 1], ops[|ops| - 1];
      RunEnds(start, front, key);
      RunTold(start, front);
      RunInv(start, front);
      TraceSnoc(start, ops);
      var w, tr := Run(Start(start), front), Trace(start, front);
      assert PresenceInv(w.s.presence, w.log.clock);
      if Handled(w, op) {
        assert w.log.clock <= op.c.now && forall i, j :: 0 <= i < j < |op.order| ==> op.order[i] != op.order[j];
      }
      hide Run, Trace, Sights, LastSwept, Start, Told, Inv, PresenceInv, Step, StepTake, Handled, BankedAt, BankedMs;
      hide StaysEnded, TimeEnded, RowsEnded;
      if Handled(w, op) {
        FrameLog(w, op);
        TakeEnds(w, tr, op.c, op.b, op.order, op.spanOrder, start, key);
      } else {
        LogKept(w, op);
      }
    }
  }

  // ---- visits ---------------------------------------------------------------------------------------------------

  ghost predicate VisitsAgree(w: World, tr: seq<Glimpse>, b: Key) {
    && VisitsSeen(w.s.spans, tr)
    && BankedAt(w.log.spanLife, b) == VisitsEnded(tr, b) && BankedMs(w.log.spanLife, b) == VisitTime(tr, b)
  }

  lemma {:induction false} VisitsSkip(tr: seq<Glimpse>, x: seq<Glimpse>, b: Key)
    requires forall i :: 0 <= i < |x| ==> !x[i].Finished?
    ensures VisitsEnded(tr + x, b) == VisitsEnded(tr, b) && VisitTime(tr + x, b) == VisitTime(tr, b)
  {
    if x == [] {
      assert tr + x == tr;
    } else {
      VisitsSkip(tr, x[..|x| - 1], b);
      VisitsSnoc(tr + x[..|x| - 1], x[|x| - 1], b);
      assert tr + x == tr + x[..|x| - 1] + [x[|x| - 1]];
    }
  }

  lemma {:induction false} NoneFinished(c: Moment, marks: seq<(Option<int>, Option<int>)>, es: seq<(int, Option<int>)>)
    ensures forall i :: 0 <= i < |Revokes(c, marks)| ==> !Revokes(c, marks)[i].Finished?
    ensures forall i :: 0 <= i < |Glimpses(c, es)| ==> !Glimpses(c, es)[i].Finished?
    decreases |marks|, |es|
  {
    if marks != [] {
      NoneFinished(c, marks[..|marks| - 1], []);
    }
    if es != [] {
      NoneFinished(c, [], es[..|es| - 1]);
    }
  }

  lemma TakeVisits(w: World, tr: seq<Glimpse>, c: Moment, b: Batch, order: seq<TrackKey>, spanOrder: seq<SpanKey>,
                   key: Key)
    requires VisitsAgree(w, tr, key) && Orders(w, c, b, order, spanOrder)
    requires SpanInv(w.s.spans, w.log.clock) && w.log.clock <= c.now
    requires forall i, j :: 0 <= i < j < |spanOrder| ==> spanOrder[i] != spanOrder[j]
    ensures VisitsAgree(StepTake(w, c, b, order, spanOrder),
                        tr + (Revokes(c, b.staff) + Glimpses(c, b.spKeys) + Finishes(c, spanOrder)), key)
  {
    hide Ingest, StepTake, VisitsSeen, Revokes, Glimpses, Finishes, SpanClosings, TrackClosings, BankedAt, SpanInv;
    hide BankedMs, VisitsEnded, VisitTime, ClosePaths;
    var s1, spans0 := Ingest(w.s, c, b), DropSpans(w.s.spans, c, b.staff);
    TakeLog(w, c, b, order, spanOrder, key);
    TakeSpans(w, c, b, order, spanOrder);
    hide DropSpans, ExtendSpans;
    RevokesAreSeen(w.s.spans, tr, c, b.staff);
    var tr1 := tr + Revokes(c, b.staff);
    GlimpsesAreSeen(spans0, tr1, c, b.spKeys);
    var tr2 := tr1 + Glimpses(c, b.spKeys);
    FinishesAreSeen(s1.spans, tr2, c, spanOrder);
    NoneFinished(c, b.staff, b.spKeys);
    VisitsSkip(tr, Revokes(c, b.staff), key);
    VisitsSkip(tr1, Glimpses(c, b.spKeys), key);
    SpansAreVisits(s1.spans, tr2, c, spanOrder, key);
    assert tr + (Revokes(c, b.staff) + Glimpses(c, b.spKeys) + Finishes(c, spanOrder)) == tr2 + Finishes(c, spanOrder);
  }

  lemma TakeSpans(w: World, c: Moment, b: Batch, order: seq<TrackKey>, spanOrder: seq<SpanKey>)
    requires SpanInv(w.s.spans, w.log.clock) && w.log.clock <= c.now && Orders(w, c, b, order, spanOrder)
    ensures var spans := Ingest(w.s, c, b).spans;
      && spans == ExtendSpans(DropSpans(w.s.spans, c, b.staff), c, b.spKeys)
      && StepTake(w, c, b, order, spanOrder).s.spans == spans - (set q | q in spanOrder)
      && forall q :: q in spans ==> spans[q].first <= spans[q].last <= c.now
  {
    DropSpansKeeps(w.s.spans, c, b.staff);
    ExtendSpansKeeps(DropSpans(w.s.spans, c, b.staff), c, b.spKeys);
    hide DropSpans, ExtendSpans, OnFloor, EnterAll, CloseDwell, CloseSpans, ClosePaths, PruneGates, PruneDemos, Record;
  }

  /** Over any run the spans are the visits of the list, and those banked are those that ended. */
  lemma {:induction false} RunVisits(start: real, ops: seq<Op>, key: Key)
    ensures VisitsAgree(Run(Start(start), ops), VisitTrace(start, ops), key)
  {
    if ops != [] {
      var front, op := ops[..|ops| - 1], ops[|ops| - 1];
      RunVisits(start, front, key);
      RunInv(start, front);
      var w, tr := Run(Start(start), front), VisitTrace(start, front);
      assert Run(Start(start), ops) == Step(w, op);
      assert SpanInv(w.s.spans, w.log.clock);
      if Handled(w, op) {
        assert w.log.clock <= op.c.now
          && forall i, j :: 0 <= i < j < |op.spanOrder| ==> op.spanOrder[i] != op.spanOrder[j];
      }
      hide Run, Start, Inv, SpanInv, Step, StepTake, BankedAt, BankedMs, VisitsEnded, VisitTime, VisitsSeen, Handled;
      hide Revokes, Glimpses, Finishes;
      if Handled(w, op) {
        FrameLog(w, op);
        SameSpans(w, op);
        TakeVisits(w, tr, op.c, op.b, op.order, op.spanOrder, key);
      } else {
        LogKept(w, op);
        SpansKept(w, op);
      }
    }
  }

  lemma SameSpans(w: World, op: Op)
    requires Handled(w, op)
    ensures Orders(w, op.c, op.b, op.order, op.spanOrder)
    ensures Step(w, op).s.spans == StepTake(w, op.c, op.b, op.order, op.spanOrder).s.spans
  {
    hide Ingest, StaleTracks, StaleSpans, StepTake, FlushTables, LostTables, FlushDue;
    OrdersOf(w, op.c, op.b, op.order, op.spanOrder, op.ok);
  }

  lemma SpansKept(w: World, op: Op)
    requires !Handled(w, op)
    ensures Step(w, op).s.spans == w.s.spans
  {
    hide FlushTables, LostTables;
  }
}
