/**
 The footfall aggregator with its database as a machine: camera lookups, frames, successful
 and failed flushes, and the log of everything that ever happened beside it. Each step is
 shown to keep the invariant from which FootfallRuns.dfy draws the run theorems.

 A batch need not have been read in the state it is applied to: the gate flags are read
 before the lock is taken, so every interleaving of frames is covered. Where a theorem
 needs frames handled one at a time, it says so with `FootfallRuns.Serial`.
*/
module FootfallWorld {
  import opened Options
  import opened Tally
  import opened FootfallModel
  import opened FootfallEffects
  import opened FootfallEvents
  import opened Sequences
  import opened Geometry
  import opened PathSplit

  datatype Op =
    | Lookup(store: int, org: Option<int>, camera: string, walls: seq<Wall>, pos: Option<Point>)
    | Take(c: Moment, b: Batch, order: seq<TrackKey>, spanOrder: seq<SpanKey>, ok: bool)
    | Flush(now: real, ok: bool)

  /** Everything that ever happened, kept beside the machine. */
  datatype Log = Log(
    cells: seq<Key>, counted: seq<Key>, refunds: seq<Key>, flow: seq<Key>, demo: seq<Key>,
    life: seq<(TrackKey, Life)>, spanLife: seq<(SpanKey, Life)>, gates: seq<GateEvent>,
    paths: seq<PathRow>, clock: real)

  /** The machine, the database, and what flushes skipped for want of an organization. */
  datatype World = World(s: State, db: Tables, lost: Tables, log: Log)

  const NO_TABLES := Tables(map[], map[], map[], map[], map[], map[], [])

  function Start(now: real): World {
    World(
      State(map[], Gates(map[], map[], map[], now), Demos(map[], map[]), map[], Dwell(map[], map[]), map[], map[], [],
            Tenancy(map[], map[], map[]), now),
      NO_TABLES, NO_TABLES,
      Log([], [], [], [], [], [], [], [], [], now))
  }

  // ---- steps --------------------------------------------------------------------------------------

  function LostTables(t: Tables, s: State): Tables {
    var orgs := s.tenancy.orgs;
    Tables(
      Merge(t.cells, Unknown(s.buf, orgs)), Merge(t.visits, Unknown(s.gates.visits, orgs)),
      Merge(t.dwellTracks, Unknown(s.dwell.tracks, orgs)), Merge(t.dwellMs, Unknown(s.dwell.ms, orgs)),
      Merge(t.flow, Unknown(s.flow, orgs)), Merge(t.demo, Unknown(s.demos.counts, orgs)),
      t.paths + UnknownPaths(s.paths, orgs))
  }

  function StepFlush(w: World, now: real, ok: bool): World {
    World(FlushState(w.s, now, ok), FlushTables(w.db, w.s, ok),
          if ok && !NothingBuffered(w.s) then LostTables(w.lost, w.s) else w.lost,
          if NothingBuffered(w.s) then w.log else w.log.(gates := w.log.gates + [Attempt(ok)]))
  }

  function Record(log: Log, s: State, c: Moment, b: Batch, order: seq<TrackKey>, spanOrder: seq<SpanKey>): Log
    requires forall k :: k in order ==> k in Ingest(s, c, b).presence
    requires forall k :: k in spanOrder ==> k in Ingest(s, c, b).spans
  {
    var s1 := Ingest(s, c, b);
    Log(log.cells + b.pending,
        log.counted + FreshEvents(c, b.gateHits),
        log.refunds + RefundEvents(s.gates, c, b.staff),
        log.flow + FlowEvents(OnFloor(s, c, b), c, b.cells),
        log.demo + DemoEvents(s.demos, c, b.demos),
        log.life + (TrackEvents(s, c, b) + TrackClosings(s1.presence, order)),
        log.spanLife + (SpanEvents(s, c, b) + SpanClosings(s1.spans, spanOrder)),
        log.gates + GateEvents(s1.gates, c, b),
        log.paths + ClosePaths([], s1.presence, s1.tenancy, order),
        c.now)
  }

  /** The stale keys come in some order of the two dictionaries; time does not run backwards. */
  ghost predicate ValidOp(w: World, op: Op) {
    match op
    case Lookup(_, _, _, _, _) => true
    case Flush(now, _) => true
    case Take(c, b, order, spanOrder, _) =>
      && w.log.clock <= c.now
      && Enumerates(order, StaleTracks(Ingest(w.s, c, b).presence, c.now))
      && Enumerates(spanOrder, StaleSpans(Ingest(w.s, c, b).spans, c.now))
  }

  function StepTake(w: World, c: Moment, b: Batch, order: seq<TrackKey>, spanOrder: seq<SpanKey>): World
    requires forall k :: k in order ==> k in Ingest(w.s, c, b).presence
    requires forall k :: k in spanOrder ==> k in Ingest(w.s, c, b).spans
  {
    w.(s := Prune(Ingest(w.s, c, b), c.now, order, spanOrder), log := Record(w.log, w.s, c, b, order, spanOrder))
  }

  /** One operation; one that cannot happen changes nothing. */
  ghost function Step(w: World, op: Op): World {
    if !ValidOp(w, op) then w
    else
      match op
      case Lookup(store, org, camera, walls, pos) =>
        w.(s := w.s.(tenancy := Register(w.s.tenancy, store, org, camera, walls, pos)))
      case Flush(now, ok) => StepFlush(w, now, ok)
      case Take(c, b, order, spanOrder, ok) =>
        if Idle(b) then w
        else
          var w1 := StepTake(w, c, b, order, spanOrder);
          if FlushDue(w1.s, c.now) then StepFlush(w1, c.now, ok) else w1
  }

  ghost function Run(w: World, ops: seq<Op>): World {
    if ops == [] then w else Step(Run(w, ops[..|ops| - 1]), ops[|ops| - 1])
  }

  // ---- the class performs these steps ---------------------------------------------------------------

  /** A frame handled by the aggregator's OnFrame is the step Take of the gathered batch. */
  lemma FrameIsStep(w: World, f: Frame, now: real, ok: bool, order: seq<TrackKey>, spanOrder: seq<SpanKey>, s2: State,
      db2: Tables)
    requires w.log.clock <= now && FrameDone(f, w.s, w.db, now, ok, order, spanOrder, s2, db2)
    ensures var c := Moment(f.store, f.camera, f.hour, now);
      var op := Take(c, Collect(f, w.s.gates.seen.Keys, f.tracks), order, spanOrder, ok);
      Step(w, op).s == s2 && Step(w, op).db == db2
  {
    hide Collect, Ingest, Prune, FlushState, FlushTables, Record, LostTables, Enumerates, StaleTracks, StaleSpans;
  }

  // ---- conservation -------------------------------------------------------------------------------

  /** For one key: stored + buffered + skipped is exactly what happened. */
  ghost predicate ConservedAt(w: World, k: Key) {
    && Get(w.db.cells, k) + Get(w.s.buf, k) + Get(w.lost.cells, k) == Count(w.log.cells, k)
    && Get(w.db.visits, k) + Get(w.s.gates.visits, k) + Get(w.lost.visits, k)
         == Count(w.log.counted, k) - Count(w.log.refunds, k)
    && Get(w.db.flow, k) + Get(w.s.flow, k) + Get(w.lost.flow, k) == Count(w.log.flow, k)
    && Get(w.db.demo, k) + Get(w.s.demos.counts, k) + Get(w.lost.demo, k) == Count(w.log.demo, k)
    && Get(w.db.dwellTracks, k) + Get(w.s.dwell.tracks, k) + Get(w.lost.dwellTracks, k)
         == BankedAt(w.log.life, k) + BankedAt(w.log.spanLife, k)
    && Get(w.db.dwellMs, k) + Get(w.s.dwell.ms, k) + Get(w.lost.dwellMs, k)
         == BankedMs(w.log.life, k) + BankedMs(w.log.spanLife, k)
  }

  lemma {:induction false} FlushKeepsConserved(w: World, now: real, ok: bool, k: Key)
    requires ConservedAt(w, k)
    ensures ConservedAt(StepFlush(w, now, ok), k)
  {
    if ok && !NothingBuffered(w.s) {
      hide Merge, Known, Unknown, Count, BankedAt, BankedMs;
      var orgs := w.s.tenancy.orgs;
      FlushConserves(w.db.cells, w.s.buf, w.lost.cells, orgs, k);
      FlushConserves(w.db.visits, w.s.gates.visits, w.lost.visits, orgs, k);
      FlushConserves(w.db.flow, w.s.flow, w.lost.flow, orgs, k);
      FlushConserves(w.db.demo, w.s.demos.counts, w.lost.demo, orgs, k);
      FlushConserves(w.db.dwellTracks, w.s.dwell.tracks, w.lost.dwellTracks, orgs, k);
      FlushConserves(w.db.dwellMs, w.s.dwell.ms, w.lost.dwellMs, orgs, k);
    }
  }

  ghost predicate Orders(w: World, c: Moment, b: Batch, order: seq<TrackKey>, spanOrder: seq<SpanKey>) {
    && (forall q :: q in order ==> q in Ingest(w.s, c, b).presence)
    && (forall q :: q in spanOrder ==> q in Ingest(w.s, c, b).spans)
  }

  // One counter at a time: what a batch adds to the buffer is what it adds to the log.

  lemma {:induction false} TakeKeepsCells(w: World, c: Moment, b: Batch, order: seq<TrackKey>, spanOrder: seq<SpanKey>,
      k: Key)
    requires Orders(w, c, b, order, spanOrder) && ConservedAt(w, k)
    ensures var w' := StepTake(w, c, b, order, spanOrder);
            Get(w'.db.cells, k) + Get(w'.s.buf, k) + Get(w'.lost.cells, k) == Count(w'.log.cells, k)
  {
    hide Count, OnFloor, HitGates, CancelVisits, CountDemos, CountFlows, EnterAll, ExtendSpans, DropSpans;
    hide CloseDwell, CloseSpans, ClosePaths, TrackEvents, SpanEvents, GateEvents;
    BumpAllCounts(w.s.buf, b.pending, k);
    CountConcat(w.log.cells, b.pending, k);
  }

  lemma {:induction false} TakeKeepsVisits(w: World, c: Moment, b: Batch, order: seq<TrackKey>,
      spanOrder: seq<SpanKey>, k: Key)
    requires Orders(w, c, b, order, spanOrder) && ConservedAt(w, k)
    requires VisitInv(w.s.gates)
    ensures var w' := StepTake(w, c, b, order, spanOrder);
            Get(w'.db.visits, k) + Get(w'.s.gates.visits, k) + Get(w'.lost.visits, k)
              == Count(w'.log.counted, k) - Count(w'.log.refunds, k)
  {
    hide Count, VisitInv, OnFloor, HitGates, CancelVisits, CountDemos, CountFlows, EnterAll, ExtendSpans, DropSpans;
    hide CloseDwell, CloseSpans, ClosePaths, TrackEvents, SpanEvents, GateEvents, RefundEvents, FreshEvents;
    CancelVisitsEffect(w.s.gates, c, b.staff, k);
    HitGatesCount(CancelVisits(w.s.gates, c, b.staff), c, b.gateHits, k);
    CountConcat(w.log.counted, FreshEvents(c, b.gateHits), k);
    CountConcat(w.log.refunds, RefundEvents(w.s.gates, c, b.staff), k);
  }

  lemma {:induction false} TakeKeepsFlow(w: World, c: Moment, b: Batch, order: seq<TrackKey>, spanOrder: seq<SpanKey>,
      k: Key)
    requires Orders(w, c, b, order, spanOrder) && ConservedAt(w, k)
    ensures var w' := StepTake(w, c, b, order, spanOrder);
            Get(w'.db.flow, k) + Get(w'.s.flow, k) + Get(w'.lost.flow, k) == Count(w'.log.flow, k)
  {
    hide Count, OnFloor, HitGates, CancelVisits, CountDemos, CountFlows, EnterAll, ExtendSpans, DropSpans;
    hide CloseDwell, CloseSpans, ClosePaths, TrackEvents, SpanEvents, GateEvents, FlowEvents;
    CountFlowsCount(w.s.flow, OnFloor(w.s, c, b), c, b.cells, k);
    CountConcat(w.log.flow, FlowEvents(OnFloor(w.s, c, b), c, b.cells), k);
  }

  lemma {:induction false} TakeKeepsDemo(w: World, c: Moment, b: Batch, order: seq<TrackKey>, spanOrder: seq<SpanKey>,
      k: Key)
    requires Orders(w, c, b, order, spanOrder) && ConservedAt(w, k)
    ensures var w' := StepTake(w, c, b, order, spanOrder);
            Get(w'.db.demo, k) + Get(w'.s.demos.counts, k) + Get(w'.lost.demo, k) == Count(w'.log.demo, k)
  {
    hide Count, OnFloor, HitGates, CancelVisits, CountDemos, CountFlows, EnterAll, ExtendSpans, DropSpans;
    hide CloseDwell, CloseSpans, ClosePaths, TrackEvents, SpanEvents, GateEvents, DemoEvents;
    CountDemosCount(w.s.demos, c, b.demos, k);
    CountConcat(w.log.demo, DemoEvents(w.s.demos, c, b.demos), k);
  }

  lemma {:induction false} TakeKeepsDwell(w: World, c: Moment, b: Batch, order: seq<TrackKey>, spanOrder: seq<SpanKey>,
      k: Key)
    requires Orders(w, c, b, order, spanOrder) && ConservedAt(w, k)
    ensures var w' := StepTake(w, c, b, order, spanOrder);
            && Get(w'.db.dwellTracks, k) + Get(w'.s.dwell.tracks, k) + Get(w'.lost.dwellTracks, k)
                 == BankedAt(w'.log.life, k) + BankedAt(w'.log.spanLife, k)
            && Get(w'.db.dwellMs, k) + Get(w'.s.dwell.ms, k) + Get(w'.lost.dwellMs, k)
                 == BankedMs(w'.log.life, k) + BankedMs(w'.log.spanLife, k)
  {
    hide BankedAt, BankedMs, OnFloor, HitGates, CancelVisits, CountDemos, CountFlows, EnterAll, ExtendSpans, DropSpans;
    hide CloseDwell, CloseSpans, ClosePaths, TrackEvents, SpanEvents, GateEvents, TrackClosings, SpanClosings, BumpAll;
    var s1 := Ingest(w.s, c, b);
    CloseDwellCount(w.s.dwell, s1.presence, order, k);
    CloseSpansCount(CloseDwell(w.s.dwell, s1.presence, order), s1.spans, spanOrder, k);
    var events, spanEvents := TrackEvents(w.s, c, b), SpanEvents(w.s, c, b);
    NothingBanked(events, k);
    NothingBanked(spanEvents, k);
    BankedConcat(events, TrackClosings(s1.presence, order), k);
    BankedConcat(spanEvents, SpanClosings(s1.spans, spanOrder), k);
    BankedConcat(w.log.life, events + TrackClosings(s1.presence, order), k);
    BankedConcat(w.log.spanLife, spanEvents + SpanClosings(s1.spans, spanOrder), k);
  }

  lemma {:induction false} TakeKeepsConserved(w: World, c: Moment, b: Batch, order: seq<TrackKey>,
      spanOrder: seq<SpanKey>, k: Key)
    requires Orders(w, c, b, order, spanOrder) && ConservedAt(w, k)
    requires VisitInv(w.s.gates)
    ensures ConservedAt(StepTake(w, c, b, order, spanOrder), k)
  {
    hide StepTake, VisitInv;
    TakeKeepsCells(w, c, b, order, spanOrder, k);
    TakeKeepsVisits(w, c, b, order, spanOrder, k);
    TakeKeepsFlow(w, c, b, order, spanOrder, k);
    TakeKeepsDemo(w, c, b, order, spanOrder, k);
    TakeKeepsDwell(w, c, b, order, spanOrder, k);
  }

  // ---- the invariant of every reachable state -----------------------------------------------------

  /** Stored, buffered and skipped path rows are all the rows ever closed, none twice. */
  ghost predicate PathsKept(w: World) {
    multiset(w.db.paths) + multiset(w.s.paths) + multiset(w.lost.paths) == multiset(w.log.paths)
  }

  /** Presences and spans say what their lives say. */
  ghost predicate LivesTold(w: World) {
    && TracksTold(w.s.presence, w.log.life)
    && SpansTold(w.s.spans, w.log.spanLife)
  }

  ghost predicate Inv(w: World) {
    && (forall k :: ConservedAt(w, k))
    && VisitInv(w.s.gates)
    && GatesTold(w.s.gates, w.log.gates)
    && Past(w.log.gates, w.log.clock)
    && PresenceInv(w.s.presence, w.log.clock)
    && SpanInv(w.s.spans, w.log.clock)
    && LivesTold(w)
    && PathsKept(w)
  }

  lemma StartInv(now: real)
    ensures Inv(Start(now))
  {
  }

  lemma FlushKeepsPaths(w: World, now: real, ok: bool)
    requires PathsKept(w)
    ensures PathsKept(StepFlush(w, now, ok))
  {
    if ok && !NothingBuffered(w.s) {
      PathsPart(w.s.paths, w.s.tenancy.orgs);
      hide Merge, Known, Unknown, KnownPaths, UnknownPaths;
      var w' := StepFlush(w, now, ok);
      assert w'.db.paths == w.db.paths + KnownPaths(w.s.paths, w.s.tenancy.orgs);
      assert w'.lost.paths == w.lost.paths + UnknownPaths(w.s.paths, w.s.tenancy.orgs);
    }
  }

  lemma FlushKeepsInv(w: World, now: real, ok: bool)
    requires Inv(w)
    ensures Inv(StepFlush(w, now, ok))
  {
    var w' := StepFlush(w, now, ok);
    FlushKeepsPaths(w, now, ok);
    forall k ensures ConservedAt(w', k) {
      hide StepFlush;
      FlushKeepsConserved(w, now, ok, k);
    }
    hide ConservedAt, PresenceInv, SpanInv, PathsKept;
    if !NothingBuffered(w.s) {
      ClearedCredits(w'.s.gates);
      assert w'.s.gates == w.s.gates.(visits := w'.s.gates.visits, credit := map[]);
      AttemptTold(w.s.gates, w.log.gates, ok, w'.s.gates.visits);
      hide GatesTold;
    }
  }

  /** Without credits there is nothing to back; a failed write keeps the visits. */
  lemma ClearedCredits(g: Gates)
    requires g.credit == map[] && forall b :: Get(g.visits, b) >= 0
    ensures VisitInv(g)
  {
  }

  lemma TakeKeepsVisitInv(g: Gates, ev: seq<GateEvent>, clock: real, c: Moment, b: Batch)
    requires VisitInv(g) && GatesTold(g, ev) && Past(ev, clock) && clock <= c.now
    ensures var g1 := HitGates(CancelVisits(g, c, b.staff), c, b.gateHits);
      && VisitInv(PruneGates(g1, c.now))
      && GatesTold(PruneGates(g1, c.now), ev + GateEvents(g1, c, b))
      && Past(ev + GateEvents(g1, c, b), c.now)
  {
    hide *;
    CancelVisitsEffect(g, c, b.staff, VisitBucket(c));
    var g1 := CancelVisits(g, c, b.staff);
    HitGatesKeepsCredits(g1, c, b.gateHits);
    PruneGatesKeepsCredits(HitGates(g1, c, b.gateHits), c.now);
    BatchKeepsSeen(g, ev, c, b);
    BatchIsPast(HitGates(g1, c, b.gateHits), ev, clock, c, b);
  }

  lemma TakeKeepsFloor(w: World, c: Moment, b: Batch, order: seq<TrackKey>, spanOrder: seq<SpanKey>)
    requires PresenceInv(w.s.presence, c.now) && SpanInv(w.s.spans, c.now) && Orders(w, c, b, order, spanOrder)
    ensures var s1 := Ingest(w.s, c, b);
      var s2 := Prune(s1, c.now, order, spanOrder);
      && PresenceInv(s1.presence, c.now) && SpanInv(s1.spans, c.now)
      && PresenceInv(s2.presence, c.now) && SpanInv(s2.spans, c.now)
  {
    hide OnFloor, HitGates, CancelVisits, CountDemos, CountFlows, EnterAll, ExtendSpans, DropSpans, BumpAll;
    hide CloseDwell, CloseSpans, ClosePaths, PresentKeys;
    IngestPresence(w.s, c, b);
    DropSpansKeeps(w.s.spans, c, b.staff);
    ExtendSpansKeeps(DropSpans(w.s.spans, c, b.staff), c, b.spKeys);
  }

  /** A batch and the closings after it, for presences and for spans. */
  lemma {:induction false} TrackLives(s: State, c: Moment, b: Batch, order: seq<TrackKey>, life: seq<(TrackKey, Life)>)
    requires TracksTold(s.presence, life) && PresenceInv(Ingest(s, c, b).presence, c.now)
    requires Enumerates(order, StaleTracks(Ingest(s, c, b).presence, c.now))
    ensures forall k :: k in order ==> k in Ingest(s, c, b).presence
    ensures var pr := Ingest(s, c, b).presence;
      TracksTold(pr - (set k | k in order), life + (TrackEvents(s, c, b) + TrackClosings(pr, order)))
  {
    BatchTracksTold(s, life, c, b);
    var pr := Ingest(s, c, b).presence;
    hide OnFloor, EnterAll, ExtendSpans, DropSpans, HitGates, CancelVisits, CountDemos, CountFlows, BumpAll;
    hide TracksTold, TrackEvents, PresenceInv, StalePresence;
    assert pr == EnterAll(OnFloor(s, c, b), c, b.cells);
    hide Ingest;
    var life1 := life + TrackEvents(s, c, b);
    ClosingsTold(pr, life1, order, c.now);
    assert life + (TrackEvents(s, c, b) + TrackClosings(pr, order)) == life1 + TrackClosings(pr, order);
  }

  lemma {:induction false} SpanLives(s: State, c: Moment, b: Batch, order: seq<SpanKey>, life: seq<(SpanKey, Life)>)
    requires SpansTold(s.spans, life) && SpanInv(Ingest(s, c, b).spans, c.now)
    requires Enumerates(order, StaleSpans(Ingest(s, c, b).spans, c.now))
    ensures forall k :: k in order ==> k in Ingest(s, c, b).spans
    ensures var spans := Ingest(s, c, b).spans;
      SpansTold(spans - (set k | k in order), life + (SpanEvents(s, c, b) + SpanClosings(spans, order)))
  {
    BatchSpansTold(s, life, c, b);
    var spans := Ingest(s, c, b).spans;
    hide OnFloor, EnterAll, ExtendSpans, DropSpans, HitGates, CancelVisits, CountDemos, CountFlows, BumpAll;
    hide SpansTold, SpanEvents, SpanInv, StaleSpan;
    assert spans == ExtendSpans(DropSpans(s.spans, c, b.staff), c, b.spKeys);
    hide Ingest;
    var life1 := life + SpanEvents(s, c, b);
    SpanClosingsTold(spans, life1, order, c.now);
    assert life + (SpanEvents(s, c, b) + SpanClosings(spans, order)) == life1 + SpanClosings(spans, order);
  }

  lemma {:induction false} TakeKeepsLives(w: World, c: Moment, b: Batch, order: seq<TrackKey>, spanOrder: seq<SpanKey>)
    requires LivesTold(w) && PresenceInv(w.s.presence, c.now) && SpanInv(w.s.spans, c.now)
    requires ValidOp(w, Take(c, b, order, spanOrder, true)) && Orders(w, c, b, order, spanOrder)
    ensures LivesTold(StepTake(w, c, b, order, spanOrder))
  {
    TakeKeepsFloor(w, c, b, order, spanOrder);
    hide Ingest, PresenceInv, SpanInv, TracksTold, SpansTold, StaleTracks, StaleSpans, Enumerates;
    hide TrackEvents, SpanEvents, GateEvents, TrackClosings, SpanClosings, CloseDwell, CloseSpans, ClosePaths,
      PruneGates, PruneDemos;
    TrackLives(w.s, c, b, order, w.log.life);
    SpanLives(w.s, c, b, spanOrder, w.log.spanLife);
  }

  lemma {:induction false} TakeKeepsPaths(w: World, c: Moment, b: Batch, order: seq<TrackKey>, spanOrder: seq<SpanKey>)
    requires PathsKept(w) && Orders(w, c, b, order, spanOrder)
    ensures PathsKept(StepTake(w, c, b, order, spanOrder))
  {
    var s1 := Ingest(w.s, c, b);
    ClosePathsAppends(s1.paths, s1.presence, s1.tenancy, order);
    hide OnFloor, EnterAll, ExtendSpans, DropSpans, HitGates, CancelVisits, CountDemos, CountFlows, BumpAll;
    hide TrackEvents, SpanEvents, GateEvents, TrackClosings, SpanClosings, CloseDwell, CloseSpans, ClosePaths,
      PruneGates, PruneDemos;
    var w' := StepTake(w, c, b, order, spanOrder);
    var rows := ClosePaths([], s1.presence, s1.tenancy, order);
    assert w'.s.paths == w.s.paths + rows && w'.log.paths == w.log.paths + rows;
  }

  lemma {:induction false} TakeKeepsAllConserved(w: World, c: Moment, b: Batch, order: seq<TrackKey>,
      spanOrder: seq<SpanKey>)
    requires (forall k :: ConservedAt(w, k)) && VisitInv(w.s.gates) && Orders(w, c, b, order, spanOrder)
    ensures forall k :: ConservedAt(StepTake(w, c, b, order, spanOrder), k)
  {
    hide StepTake, VisitInv, ConservedAt;
    forall k ensures ConservedAt(StepTake(w, c, b, order, spanOrder), k) {
      TakeKeepsConserved(w, c, b, order, spanOrder, k);
    }
  }

  lemma {:induction false} TakeKeepsInv(w: World, c: Moment, b: Batch, order: seq<TrackKey>, spanOrder: seq<SpanKey>)
    requires Inv(w) && ValidOp(w, Take(c, b, order, spanOrder, true)) && Orders(w, c, b, order, spanOrder)
    ensures Inv(StepTake(w, c, b, order, spanOrder))
  {
    LaterClock(w.s, w.log.clock, c.now);
    hide ConservedAt, VisitInv, GatesTold, Past, PresenceInv, SpanInv, LivesTold, PathsKept;
    TakeKeepsAllConserved(w, c, b, order, spanOrder);
    TakeKeepsVisitInv(w.s.gates, w.log.gates, w.log.clock, c, b);
    TakeKeepsFloor(w, c, b, order, spanOrder);
    TakeKeepsLives(w, c, b, order, spanOrder);
    TakeKeepsPaths(w, c, b, order, spanOrder);
    hide OnFloor, HitGates, CancelVisits, CountDemos, CountFlows, EnterAll, ExtendSpans, DropSpans, BumpAll;
    hide GateEvents, TrackEvents, SpanEvents, TrackClosings, SpanClosings;
  }

  lemma LaterClock(s: State, clock: real, now: real)
    requires clock <= now && PresenceInv(s.presence, clock) && SpanInv(s.spans, clock)
    ensures PresenceInv(s.presence, now) && SpanInv(s.spans, now)
  {
  }

  /** Camera lookups touch nothing the invariant speaks of. */
  lemma LookupKeepsInv(w: World, t: Tenancy)
    requires Inv(w)
    ensures Inv(w.(s := w.s.(tenancy := t)))
  {
    hide VisitInv, GatesTold, Past, PresenceInv, SpanInv, TracksTold, SpansTold;
    var w' := w.(s := w.s.(tenancy := t));
    forall k ensures ConservedAt(w', k) {
      assert ConservedAt(w, k);
    }
  }

  lemma {:induction false} StepKeepsInv(w: World, op: Op)
    requires Inv(w)
    ensures Inv(Step(w, op))
  {
    hide Inv, Register, Ingest, StepTake, StepFlush, ValidOp, FlushDue;
    if ValidOp(w, op) {
      match op
      case Lookup(store, org, camera, walls, pos) =>
        LookupKeepsInv(w, Register(w.s.tenancy, store, org, camera, walls, pos));
      case Flush(now, ok) =>
        FlushKeepsInv(w, now, ok);
      case Take(c, b, order, spanOrder, ok) =>
        FrameKeepsInv(w, c, b, order, spanOrder, ok);
    }
  }

  lemma OrdersOf(w: World, c: Moment, b: Batch, order: seq<TrackKey>, spanOrder: seq<SpanKey>, ok: bool)
    requires ValidOp(w, Take(c, b, order, spanOrder, ok))
    ensures Orders(w, c, b, order, spanOrder)
  {
  }

  lemma {:induction false} FrameKeepsInv(w: World, c: Moment, b: Batch, order: seq<TrackKey>, spanOrder: seq<SpanKey>,
      ok: bool)
    requires Inv(w) && ValidOp(w, Take(c, b, order, spanOrder, ok))
    ensures Orders(w, c, b, order, spanOrder)
    ensures var w1 := StepTake(w, c, b, order, spanOrder); Inv(w1) && Inv(StepFlush(w1, c.now, ok))
  {
    OrdersOf(w, c, b, order, spanOrder, ok);
    assert ValidOp(w, Take(c, b, order, spanOrder, true));
    hide Inv, StepTake, StepFlush, Ingest, ValidOp;
    TakeKeepsInv(w, c, b, order, spanOrder);
    FlushKeepsInv(StepTake(w, c, b, order, spanOrder), c.now, ok);
  }
}
