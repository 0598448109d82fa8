/**
 What a flush skips: only counts of stores without a known organization. A store that is known at every flush that
 writes, or known before its first frame is handled, loses nothing, whatever happens to other stores.
 */
module FootfallTenancy {
  import opened Options
  import opened Tally
  import opened FootfallModel
  import opened FootfallEvents
  import opened FootfallEffects
  import opened FootfallRuns
  import opened FootfallWorld
  import opened Geometry
  import opened PathSplit

  // ---- known at every write -----------------------------------------------------------------------

  /** None of the six counters has skipped anything under k. */
  ghost predicate NoneLostAt(w: World, k: Key) {
    && Get(w.lost.cells, k) == 0 && Get(w.lost.visits, k) == 0 && Get(w.lost.flow, k) == 0 && Get(w.lost.demo, k) == 0
    && Get(w.lost.dwellTracks, k) == 0 && Get(w.lost.dwellMs, k) == 0
  }

  /** Nothing is buffered under k. */
  ghost predicate NoneBufferedAt(s: State, k: Key) {
    && Get(s.buf, k) == 0 && Get(s.gates.visits, k) == 0 && Get(s.flow, k) == 0 && Get(s.demos.counts, k) == 0
    && Get(s.dwell.tracks, k) == 0 && Get(s.dwell.ms, k) == 0
  }

  /** The state in which the flush of op, if it makes one that writes, finds the buffers. */
  ghost predicate WritesFrom(w: World, op: Op, s: State) {
    && ValidOp(w, op) && !NothingBuffered(s)
    && match op
       case Lookup(_, _, _, _, _) => false
       case Flush(_, ok) => ok && s == w.s
       case Take(c, b, order, spanOrder, ok) =>
         ok && !Idle(b) && Orders(w, c, b, order, spanOrder) && s == StepTake(w, c, b, order, spanOrder).s
           && FlushDue(s, c.now)
  }

  /** Whenever op writes, k's store has an organization, or nothing is buffered under k. */
  ghost predicate SafeWrite(w: World, op: Op, k: Key) {
    forall s: State :: WritesFrom(w, op, s) ==> k.store in s.tenancy.orgs || NoneBufferedAt(s, k)
  }

  lemma FlushLosesNone(w: World, now: real, ok: bool, k: Key)
    requires NoneLostAt(w, k)
    requires ok && !NothingBuffered(w.s) ==> k.store in w.s.tenancy.orgs || NoneBufferedAt(w.s, k)
    ensures NoneLostAt(StepFlush(w, now, ok), k)
  {
    hide Known, KnownPaths, UnknownPaths, Drained, Restored, Written;
  }

  lemma {:induction false} StepLosesNone(w: World, op: Op, k: Key)
    requires NoneLostAt(w, k) && SafeWrite(w, op, k)
    ensures NoneLostAt(Step(w, op), k)
  {
    hide NoneLostAt, NoneBufferedAt, StepFlush, NothingBuffered, FlushDue, Ingest;
    if ValidOp(w, op) {
      match op
      case Lookup(store, org, camera, walls, pos) =>
        SameLost(w, w.(s := w.s.(tenancy := Register(w.s.tenancy, store, org, camera, walls, pos))), k);
      case Flush(now, ok) =>
        assert ok && !NothingBuffered(w.s) ==> WritesFrom(w, op, w.s);
        FlushLosesNone(w, now, ok, k);
      case Take(c, b, order, spanOrder, ok) =>
        if !Idle(b) {
          OrdersOf(w, c, b, order, spanOrder, ok);
          hide StepTake, ValidOp;
          TakeLosesNone(w, c, b, order, spanOrder, ok, k);
        }
    }
  }

  lemma {:induction false} TakeLosesNone(w: World, c: Moment, b: Batch, order: seq<TrackKey>, spanOrder: seq<SpanKey>,
      ok: bool, k: Key)
    requires var op := Take(c, b, order, spanOrder, ok); ValidOp(w, op) && SafeWrite(w, op, k)
    requires NoneLostAt(w, k) && !Idle(b) && Orders(w, c, b, order, spanOrder)
    ensures var w1 := StepTake(w, c, b, order, spanOrder);
      NoneLostAt(w1, k) && (FlushDue(w1.s, c.now) ==> NoneLostAt(StepFlush(w1, c.now, ok), k))
  {
    var w1 := StepTake(w, c, b, order, spanOrder);
    SameLost(w, w1, k);
    hide NoneLostAt, NoneBufferedAt, StepFlush, NothingBuffered, FlushDue, Ingest, Prune, StepTake, Record;
    if FlushDue(w1.s, c.now) {
      assert ok && !NothingBuffered(w1.s) ==> WritesFrom(w, Take(c, b, order, spanOrder, ok), w1.s);
      FlushLosesNone(w1, c.now, ok, k);
    }
  }

  lemma SameLost(w: World, w': World, k: Key)
    requires NoneLostAt(w, k) && w'.lost == w.lost
    ensures NoneLostAt(w', k)
  {
  }

  lemma {:induction false} RunLosesNone(now: real, ops: seq<Op>, k: Key)
    requires forall i :: 0 <= i < |ops| ==> SafeWrite(Run(Start(now), ops[..i]), ops[i], k)
    ensures NoneLostAt(Run(Start(now), ops), k)
  {
    if ops == [] {
      assert NoneLostAt(Start(now), k);
    } else {
      var front, n := ops[..|ops| - 1], |ops| - 1;
      hide Step, NoneLostAt;
      assert forall i :: 0 <= i < n ==> front[..i] == ops[..i];
      RunLosesNone(now, front, k);
      StepLosesNone(Run(Start(now), front), ops[n], k);
    }
  }

  /** Stored plus buffered is exactly what happened under k. */
  ghost predicate Complete(w: World, k: Key) {
    && Get(w.db.cells, k) + Get(w.s.buf, k) == Count(w.log.cells, k)
    && Get(w.db.visits, k) + Get(w.s.gates.visits, k) == Count(w.log.counted, k) - Count(w.log.refunds, k)
    && Get(w.db.flow, k) + Get(w.s.flow, k) == Count(w.log.flow, k)
    && Get(w.db.demo, k) + Get(w.s.demos.counts, k) == Count(w.log.demo, k)
    && Get(w.db.dwellTracks, k) + Get(w.s.dwell.tracks, k) == BankedAt(w.log.life, k) + BankedAt(w.log.spanLife, k)
    && Get(w.db.dwellMs, k) + Get(w.s.dwell.ms, k) == BankedMs(w.log.life, k) + BankedMs(w.log.spanLife, k)
  }

  /**
   Main result, key by key: when at every write k's store has an organization, or has nothing buffered under k, tables
   plus buffers are the plain histogram.
   */
  lemma {:induction false} NothingLost(now: real, ops: seq<Op>, k: Key)
    requires forall i :: 0 <= i < |ops| ==> SafeWrite(Run(Start(now), ops[..i]), ops[i], k)
    ensures Complete(Run(Start(now), ops), k)
  {
    RunInv(now, ops);
    RunLosesNone(now, ops, k);
    hide Run, Count, BankedAt, BankedMs;
    assert ConservedAt(Run(Start(now), ops), k);
  }

  // ---- known before the first frame -----------------------------------------------------------------

  /** No count belongs to the store. */
  ghost predicate Clear(m: Counter, store: int) {
    forall k :: k in m ==> k.store != store
  }

  /** Nothing buffered, and nothing that will be, belongs to the store. */
  ghost predicate ClearState(s: State, store: int) {
    && Clear(s.buf, store) && Clear(s.gates.visits, store) && Clear(s.flow, store) && Clear(s.demos.counts, store)
    && Clear(s.dwell.tracks, store) && Clear(s.dwell.ms, store)
    && (forall k :: k in s.presence ==> s.presence[k].store != store)
    && (forall k :: k in s.spans ==> k.0 != store)
  }

  /** The store has an organization, or nothing of it is around. */
  ghost predicate KnownOrClear(s: State, store: int) {
    store in s.tenancy.orgs || ClearState(s, store)
  }

  /** Frames of the store are handled only once it has an organization; a frame's cells are its own store's. */
  ghost predicate Tenanted(w: World, op: Op, store: int) {
    op.Take? ==>
      && (op.c.store == store ==> store in w.s.tenancy.orgs)
      && (forall i :: 0 <= i < |op.b.pending| ==> op.b.pending[i].store == op.c.store)
  }

  lemma {:induction false} BumpClear(m: Counter, keys: seq<Key>, store: int)
    requires Clear(m, store) && forall i :: 0 <= i < |keys| ==> keys[i].store != store
    ensures Clear(BumpAll(m, keys), store)
  {
    if keys != [] {
      BumpClear(m, keys[..|keys| - 1], store);
    }
  }

  lemma {:induction false} CancelClear(g: Gates, c: Moment, marks: seq<(Option<int>, Option<int>)>, store: int)
    requires Clear(g.visits, store)
    ensures Clear(CancelVisits(g, c, marks).visits, store)
  {
    if marks != [] {
      CancelClear(g, c, marks[..|marks| - 1], store);
    }
  }

  lemma {:induction false} HitClear(g: Gates, c: Moment, hits: seq<(VisitKey, bool)>, store: int)
    requires Clear(g.visits, store) && c.store != store
    ensures Clear(HitGates(g, c, hits).visits, store)
  {
    if hits != [] {
      HitClear(g, c, hits[..|hits| - 1], store);
    }
  }

  lemma {:induction false} FlowClear(flow: Counter, pr: map<TrackKey, Presence>, c: Moment, es: seq<(int, nat)>,
      store: int)
    requires Clear(flow, store) && c.store != store
    ensures Clear(CountFlows(flow, pr, c, es), store)
  {
    if es != [] {
      FlowClear(flow, pr, c, es[..|es| - 1], store);
    }
  }

  lemma {:induction false} DemoClear(g: Demos, c: Moment, ds: seq<(int, string, string)>, store: int)
    requires Clear(g.counts, store) && c.store != store
    ensures Clear(CountDemos(g, c, ds).counts, store)
  {
    if ds != [] {
      DemoClear(g, c, ds[..|ds| - 1], store);
    }
  }

  lemma {:induction false} DwellClear(d: Dwell, pr: map<TrackKey, Presence>, ks: seq<TrackKey>, store: int)
    requires Clear(d.tracks, store) && Clear(d.ms, store)
    requires (forall k :: k in ks ==> k in pr) && forall k :: k in pr ==> pr[k].store != store
    ensures Clear(CloseDwell(d, pr, ks).tracks, store) && Clear(CloseDwell(d, pr, ks).ms, store)
  {
    hide DwellMs;
    if ks != [] {
      DwellClear(d, pr, ks[..|ks| - 1], store);
    }
  }

  lemma {:induction false} SpanDwellClear(d: Dwell, spans: map<SpanKey, Span>, ks: seq<SpanKey>, store: int)
    requires Clear(d.tracks, store) && Clear(d.ms, store)
    requires (forall k :: k in ks ==> k in spans) && forall k :: k in spans ==> k.0 != store
    ensures Clear(CloseSpans(d, spans, ks).tracks, store) && Clear(CloseSpans(d, spans, ks).ms, store)
  {
    hide DwellMs;
    if ks != [] {
      SpanDwellClear(d, spans, ks[..|ks| - 1], store);
    }
  }

  /** The store of a presence never changes; a new one belongs to the batch's store. */
  ghost predicate StoresKept(pr: map<TrackKey, Presence>, pr': map<TrackKey, Presence>, store: int) {
    forall k :: k in pr' ==> if k in pr then pr'[k].store == pr[k].store else pr'[k].store == store
  }

  lemma {:induction false} MarkStores(pr: map<TrackKey, Presence>, c: Moment, marks: seq<(Option<int>, Option<int>)>)
    ensures StoresKept(pr, MarkAllStaff(pr, c, marks), c.store) && MarkAllStaff(pr, c, marks).Keys == pr.Keys
  {
    if marks != [] { MarkStores(pr, c, marks[..|marks| - 1]); }
  }

  lemma {:induction false} TouchStores(pr: map<TrackKey, Presence>, c: Moment, pids: seq<int>)
    ensures StoresKept(pr, TouchAll(pr, c, pids), c.store) && TouchAll(pr, c, pids).Keys >= pr.Keys
  {
    if pids != [] { TouchStores(pr, c, pids[..|pids| - 1]); }
  }

  lemma {:induction false} LinkStores(pr: map<TrackKey, Presence>, c: Moment, es: seq<(int, Option<int>)>)
    ensures StoresKept(pr, LinkAll(pr, c, es), c.store) && LinkAll(pr, c, es).Keys == pr.Keys
  {
    if es != [] { LinkStores(pr, c, es[..|es| - 1]); }
  }

  lemma {:induction false} StampStores(pr: map<TrackKey, Presence>, c: Moment, ds: seq<(int, string, string)>)
    ensures StoresKept(pr, StampAll(pr, c, ds), c.store) && StampAll(pr, c, ds).Keys == pr.Keys
  {
    if ds != [] { StampStores(pr, c, ds[..|ds| - 1]); }
  }

  lemma {:induction false} SampleStores(pr: map<TrackKey, Presence>, c: Moment, walls: seq<Wall>,
      camera: Option<Point>, es: seq<(int, Point)>)
    ensures StoresKept(pr, SampleAll(pr, c, walls, camera, es), c.store)
      && SampleAll(pr, c, walls, camera, es).Keys == pr.Keys
  {
    hide Samples, Round4;
    if es != [] { SampleStores(pr, c, walls, camera, es[..|es| - 1]); }
  }

  lemma {:induction false} EnterStores(pr: map<TrackKey, Presence>, c: Moment, es: seq<(int, nat)>)
    ensures StoresKept(pr, EnterAll(pr, c, es), c.store) && EnterAll(pr, c, es).Keys == pr.Keys
  {
    if es != [] { EnterStores(pr, c, es[..|es| - 1]); }
  }

  lemma FloorStores(s: State, c: Moment, b: Batch)
    ensures StoresKept(s.presence, OnFloor(s, c, b), c.store)
    ensures StoresKept(s.presence, EnterAll(OnFloor(s, c, b), c, b.cells), c.store)
  {
    hide MarkAllStaff, TouchAll, LinkAll, StampAll, SampleAll, EnterAll;
    var marked := MarkAllStaff(s.presence, c, b.staff);
    MarkStores(s.presence, c, b.staff);
    var touched := TouchAll(marked, c, b.present);
    TouchStores(marked, c, b.present);
    var linked := LinkAll(touched, c, b.spKeys);
    LinkStores(touched, c, b.spKeys);
    var stamped := StampAll(linked, c, b.demos);
    StampStores(linked, c, b.demos);
    SampleStores(stamped, c, WallsOf(s.tenancy, c.store), CameraOf(s.tenancy, c.store, c.camera), b.points);
    EnterStores(OnFloor(s, c, b), c, b.cells);
  }

  lemma {:induction false} SpansClear(spans: map<SpanKey, Span>, c: Moment, es: seq<(int, Option<int>)>,
      marks: seq<(Option<int>, Option<int>)>, store: int)
    requires (forall k :: k in spans ==> k.0 != store) && c.store != store
    ensures forall k :: k in ExtendSpans(DropSpans(spans, c, marks), c, es) ==> k.0 != store
    decreases |es|, |marks|
  {
    if es != [] {
      SpansClear(spans, c, es[..|es| - 1], marks, store);
    } else if marks != [] {
      SpansClear(spans, c, es, marks[..|marks| - 1], store);
    }
  }

  lemma IngestClear(s: State, c: Moment, b: Batch, store: int)
    requires ClearState(s, store) && c.store != store
    requires forall i :: 0 <= i < |b.pending| ==> b.pending[i].store == c.store
    ensures ClearState(Ingest(s, c, b), store)
  {
    BumpClear(s.buf, b.pending, store);
    CancelClear(s.gates, c, b.staff, store);
    HitClear(CancelVisits(s.gates, c, b.staff), c, b.gateHits, store);
    FlowClear(s.flow, OnFloor(s, c, b), c, b.cells, store);
    DemoClear(s.demos, c, b.demos, store);
    FloorStores(s, c, b);
    SpansClear(s.spans, c, b.spKeys, b.staff, store);
    hide OnFloor, HitGates, CancelVisits, CountDemos, CountFlows, EnterAll, ExtendSpans, DropSpans, BumpAll, Clear;
  }

  lemma PruneClear(s: State, now: real, order: seq<TrackKey>, spanOrder: seq<SpanKey>, store: int)
    requires ClearState(s, store)
    requires (forall k :: k in order ==> k in s.presence) && forall k :: k in spanOrder ==> k in s.spans
    ensures ClearState(Prune(s, now, order, spanOrder), store)
  {
    DwellClear(s.dwell, s.presence, order, store);
    SpanDwellClear(CloseDwell(s.dwell, s.presence, order), s.spans, spanOrder, store);
    hide CloseDwell, CloseSpans, Clear, ClosePaths, PruneDemos;
    PruneKeepsCounts(s.gates, s.demos, now);
  }

  lemma PruneKeepsCounts(g: Gates, d: Demos, now: real)
    ensures PruneGates(g, now).visits == g.visits && PruneDemos(g, d, now).counts == d.counts
  {
  }

  lemma {:induction false} TakeKeepsKnown(w: World, c: Moment, b: Batch, order: seq<TrackKey>, spanOrder: seq<SpanKey>,
      store: int)
    requires KnownOrClear(w.s, store) && Tenanted(w, Take(c, b, order, spanOrder, true), store)
      && Orders(w, c, b, order, spanOrder)
    ensures KnownOrClear(StepTake(w, c, b, order, spanOrder).s, store)
  {
    hide ClearState, Ingest, Prune;
    var s1 := Ingest(w.s, c, b);
    TenancyKept(w.s, c, b, order, spanOrder);
    if store !in w.s.tenancy.orgs {
      IngestClear(w.s, c, b, store);
      PruneClear(s1, c.now, order, spanOrder, store);
    }
  }

  lemma TenancyKept(s: State, c: Moment, b: Batch, order: seq<TrackKey>, spanOrder: seq<SpanKey>)
    requires forall k :: k in order ==> k in Ingest(s, c, b).presence
    requires forall k :: k in spanOrder ==> k in Ingest(s, c, b).spans
    ensures Prune(Ingest(s, c, b), c.now, order, spanOrder).tenancy == s.tenancy
  {
  }

  lemma FlushKeepsKnown(w: World, now: real, ok: bool, store: int)
    requires KnownOrClear(w.s, store)
    ensures KnownOrClear(StepFlush(w, now, ok).s, store)
  {
    hide Written, LostTables;
  }

  lemma ClearIsUnbuffered(s: State, k: Key)
    requires KnownOrClear(s, k.store)
    ensures k.store in s.tenancy.orgs || NoneBufferedAt(s, k)
  {
  }

  lemma {:induction false} StepKeepsKnown(w: World, op: Op, store: int)
    requires KnownOrClear(w.s, store) && Tenanted(w, op, store)
    ensures KnownOrClear(Step(w, op).s, store)
    ensures forall k: Key :: k.store == store ==> SafeWrite(w, op, k)
  {
    forall k: Key, s: State | k.store == store && WritesFrom(w, op, s)
      ensures store in s.tenancy.orgs || NoneBufferedAt(s, k)
    {
      hide KnownOrClear, NoneBufferedAt, StepTake, StepFlush, Ingest, NothingBuffered, FlushDue, ValidOp;
      if op.Take? {
        TakeKeepsKnown(w, op.c, op.b, op.order, op.spanOrder, store);
      }
      ClearIsUnbuffered(s, k);
    }
    if ValidOp(w, op) {
      match op
      case Lookup(_, _, _, _, _) =>
      case Flush(now, ok) =>
        hide KnownOrClear, StepFlush;
        FlushKeepsKnown(w, now, ok, store);
      case Take(c, b, order, spanOrder, ok) =>
        if !Idle(b) {
          OrdersOf(w, c, b, order, spanOrder, ok);
          hide KnownOrClear, StepTake, StepFlush, Ingest, ValidOp, FlushDue;
          TakeKeepsKnown(w, c, b, order, spanOrder, store);
          FlushKeepsKnown(StepTake(w, c, b, order, spanOrder), c.now, ok, store);
        }
    }
  }

  ghost predicate TenantedRun(w: World, ops: seq<Op>, store: int) {
    forall i :: 0 <= i < |ops| ==> Tenanted(Run(w, ops[..i]), ops[i], store)
  }

  lemma TenantedPart(w: World, ops: seq<Op>, store: int, n: nat)
    requires TenantedRun(w, ops, store) && n <= |ops|
    ensures TenantedRun(w, ops[..n], store)
  {
    hide Tenanted, Run;
    var part := ops[..n];
    forall i | 0 <= i < n ensures Tenanted(Run(w, part[..i]), part[i], store) {
      assert part[..i] == ops[..i];
    }
  }

  lemma {:induction false} RunKnown(now: real, ops: seq<Op>, store: int)
    requires TenantedRun(Start(now), ops, store)
    ensures KnownOrClear(Run(Start(now), ops).s, store)
  {
    if ops == [] {
      assert KnownOrClear(Start(now).s, store);
    } else {
      var n := |ops| - 1;
      assert Tenanted(Run(Start(now), ops[..n]), ops[n], store);
      TenantedPart(Start(now), ops, store, n);
      hide KnownOrClear, Step, SafeWrite, TenantedRun, Tenanted;
      RunKnown(now, ops[..n], store);
      StepKeepsKnown(Run(Start(now), ops[..n]), ops[n], store);
    }
  }

  lemma {:induction false} WritesSafe(now: real, ops: seq<Op>, k: Key, n: nat)
    requires TenantedRun(Start(now), ops, k.store) && n < |ops|
    ensures SafeWrite(Run(Start(now), ops[..n]), ops[n], k)
  {
    assert Tenanted(Run(Start(now), ops[..n]), ops[n], k.store);
    TenantedPart(Start(now), ops, k.store, n);
    hide Run, KnownOrClear, Step, SafeWrite, TenantedRun, Tenanted;
    RunKnown(now, ops[..n], k.store);
    StepKeepsKnown(Run(Start(now), ops[..n]), ops[n], k.store);
  }

  /** Main result: a store whose frames are handled only once its organization is known never loses a count. */
  lemma {:induction false} KnownStoreLosesNothing(now: real, ops: seq<Op>, k: Key)
    requires TenantedRun(Start(now), ops, k.store)
    ensures Complete(Run(Start(now), ops), k)
  {
    hide Complete, SafeWrite, Run, TenantedRun;
    forall n | 0 <= n < |ops| ensures SafeWrite(Run(Start(now), ops[..n]), ops[n], k) {
      WritesSafe(now, ops, k, n);
    }
    NothingLost(now, ops, k);
  }
}
