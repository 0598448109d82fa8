/**
 Each transition of the footfall aggregator against the events it stands for, and the
 invariants one transition keeps.
 */
module FootfallEffects {
  import opened Options
  import opened Tally
  import opened FootfallModel
  import opened FootfallEvents
  import opened Geometry
  import opened PathSplit

  // ---- each transition against its events -----------------------------------------------------

  lemma {:induction false} HitGatesCount(g: Gates, c: Moment, hits: seq<(VisitKey, bool)>, b: Key)
    ensures Get(HitGates(g, c, hits).visits, b) == Get(g.visits, b) + Count(FreshEvents(c, hits), b)
  {
    if hits != [] {
      var front, h := hits[..|hits| - 1], hits[|hits| - 1];
      HitGatesCount(g, c, front, b);
      CountSnoc(FreshEvents(c, front), if h.1 then Some(VisitBucket(c)) else None, b);
    }
  }

  lemma {:induction false} CountFlowsCount(flow: Counter, pr: map<TrackKey, Presence>, c: Moment, es: seq<(int, nat)>,
      b: Key)
    ensures Get(CountFlows(flow, pr, c, es), b) == Get(flow, b) + Count(FlowEvents(pr, c, es), b)
  {
    hide Crossed;
    if es != [] {
      var front := es[..|es| - 1];
      CountFlowsCount(flow, pr, c, front, b);
      CountSnoc(FlowEvents(pr, c, front), Crossed(EnterAll(pr, c, front), c, es[|es| - 1]), b);
    }
  }

  lemma {:induction false} CountDemosCount(g: Demos, c: Moment, ds: seq<(int, string, string)>, b: Key)
    ensures Get(CountDemos(g, c, ds).counts, b) == Get(g.counts, b) + Count(DemoEvents(g, c, ds), b)
  {
    if ds != [] {
      var front := ds[..|ds| - 1];
      CountDemosCount(g, c, front, b);
      CountSnoc(DemoEvents(g, c, front), NewDemo(CountDemos(g, c, front), c, ds[|ds| - 1]), b);
    }
  }

  lemma {:induction false} CloseDwellCount(d: Dwell, pr: map<TrackKey, Presence>, ks: seq<TrackKey>, b: Key)
    requires forall k :: k in ks ==> k in pr
    ensures Get(CloseDwell(d, pr, ks).tracks, b) == Get(d.tracks, b) + BankedAt(TrackClosings(pr, ks), b)
    ensures Get(CloseDwell(d, pr, ks).ms, b) == Get(d.ms, b) + BankedMs(TrackClosings(pr, ks), b)
  {
    hide CloseOutcome;
    if ks != [] {
      var front := ks[..|ks| - 1];
      CloseDwellCount(d, pr, front, b);
      var outs := TrackClosings(pr, ks);
      assert outs[..|outs| - 1] == TrackClosings(pr, front);
    }
  }

  lemma {:induction false} CloseSpansCount(d: Dwell, spans: map<SpanKey, Span>, ks: seq<SpanKey>, b: Key)
    requires forall k :: k in ks ==> k in spans
    ensures Get(CloseSpans(d, spans, ks).tracks, b) == Get(d.tracks, b) + BankedAt(SpanClosings(spans, ks), b)
    ensures Get(CloseSpans(d, spans, ks).ms, b) == Get(d.ms, b) + BankedMs(SpanClosings(spans, ks), b)
  {
    hide SpanOutcome;
    if ks != [] {
      var front := ks[..|ks| - 1];
      CloseSpansCount(d, spans, front, b);
      var outs := SpanClosings(spans, ks);
      assert outs[..|outs| - 1] == SpanClosings(spans, front);
    }
  }

  // ---- visit credits ------------------------------------------------------------------------------

  /** How many outstanding credits point at bucket b. */
  function CreditsAt(credit: map<VisitKey, Key>, b: Key): nat {
    |set k | k in credit && credit[k] == b|
  }

  /** Every credit is backed by a buffered visit, and belongs to a key still deduplicated. */
  ghost predicate VisitInv(g: Gates) {
    && g.credit.Keys <= g.seen.Keys
    && forall b :: CreditsAt(g.credit, b) <= Get(g.visits, b)
  }

  lemma CreditRemoved(credit: map<VisitKey, Key>, k: VisitKey, b: Key)
    ensures CreditsAt(credit - {k}, b) == CreditsAt(credit, b) - if k in credit && credit[k] == b then 1 else 0
  {
    var all := set q | q in credit && credit[q] == b;
    var credit' := credit - {k};
    assert (set q | q in credit' && credit'[q] == b) == all - {k};
  }

  lemma CreditAdded(credit: map<VisitKey, Key>, k: VisitKey, b': Key, b: Key)
    ensures CreditsAt(credit[k := b'], b) <= CreditsAt(credit, b) + if b == b' then 1 else 0
  {
    var all := set q | q in credit && credit[q] == b;
    var credit' := credit[k := b'];
    var now := set q | q in credit' && credit'[q] == b;
    if b == b' {
      assert now == all + {k};
    } else {
      assert now == all - {k};
    }
  }

  lemma CreditsShrink(credit: map<VisitKey, Key>, credit': map<VisitKey, Key>, b: Key)
    requires forall k :: k in credit' ==> k in credit && credit'[k] == credit[k]
    ensures CreditsAt(credit', b) <= CreditsAt(credit, b)
  {
    var all := set q | q in credit && credit[q] == b;
    var now := set q | q in credit' && credit'[q] == b;
    SubsetSize(now, all);
  }

  lemma {:induction false} SubsetSize<T>(a: set<T>, b: set<T>)
    requires a <= b
    ensures |a| <= |b|
  {
    if a != {} {
      var x :| x in a;
      SubsetSize(a - {x}, b - {x});
    }
  }

  /** The `> 0` guard never blocks: a credit found is a visit taken back. */
  lemma GuardNeverBlocks(g: Gates, k: VisitKey)
    requires VisitInv(g)
    ensures TakeBack(g.visits, g.credit, k) == if k in g.credit then Bump(g.visits, g.credit[k], -1) else g.visits
  {
    if k in g.credit {
      var b := g.credit[k];
      var at := set q | q in g.credit && g.credit[q] == b;
      assert k in at;
      assert CreditsAt(g.credit, b) == |at|;
      assert |at| >= 1 by {
        SubsetSize({k}, at);
      }
    }
  }

  lemma CancelVisitEffect(g: Gates, c: Moment, m: (Option<int>, Option<int>), b: Key)
    requires VisitInv(g)
    ensures VisitInv(CancelVisit(g, c, m))
    ensures Get(CancelVisit(g, c, m).visits, b) == Get(g.visits, b) - if Refund(g, c, m) == Some(b) then 1 else 0
  {
    var k := StaffKey(c, m);
    if k.Some? {
      GuardNeverBlocks(g, k.value);
      var g' := CancelVisit(g, c, m);
      forall b' ensures CreditsAt(g'.credit, b') <= Get(g'.visits, b') {
        CreditRemoved(g.credit, k.value, b');
      }
    }
  }

  lemma {:induction false} CancelVisitsEffect(g: Gates, c: Moment, marks: seq<(Option<int>, Option<int>)>, b: Key)
    requires VisitInv(g)
    ensures VisitInv(CancelVisits(g, c, marks))
    ensures Get(CancelVisits(g, c, marks).visits, b) == Get(g.visits, b) - Count(RefundEvents(g, c, marks), b)
  {
    hide VisitInv;
    if marks != [] {
      var front, m := marks[..|marks| - 1], marks[|marks| - 1];
      CancelVisitsEffect(g, c, front, b);
      CancelVisitEffect(CancelVisits(g, c, front), c, m, b);
      CountSnoc(RefundEvents(g, c, front), Refund(CancelVisits(g, c, front), c, m), b);
    }
  }

  lemma {:induction false} HitGatesKeepsCredits(g: Gates, c: Moment, hits: seq<(VisitKey, bool)>)
    requires VisitInv(g)
    ensures VisitInv(HitGates(g, c, hits))
  {
    if hits != [] {
      var front, h := hits[..|hits| - 1], hits[|hits| - 1];
      HitGatesKeepsCredits(g, c, front);
      HitGateKeepsCredits(HitGates(g, c, front), c, h);
    }
  }

  lemma HitGateKeepsCredits(g: Gates, c: Moment, h: (VisitKey, bool))
    requires VisitInv(g)
    ensures VisitInv(HitGate(g, c, h))
  {
    var g' := HitGate(g, c, h);
    forall b ensures CreditsAt(g'.credit, b) <= Get(g'.visits, b) {
      CreditAdded(g.credit, h.0, VisitBucket(c), b);
    }
  }

  lemma PruneGatesKeepsCredits(g: Gates, now: real)
    requires VisitInv(g)
    ensures VisitInv(PruneGates(g, now))
  {
    var g' := PruneGates(g, now);
    forall b ensures CreditsAt(g'.credit, b) <= Get(g'.visits, b) {
      CreditsShrink(g.credit, g'.credit, b);
    }
  }

  // ---- the gate memory against its events -----------------------------------------------------------

  /** What the dictionaries say of k is what its events say. */
  ghost predicate KeyTold(g: Gates, ev: seq<GateEvent>, k: VisitKey) {
    && (k in g.seen <==> Remembered(ev, k))
    && (k in g.seen ==> LastTouch(ev, k) == Some(g.seen[k]))
    && CreditOf(ev, k) == (if k in g.credit then Some(g.credit[k]) else None)
    && (k in g.credit ==> k in g.seen)
  }

  ghost predicate GatesTold(g: Gates, ev: seq<GateEvent>) {
    forall k :: KeyTold(g, ev, k)
  }

  /** No event lies in the future. */
  ghost predicate Past(ev: seq<GateEvent>, clock: real) {
    forall i :: 0 <= i < |ev| && !ev[i].Attempt? ==> ev[i].at <= clock
  }

  lemma BadgeTold(g: Gates, ev: seq<GateEvent>, c: Moment, m: (Option<int>, Option<int>), k: VisitKey)
    requires KeyTold(g, ev, k)
    ensures var b := StaffKey(c, m);
      KeyTold(CancelVisit(g, c, m), ev + if b.Some? then [Badge(b.value, c.now)] else [], k)
  {
    hide StaffKey, TakeBack;
    var b := StaffKey(c, m);
    if b.Some? {
      assert (ev + [Badge(b.value, c.now)])[..|ev|] == ev;
    } else {
      assert ev + [] == ev;
    }
  }

  lemma {:induction false} BadgesTold(g: Gates, ev: seq<GateEvent>, c: Moment, marks: seq<(Option<int>, Option<int>)>)
    requires GatesTold(g, ev)
    ensures GatesTold(CancelVisits(g, c, marks), ev + GateBadges(c, marks))
  {
    if marks == [] {
      assert ev + [] == ev;
    } else {
      var front, m := marks[..|marks| - 1], marks[|marks| - 1];
      BadgesTold(g, ev, c, front);
      var before, b := ev + GateBadges(c, front), StaffKey(c, m);
      var more: seq<GateEvent> := if b.Some? then [Badge(b.value, c.now)] else [];
      assert ev + GateBadges(c, marks) == before + more;
      hide KeyTold, CancelVisit, StaffKey, GateBadges;
      forall k ensures KeyTold(CancelVisits(g, c, marks), before + more, k) {
        BadgeTold(CancelVisits(g, c, front), before, c, m, k);
      }
    }
  }

  lemma HitTold(g: Gates, ev: seq<GateEvent>, c: Moment, h: (VisitKey, bool), k: VisitKey)
    requires KeyTold(g, ev, k)
    ensures KeyTold(HitGate(g, c, h), ev + [Hit(h.0, VisitBucket(c), h.1, c.now)], k)
  {
    assert (ev + [Hit(h.0, VisitBucket(c), h.1, c.now)])[..|ev|] == ev;
  }

  lemma {:induction false} HitsTold(g: Gates, ev: seq<GateEvent>, c: Moment, hits: seq<(VisitKey, bool)>)
    requires GatesTold(g, ev)
    ensures GatesTold(HitGates(g, c, hits), ev + GateHits(c, hits))
  {
    if hits == [] {
      assert ev + [] == ev;
    } else {
      var front, h := hits[..|hits| - 1], hits[|hits| - 1];
      HitsTold(g, ev, c, front);
      var before, e := ev + GateHits(c, front), Hit(h.0, VisitBucket(c), h.1, c.now);
      assert ev + GateHits(c, hits) == before + [e];
      hide KeyTold, HitGate, GateHits;
      forall k ensures KeyTold(HitGates(g, c, hits), before + [e], k) {
        HitTold(HitGates(g, c, front), before, c, h, k);
      }
    }
  }

  lemma SweepTold(g: Gates, ev: seq<GateEvent>, now: real)
    requires GatesTold(g, ev)
    ensures GatesTold(PruneGates(g, now), ev + if GatePruneDue(g, now) then [Sweep(now)] else [])
  {
    if GatePruneDue(g, now) {
      assert (ev + [Sweep(now)])[..|ev|] == ev;
      forall k ensures KeyTold(PruneGates(g, now), ev + [Sweep(now)], k) {
        assert KeyTold(g, ev, k);
      }
    } else {
      assert ev + [] == ev;
    }
  }

  lemma AttemptTold(g: Gates, ev: seq<GateEvent>, ok: bool, visits: Counter)
    requires GatesTold(g, ev)
    ensures GatesTold(g.(visits := visits, credit := map[]), ev + [Attempt(ok)])
  {
    assert (ev + [Attempt(ok)])[..|ev|] == ev;
    forall k ensures KeyTold(g.(visits := visits, credit := map[]), ev + [Attempt(ok)], k) {
      assert KeyTold(g, ev, k);
    }
  }

  /** A batch and the prune after it leave dictionaries that say what the events say. */
  lemma BatchKeepsSeen(g: Gates, ev: seq<GateEvent>, c: Moment, b: Batch)
    requires GatesTold(g, ev)
    ensures var g1 := HitGates(CancelVisits(g, c, b.staff), c, b.gateHits);
      GatesTold(PruneGates(g1, c.now), ev + GateEvents(g1, c, b))
  {
    var g0 := CancelVisits(g, c, b.staff);
    var g1 := HitGates(g0, c, b.gateHits);
    BadgesTold(g, ev, c, b.staff);
    var ev0 := ev + GateBadges(c, b.staff);
    HitsTold(g0, ev0, c, b.gateHits);
    var ev1 := ev0 + GateHits(c, b.gateHits);
    SweepTold(g1, ev1, c.now);
    var sweep: seq<GateEvent> := if GatePruneDue(g1, c.now) then [Sweep(c.now)] else [];
    assert ev + GateEvents(g1, c, b) == ev1 + sweep;
  }

  lemma {:induction false} BadgesNow(c: Moment, marks: seq<(Option<int>, Option<int>)>)
    ensures forall i :: 0 <= i < |GateBadges(c, marks)| ==>
      GateBadges(c, marks)[i].Badge? && GateBadges(c, marks)[i].at == c.now
  {
    if marks != [] {
      BadgesNow(c, marks[..|marks| - 1]);
    }
  }

  lemma {:induction false} HitsNow(c: Moment, hits: seq<(VisitKey, bool)>)
    ensures forall i :: 0 <= i < |GateHits(c, hits)| ==> GateHits(c, hits)[i].Hit? && GateHits(c, hits)[i].at == c.now
  {
    if hits != [] {
      HitsNow(c, hits[..|hits| - 1]);
    }
  }

  lemma BatchIsPast(g: Gates, ev: seq<GateEvent>, clock: real, c: Moment, b: Batch)
    requires Past(ev, clock) && clock <= c.now
    ensures Past(ev + GateEvents(g, c, b), c.now)
  {
    BadgesNow(c, b.staff);
    HitsNow(c, b.gateHits);
    hide GateBadges, GateHits;
  }

  /** A batch read from a frame flags exactly the keys that were not deduplicated. */
  lemma {:induction false} CollectFlags(f: Frame, seen: set<VisitKey>, tracks: seq<Track>, i: nat)
    requires i < |Collect(f, seen, tracks).gateHits|
    ensures Collect(f, seen, tracks).gateHits[i].1 <==> Collect(f, seen, tracks).gateHits[i].0 !in seen
  {
    hide Located, InGate, GateKey;
    if tracks != [] {
      var front := Collect(f, seen, tracks[..|tracks| - 1]);
      if i < |front.gateHits| {
        CollectFlags(f, seen, tracks[..|tracks| - 1], i);
      }
    }
  }

  /** Heatmap samples depend on the frame alone, and belong to its store. */
  lemma {:induction false} CollectPending(f: Frame, seen: set<VisitKey>, seen': set<VisitKey>, tracks: seq<Track>)
    ensures Collect(f, seen, tracks).pending == Collect(f, seen', tracks).pending
    ensures forall i :: 0 <= i < |Collect(f, seen, tracks).pending| ==>
      Collect(f, seen, tracks).pending[i].store == f.store
  {
    hide Located, InGate, GateKey;
    if tracks != [] {
      CollectPending(f, seen, seen', tracks[..|tracks| - 1]);
    }
  }

  // ---- presences ----------------------------------------------------------------------------------

  /** Sane presences: times in order and in the past, the path within its cap. */
  ghost predicate PresenceInv(pr: map<TrackKey, Presence>, clock: real) {
    forall k :: k in pr ==> pr[k].first <= pr[k].last <= clock && |pr[k].path| <= PATH_MAX_POINTS
  }

  ghost predicate SpanInv(spans: map<SpanKey, Span>, clock: real) {
    forall k :: k in spans ==> spans[k].first <= spans[k].last <= clock
  }

  /** pr' has the keys of pr plus `added`, and staff marks stay. */
  ghost predicate Grows(pr: map<TrackKey, Presence>, pr': map<TrackKey, Presence>, added: set<TrackKey>) {
    && pr'.Keys == pr.Keys + added
    && forall k :: k in pr && pr[k].isStaff ==> pr'[k].isStaff
  }

  lemma {:induction false} MarkAllStaffKeeps(pr: map<TrackKey, Presence>, c: Moment,
      marks: seq<(Option<int>, Option<int>)>)
    requires PresenceInv(pr, c.now)
    ensures PresenceInv(MarkAllStaff(pr, c, marks), c.now) && Grows(pr, MarkAllStaff(pr, c, marks), {})
  {
    if marks != [] {
      MarkAllStaffKeeps(pr, c, marks[..|marks| - 1]);
    }
  }

  function PresentKeys(c: Moment, pids: seq<int>): set<TrackKey> {
    if pids == [] then {} else PresentKeys(c, pids[..|pids| - 1]) + {(c.camera, pids[|pids| - 1])}
  }

  lemma {:induction false} TouchAllKeeps(pr: map<TrackKey, Presence>, c: Moment, pids: seq<int>)
    requires PresenceInv(pr, c.now)
    ensures PresenceInv(TouchAll(pr, c, pids), c.now)
    ensures Grows(pr, TouchAll(pr, c, pids), PresentKeys(c, pids))
  {
    if pids != [] {
      TouchAllKeeps(pr, c, pids[..|pids| - 1]);
    }
  }

  lemma {:induction false} LinkAllKeeps(pr: map<TrackKey, Presence>, c: Moment, es: seq<(int, Option<int>)>)
    requires PresenceInv(pr, c.now)
    ensures PresenceInv(LinkAll(pr, c, es), c.now) && Grows(pr, LinkAll(pr, c, es), {})
  {
    if es != [] {
      LinkAllKeeps(pr, c, es[..|es| - 1]);
    }
  }

  lemma {:induction false} StampAllKeeps(pr: map<TrackKey, Presence>, c: Moment, ds: seq<(int, string, string)>)
    requires PresenceInv(pr, c.now)
    ensures PresenceInv(StampAll(pr, c, ds), c.now) && Grows(pr, StampAll(pr, c, ds), {})
  {
    if ds != [] {
      StampAllKeeps(pr, c, ds[..|ds| - 1]);
    }
  }

  lemma {:induction false} SampleAllKeeps(pr: map<TrackKey, Presence>, c: Moment, walls: seq<Wall>,
      camera: Option<Point>, es: seq<(int, Point)>)
    requires PresenceInv(pr, c.now)
    ensures PresenceInv(SampleAll(pr, c, walls, camera, es), c.now)
      && Grows(pr, SampleAll(pr, c, walls, camera, es), {})
  {
    hide BehindWall, OnCanvas, Round4;
    if es != [] {
      SampleAllKeeps(pr, c, walls, camera, es[..|es| - 1]);
    }
  }

  lemma {:induction false} EnterAllKeeps(pr: map<TrackKey, Presence>, c: Moment, es: seq<(int, nat)>)
    requires PresenceInv(pr, c.now)
    ensures PresenceInv(EnterAll(pr, c, es), c.now) && Grows(pr, EnterAll(pr, c, es), {})
  {
    if es != [] {
      EnterAllKeeps(pr, c, es[..|es| - 1]);
    }
  }

  /** The tracks a batch shows that had no presence yet. */
  function NewTracks(pr: map<TrackKey, Presence>, c: Moment, b: Batch): set<TrackKey> {
    PresentKeys(c, b.present) - pr.Keys
  }

  lemma OnFloorKeeps(s: State, c: Moment, b: Batch)
    requires PresenceInv(s.presence, c.now)
    ensures PresenceInv(OnFloor(s, c, b), c.now) && Grows(s.presence, OnFloor(s, c, b), PresentKeys(c, b.present))
  {
    hide PresenceInv, MarkAllStaff, TouchAll, LinkAll, StampAll, SampleAll, PresentKeys;
    var marked := MarkAllStaff(s.presence, c, b.staff);
    MarkAllStaffKeeps(s.presence, c, b.staff);
    var touched := TouchAll(marked, c, b.present);
    TouchAllKeeps(marked, c, b.present);
    var linked := LinkAll(touched, c, b.spKeys);
    LinkAllKeeps(touched, c, b.spKeys);
    StampAllKeeps(linked, c, b.demos);
    SampleAllKeeps(StampAll(linked, c, b.demos), c, WallsOf(s.tenancy, c.store),
      CameraOf(s.tenancy, c.store, c.camera), b.points);
  }

  lemma IngestPresence(s: State, c: Moment, b: Batch)
    requires PresenceInv(s.presence, c.now)
    ensures PresenceInv(Ingest(s, c, b).presence, c.now)
    ensures Grows(s.presence, Ingest(s, c, b).presence, PresentKeys(c, b.present))
    ensures |Ingest(s, c, b).presence.Keys| == |s.presence.Keys| + |NewTracks(s.presence, c, b)|
  {
    var floor := OnFloor(s, c, b);
    OnFloorKeeps(s, c, b);
    EnterAllKeeps(floor, c, b.cells);
    hide PresenceInv, OnFloor, EnterAll, PresentKeys;
    hide BumpAll, HitGates, CancelVisits, CountDemos, CountFlows, ExtendSpans, DropSpans;
    var pr := EnterAll(floor, c, b.cells);
    assert Ingest(s, c, b).presence == pr;
    hide Ingest;
    UnionSize(s.presence.Keys, PresentKeys(c, b.present));
  }

  lemma UnionSize<T>(a: set<T>, b: set<T>)
    ensures |a + b| == |a| + |b - a|
  {
  }

  lemma {:induction false} ExtendSpansKeeps(spans: map<SpanKey, Span>, c: Moment, es: seq<(int, Option<int>)>)
    requires SpanInv(spans, c.now)
    ensures SpanInv(ExtendSpans(spans, c, es), c.now)
  {
    if es != [] {
      ExtendSpansKeeps(spans, c, es[..|es| - 1]);
    }
  }

  lemma {:induction false} DropSpansKeeps(spans: map<SpanKey, Span>, c: Moment, marks: seq<(Option<int>, Option<int>)>)
    requires SpanInv(spans, c.now)
    ensures SpanInv(DropSpans(spans, c, marks), c.now)
  {
    if marks != [] {
      DropSpansKeeps(spans, c, marks[..|marks| - 1]);
    }
  }

  // ---- presences and spans against their lives ------------------------------------------------------

  /** Each track's phase is what its presence says. */
  ghost predicate TrackTold(pr: map<TrackKey, Presence>, life: seq<(TrackKey, Life)>, k: TrackKey) {
    PhaseOf(life, k) == if k in pr then Here(pr[k].isStaff, pr[k].hasSp) else Away
  }

  ghost predicate TracksTold(pr: map<TrackKey, Presence>, life: seq<(TrackKey, Life)>) {
    forall k :: TrackTold(pr, life, k)
  }

  /** One event of one track: its phase moves on, every other track stays as it is. */
  lemma TrackStep(pr: map<TrackKey, Presence>, pr': map<TrackKey, Presence>, life: seq<(TrackKey, Life)>, k: TrackKey,
      e: Life)
    requires TracksTold(pr, life)
    requires forall q :: q != k ==> (q in pr <==> q in pr')
    requires forall q :: q != k && q in pr && q in pr' ==>
      pr'[q].isStaff == pr[q].isStaff && pr'[q].hasSp == pr[q].hasSp
    requires (if k in pr' then Here(pr'[k].isStaff, pr'[k].hasSp) else Away)
      == NextPhase(if k in pr then Here(pr[k].isStaff, pr[k].hasSp) else Away, e)
    ensures TracksTold(pr', life + [(k, e)])
  {
    assert (life + [(k, e)])[..|life|] == life;
    forall q ensures TrackTold(pr', life + [(k, e)], q) {
      assert TrackTold(pr, life, q);
    }
  }

  /** Same tracks, same flags. */
  ghost predicate SameFlags(pr: map<TrackKey, Presence>, pr': map<TrackKey, Presence>) {
    && pr.Keys == pr'.Keys
    && forall k :: k in pr ==> pr[k].isStaff == pr'[k].isStaff && pr[k].hasSp == pr'[k].hasSp
  }

  lemma {:induction false} MarksTold(pr: map<TrackKey, Presence>, life: seq<(TrackKey, Life)>, c: Moment,
                                     marks: seq<(Option<int>, Option<int>)>)
    requires TracksTold(pr, life)
    ensures TracksTold(MarkAllStaff(pr, c, marks), life + BadgeEvents(pr, c, marks))
    ensures MarkAllStaff(pr, c, marks).Keys == pr.Keys
  {
    var more := BadgeEvents(pr, c, marks);
    if marks == [] {
      assert life + more == life;
    } else {
      var front, m := marks[..|marks| - 1], marks[|marks| - 1];
      MarksTold(pr, life, c, front);
      if m.0.Some? && (c.camera, m.0.value) in pr {
        var before := life + BadgeEvents(pr, c, front);
        assert life + more == before + [((c.camera, m.0.value), Badged)];
        TrackStep(MarkAllStaff(pr, c, front), MarkAllStaff(pr, c, marks), before, (c.camera, m.0.value), Badged);
      } else {
        assert more == BadgeEvents(pr, c, front);
      }
    }
  }

  lemma {:induction false} TouchesTold(pr: map<TrackKey, Presence>, life: seq<(TrackKey, Life)>, c: Moment,
      pids: seq<int>)
    requires TracksTold(pr, life)
    ensures TracksTold(TouchAll(pr, c, pids), life + OpenEvents(pr, c, pids))
  {
    var more := OpenEvents(pr, c, pids);
    if pids == [] {
      assert life + more == life;
    } else {
      var front, k := pids[..|pids| - 1], (c.camera, pids[|pids| - 1]);
      TouchesTold(pr, life, c, front);
      if k !in TouchAll(pr, c, front) {
        var before := life + OpenEvents(pr, c, front);
        assert life + more == before + [(k, Opened)];
        TrackStep(TouchAll(pr, c, front), TouchAll(pr, c, pids), before, k, Opened);
      } else {
        assert more == OpenEvents(pr, c, front);
        FlagsTold(TouchAll(pr, c, front), TouchAll(pr, c, pids), life + more);
      }
    }
  }

  lemma {:induction false} LinksTold(pr: map<TrackKey, Presence>, life: seq<(TrackKey, Life)>, c: Moment,
      es: seq<(int, Option<int>)>)
    requires TracksTold(pr, life)
    ensures TracksTold(LinkAll(pr, c, es), life + LinkEvents(pr, c, es)) && LinkAll(pr, c, es).Keys == pr.Keys
  {
    var more := LinkEvents(pr, c, es);
    if es == [] {
      assert life + more == life;
    } else {
      var front, e := es[..|es| - 1], es[|es| - 1];
      LinksTold(pr, life, c, front);
      if e.1.Some? && (c.camera, e.0) in pr {
        var before := life + LinkEvents(pr, c, front);
        assert life + more == before + [((c.camera, e.0), Linked)];
        TrackStep(LinkAll(pr, c, front), LinkAll(pr, c, es), before, (c.camera, e.0), Linked);
      } else {
        assert more == LinkEvents(pr, c, front);
      }
    }
  }

  lemma {:induction false} StampFlags(pr: map<TrackKey, Presence>, c: Moment, ds: seq<(int, string, string)>)
    ensures SameFlags(pr, StampAll(pr, c, ds))
  {
    if ds != [] {
      StampFlags(pr, c, ds[..|ds| - 1]);
    }
  }

  lemma {:induction false} SampleFlags(pr: map<TrackKey, Presence>, c: Moment, walls: seq<Wall>, camera: Option<Point>,
      es: seq<(int, Point)>)
    ensures SameFlags(pr, SampleAll(pr, c, walls, camera, es))
  {
    hide Samples, Round4;
    if es != [] {
      SampleFlags(pr, c, walls, camera, es[..|es| - 1]);
    }
  }

  lemma {:induction false} EnterFlags(pr: map<TrackKey, Presence>, c: Moment, es: seq<(int, nat)>)
    ensures SameFlags(pr, EnterAll(pr, c, es))
  {
    if es != [] {
      EnterFlags(pr, c, es[..|es| - 1]);
    }
  }

  lemma FlagsTold(pr: map<TrackKey, Presence>, pr': map<TrackKey, Presence>, life: seq<(TrackKey, Life)>)
    requires TracksTold(pr, life) && SameFlags(pr, pr')
    ensures TracksTold(pr', life)
  {
    forall k ensures TrackTold(pr', life, k) {
      assert TrackTold(pr, life, k);
    }
  }

  lemma BatchTracksTold(s: State, life: seq<(TrackKey, Life)>, c: Moment, b: Batch)
    requires TracksTold(s.presence, life)
    ensures TracksTold(EnterAll(OnFloor(s, c, b), c, b.cells), life + TrackEvents(s, c, b))
  {
    hide TracksTold, SameFlags, MarkAllStaff, TouchAll, LinkAll, StampAll, SampleAll, EnterAll;
    hide BadgeEvents, OpenEvents, LinkEvents, WallsOf, CameraOf;
    var marked := MarkAllStaff(s.presence, c, b.staff);
    var life1 := life + BadgeEvents(s.presence, c, b.staff);
    MarksTold(s.presence, life, c, b.staff);
    var touched := TouchAll(marked, c, b.present);
    var life2 := life1 + OpenEvents(marked, c, b.present);
    TouchesTold(marked, life1, c, b.present);
    var linked := LinkAll(touched, c, b.spKeys);
    var life3 := life2 + LinkEvents(touched, c, b.spKeys);
    LinksTold(touched, life2, c, b.spKeys);
    var stamped := StampAll(linked, c, b.demos);
    StampFlags(linked, c, b.demos);
    FlagsTold(linked, stamped, life3);
    var floor := OnFloor(s, c, b);
    SampleFlags(stamped, c, WallsOf(s.tenancy, c.store), CameraOf(s.tenancy, c.store, c.camera), b.points);
    FlagsTold(stamped, floor, life3);
    EnterFlags(floor, c, b.cells);
    FlagsTold(floor, EnterAll(floor, c, b.cells), life3);
    assert life + TrackEvents(s, c, b) == life3;
  }

  lemma {:induction false} ClosingsTold(pr: map<TrackKey, Presence>, life: seq<(TrackKey, Life)>, ks: seq<TrackKey>,
      clock: real)
    requires TracksTold(pr, life) && PresenceInv(pr, clock) && forall k :: k in ks ==> k in pr
    requires forall i, j :: 0 <= i < j < |ks| ==> ks[i] != ks[j]
    ensures TracksTold(pr - (set k | k in ks), life + TrackClosings(pr, ks))
  {
    hide PresenceInv;
    if ks == [] {
      assert life + TrackClosings(pr, ks) == life;
      assert pr - (set k | k in ks) == pr;
    } else {
      var front, k := ks[..|ks| - 1], ks[|ks| - 1];
      assert ks == front + [k];
      ClosingsTold(pr, life, front, clock);
      var o := CloseOutcome(k, pr[k]);
      ClosingFits(pr, clock, k);
      var before := life + TrackClosings(pr, front);
      assert life + TrackClosings(pr, ks) == before + [(k, Closed(o))];
      hide CloseOutcome, TrackClosings;
      assert k !in front;
      var left, rest := pr - (set q | q in front), pr - (set q | q in ks);
      TrackStep(left, rest, before, k, Closed(o));
    }
  }

  lemma ClosingFits(pr: map<TrackKey, Presence>, clock: real, k: TrackKey)
    requires PresenceInv(pr, clock) && k in pr
    ensures Fits(pr[k].isStaff, pr[k].hasSp, CloseOutcome(k, pr[k]))
  {
  }

  ghost predicate SpanTold(spans: map<SpanKey, Span>, life: seq<(SpanKey, Life)>, k: SpanKey) {
    PhaseOf(life, k) == if k in spans then Here(false, false) else Away
  }

  ghost predicate SpansTold(spans: map<SpanKey, Span>, life: seq<(SpanKey, Life)>) {
    forall k :: SpanTold(spans, life, k)
  }

  lemma SpanStep(spans: map<SpanKey, Span>, spans': map<SpanKey, Span>, life: seq<(SpanKey, Life)>, k: SpanKey, e: Life)
    requires SpansTold(spans, life)
    requires forall q :: q != k ==> (q in spans <==> q in spans')
    requires (if k in spans' then Here(false, false) else Away) ==
      NextPhase(if k in spans then Here(false, false) else Away, e)
    ensures SpansTold(spans', life + [(k, e)])
  {
    assert (life + [(k, e)])[..|life|] == life;
    forall q ensures SpanTold(spans', life + [(k, e)], q) {
      assert SpanTold(spans, life, q);
    }
  }

  lemma SameSpansTold(spans: map<SpanKey, Span>, spans': map<SpanKey, Span>, life: seq<(SpanKey, Life)>)
    requires SpansTold(spans, life) && spans.Keys == spans'.Keys
    ensures SpansTold(spans', life)
  {
    forall k ensures SpanTold(spans', life, k) {
      assert SpanTold(spans, life, k);
    }
  }

  lemma {:induction false} DropsTold(spans: map<SpanKey, Span>, life: seq<(SpanKey, Life)>, c: Moment,
                                     marks: seq<(Option<int>, Option<int>)>)
    requires SpansTold(spans, life)
    ensures SpansTold(DropSpans(spans, c, marks), life + DropEvents(spans, c, marks))
  {
    var more := DropEvents(spans, c, marks);
    if marks == [] {
      assert life + more == life;
    } else {
      var front, m := marks[..|marks| - 1], marks[|marks| - 1];
      DropsTold(spans, life, c, front);
      if m.1.Some? && (c.store, m.1.value) in DropSpans(spans, c, front) {
        var before := life + DropEvents(spans, c, front);
        assert life + more == before + [((c.store, m.1.value), Dropped)];
        SpanStep(DropSpans(spans, c, front), DropSpans(spans, c, marks), before, (c.store, m.1.value), Dropped);
      } else {
        assert more == DropEvents(spans, c, front);
        SameSpansTold(DropSpans(spans, c, front), DropSpans(spans, c, marks), life + more);
      }
    }
  }

  lemma {:induction false} ExtensionsTold(spans: map<SpanKey, Span>, life: seq<(SpanKey, Life)>, c: Moment,
      es: seq<(int, Option<int>)>)
    requires SpansTold(spans, life)
    ensures SpansTold(ExtendSpans(spans, c, es), life + ExtendEvents(spans, c, es))
  {
    var more := ExtendEvents(spans, c, es);
    if es == [] {
      assert life + more == life;
    } else {
      var front, e := es[..|es| - 1], es[|es| - 1];
      ExtensionsTold(spans, life, c, front);
      if e.1.Some? && (c.store, e.1.value) !in ExtendSpans(spans, c, front) {
        var before := life + ExtendEvents(spans, c, front);
        assert life + more == before + [((c.store, e.1.value), Opened)];
        SpanStep(ExtendSpans(spans, c, front), ExtendSpans(spans, c, es), before, (c.store, e.1.value), Opened);
      } else {
        assert more == ExtendEvents(spans, c, front);
        SameSpansTold(ExtendSpans(spans, c, front), ExtendSpans(spans, c, es), life + more);
      }
    }
  }

  lemma BatchSpansTold(s: State, life: seq<(SpanKey, Life)>, c: Moment, b: Batch)
    requires SpansTold(s.spans, life)
    ensures SpansTold(ExtendSpans(DropSpans(s.spans, c, b.staff), c, b.spKeys), life + SpanEvents(s, c, b))
  {
    hide SpansTold, DropSpans, ExtendSpans, DropEvents, ExtendEvents;
    var dropped := DropSpans(s.spans, c, b.staff);
    var life1 := life + DropEvents(s.spans, c, b.staff);
    DropsTold(s.spans, life, c, b.staff);
    ExtensionsTold(dropped, life1, c, b.spKeys);
    assert life + SpanEvents(s, c, b) == life1 + ExtendEvents(dropped, c, b.spKeys);
  }

  lemma {:induction false} SpanClosingsTold(spans: map<SpanKey, Span>, life: seq<(SpanKey, Life)>, ks: seq<SpanKey>,
      clock: real)
    requires SpansTold(spans, life) && SpanInv(spans, clock) && forall k :: k in ks ==> k in spans
    requires forall i, j :: 0 <= i < j < |ks| ==> ks[i] != ks[j]
    ensures SpansTold(spans - (set k | k in ks), life + SpanClosings(spans, ks))
  {
    hide SpanInv;
    if ks == [] {
      assert life + SpanClosings(spans, ks) == life;
      assert spans - (set k | k in ks) == spans;
    } else {
      var front, k := ks[..|ks| - 1], ks[|ks| - 1];
      assert ks == front + [k];
      SpanClosingsTold(spans, life, front, clock);
      var o := SpanOutcome(k, spans[k]);
      SpanClosingFits(spans, clock, k);
      var before := life + SpanClosings(spans, front);
      assert life + SpanClosings(spans, ks) == before + [(k, Closed(o))];
      hide SpanOutcome, SpanClosings;
      assert k !in front;
      var left, rest := spans - (set q | q in front), spans - (set q | q in ks);
      SpanStep(left, rest, before, k, Closed(o));
    }
  }

  lemma SpanClosingFits(spans: map<SpanKey, Span>, clock: real, k: SpanKey)
    requires SpanInv(spans, clock) && k in spans
    ensures Fits(false, false, SpanOutcome(k, spans[k]))
  {
  }

  // ---- paths ------------------------------------------------------------------------------------------

  function UnknownPaths(rows: seq<PathRow>, orgs: map<int, int>): seq<PathRow> {
    if rows == [] then []
    else UnknownPaths(rows[..|rows| - 1], orgs) + if rows[|rows| - 1].store !in orgs then [rows[|rows| - 1]] else []
  }

  /** Every row goes to the table or, for a store without organization, is skipped. */
  lemma {:induction false} PathsPart(rows: seq<PathRow>, orgs: map<int, int>)
    ensures multiset(KnownPaths(rows, orgs)) + multiset(UnknownPaths(rows, orgs)) == multiset(rows)
  {
    if rows != [] {
      PathsPart(rows[..|rows| - 1], orgs);
      assert rows == rows[..|rows| - 1] + [rows[|rows| - 1]];
    }
  }

  /** Closing presences appends their rows and nothing else. */
  lemma {:induction false} ClosePathsAppends(paths: seq<PathRow>, pr: map<TrackKey, Presence>, t: Tenancy,
      ks: seq<TrackKey>)
    requires forall k :: k in ks ==> k in pr
    ensures ClosePaths(paths, pr, t, ks) == paths + ClosePaths([], pr, t, ks)
  {
    hide RowsOf, Parts, WallsOf;
    if ks != [] {
      ClosePathsAppends(paths, pr, t, ks[..|ks| - 1]);
    }
  }

  // ---- flushing ---------------------------------------------------------------------------------

  /** What is buffered moves to the table or, for a store without organization, is dropped. */
  lemma FlushConserves(table: Counter, buffer: Counter, lost: Counter, orgs: map<int, int>, k: Key)
    ensures Get(Merge(table, Known(buffer, orgs)), k) + Get(Merge(lost, Unknown(buffer, orgs)), k)
         == Get(table, k) + Get(buffer, k) + Get(lost, k)
  {
  }
}
