/**
 Whole runs of the breach machine: spacing of fires across pruning, what a fire is preceded
 by, what peak it reports, and exclusivity of breach handlers.
 */
module BreachRuns {
  import opened Options
  import opened Breach

  // ---- runs -----------------------------------------------------------------------------------

  /** What reaches the handler from outside, each at a monotonic clock reading. */
  datatype Op =
    | Frame(now: real, camera: string, threshold: real, tracks: seq<Track>)
    | Done(now: real, key: Key)
    | Alerted(now: real, key: Key)

  /** The same run at the grain of single readings: a frame is a cleanup and its readings. */
  datatype Event =
    | Clean(now: real)
    | Reading(now: real, k: Key, risk: real, threshold: real)
    | Finish(now: real, k: Key)
    | Alert(now: real, k: Key)

  /** One processed risk reading; `created` when it opened the person's state. */
  datatype Entry = Entry(key: Key, time: real, risk: real, threshold: real, created: bool, fire: Option<Fire>)

  datatype World = World(s: State, h: seq<Entry>)

  const START := World(State(map[], {}, 0.0), [])

  function StepEvent(cfg: Settings, w: World, e: Event): World {
    match e
    case Clean(now) => w.(s := Cleanup(w.s, now))
    case Reading(now, k, risk, threshold) =>
      World(Read(cfg, w.s, k, risk, threshold, now),
            w.h + [Entry(k, now, risk, threshold, k !in w.s.people, FireOf(cfg, w.s, k, risk, threshold, now))])
    case Finish(now, k) => w.(s := w.s.(inflight := w.s.inflight - {k}))
    case Alert(now, k) =>
      if k in w.s.people then w.(s := w.s.(people := w.s.people[k := w.s.people[k].(alerted := true)])) else w
  }

  function RunEvents(cfg: Settings, w: World, es: seq<Event>): World {
    if es == [] then w else StepEvent(cfg, RunEvents(cfg, w, es[..|es| - 1]), es[|es| - 1])
  }

  function Readings(f: Op, ts: seq<Track>): seq<Event>
    requires f.Frame?
  {
    if ts == [] then []
    else
      var t := ts[|ts| - 1];
      Readings(f, ts[..|ts| - 1]) +
        if Counts(t) then [Reading(f.now, (f.camera, t.pid.value), t.risk.value, f.threshold)] else []
  }

  function EventsOf(op: Op): seq<Event> {
    match op
    case Frame(now, _, _, tracks) => [Clean(now)] + Readings(op, tracks)
    case Done(now, k) => [Finish(now, k)]
    case Alerted(now, k) => [Alert(now, k)]
  }

  function Events(ops: seq<Op>): seq<Event> {
    if ops == [] then [] else Events(ops[..|ops| - 1]) + EventsOf(ops[|ops| - 1])
  }

  /** The clock starts at or above zero and does not run backwards. */
  ghost predicate Ordered(ops: seq<Op>) {
    && (forall i :: 0 <= i < |ops| ==> ops[i].now >= 0.0)
    && (forall i, j :: 0 <= i < j < |ops| ==> ops[i].now <= ops[j].now)
  }

  ghost predicate OrderedEvents(es: seq<Event>) {
    && (forall i :: 0 <= i < |es| ==> es[i].now >= 0.0)
    && (forall i, j :: 0 <= i < j < |es| ==> es[i].now <= es[j].now)
  }

  function Run(cfg: Settings, ops: seq<Op>): World {
    RunEvents(cfg, START, Events(ops))
  }

  lemma {:induction false} RunConcat(cfg: Settings, w: World, a: seq<Event>, b: seq<Event>)
    ensures RunEvents(cfg, w, a + b) == RunEvents(cfg, RunEvents(cfg, w, a), b)
  {
    hide StepEvent;
    if b == [] {
      assert a + b == a;
    } else {
      RunConcat(cfg, w, a, b[..|b| - 1]);
      assert (a + b)[..|a + b| - 1] == a + b[..|b| - 1];
    }
  }

  /** The handler's frame step, reading by reading, is the run of the frame's events. */
  lemma {:induction false} ReadingsRun(cfg: Settings, w: World, f: Op, ts: seq<Track>)
    requires f.Frame?
    ensures RunEvents(cfg, w, Readings(f, ts)).s == ReadAll(cfg, w.s, f.camera, f.threshold, f.now, ts)
  {
    hide Read, FireOf;
    if ts != [] {
      var front, t := ts[..|ts| - 1], ts[|ts| - 1];
      ReadingsRun(cfg, w, f, front);
      if Counts(t) {
        var e := Reading(f.now, (f.camera, t.pid.value), t.risk.value, f.threshold);
        assert Readings(f, ts)[..|Readings(f, ts)| - 1] == Readings(f, front);
      } else {
        assert Readings(f, ts) == Readings(f, front);
      }
    }
  }

  lemma FrameRun(cfg: Settings, w: World, f: Op)
    requires f.Frame?
    ensures RunEvents(cfg, w, EventsOf(f)).s ==
      ReadAll(cfg, Cleanup(w.s, f.now), f.camera, f.threshold, f.now, f.tracks)
  {
    hide Read, Cleanup;
    RunConcat(cfg, w, [Clean(f.now)], Readings(f, f.tracks));
    assert [Clean(f.now)][..0] == [];
    assert RunEvents(cfg, w, [Clean(f.now)]) == StepEvent(cfg, w, Clean(f.now));
    ReadingsRun(cfg, StepEvent(cfg, w, Clean(f.now)), f, f.tracks);
  }

  lemma {:induction false} ReadingsAt(f: Op, ts: seq<Track>, i: nat)
    requires f.Frame? && i < |Readings(f, ts)|
    ensures Readings(f, ts)[i].now == f.now
  {
    if ts != [] && i < |Readings(f, ts[..|ts| - 1])| {
      ReadingsAt(f, ts[..|ts| - 1], i);
    }
  }

  lemma EventsAt(op: Op, i: nat)
    requires i < |EventsOf(op)|
    ensures EventsOf(op)[i].now == op.now
  {
    if op.Frame? && i > 0 {
      ReadingsAt(op, op.tracks, i - 1);
    }
  }

  lemma {:induction false} EventsOrdered(ops: seq<Op>)
    requires Ordered(ops)
    ensures OrderedEvents(Events(ops))
    ensures ops == [] ==> Events(ops) == []
    ensures ops != [] ==> forall i :: 0 <= i < |Events(ops)| ==> Events(ops)[i].now <= ops[|ops| - 1].now
  {
    if ops != [] {
      var front, op := ops[..|ops| - 1], ops[|ops| - 1];
      EventsOrdered(front);
      hide EventsOf;
      forall i | 0 <= i < |EventsOf(op)| ensures EventsOf(op)[i].now == op.now {
        EventsAt(op, i);
      }
      if front != [] {
        assert front[|front| - 1].now <= op.now;
      }
    }
  }

  // ---- reference notions on the history ---------------------------------------------------------

  /** Where the stretch of k's readings since its last fire, or since its state was opened, begins. */
  function WindowStart(h: seq<Entry>, k: Key): nat {
    if h == [] then 0
    else
      var front, e := h[..|h| - 1], h[|h| - 1];
      if e.key != k then WindowStart(front, k)
      else if e.fire.Some? then |h|
      else if e.created then |h| - 1
      else WindowStart(front, k)
  }

  /** The running maximum of that stretch, from 0. */
  function PeakSince(h: seq<Entry>, k: Key): real {
    if h == [] then 0.0
    else
      var front, e := h[..|h| - 1], h[|h| - 1];
      if e.key != k then PeakSince(front, k)
      else if e.fire.Some? then 0.0
      else if e.created then Max(0.0, e.risk)
      else Max(PeakSince(front, k), e.risk)
  }

  /** m is the maximum of 0 and the risks of k's entries from index lo on. */
  ghost predicate IsPeak(h: seq<Entry>, k: Key, lo: nat, m: real) {
    && m >= 0.0
    && (forall q :: lo <= q < |h| && h[q].key == k ==> h[q].risk <= m)
    && (m == 0.0 || exists q :: lo <= q < |h| && h[q].key == k && h[q].risk == m)
  }

  lemma {:induction false} PeakSinceIsPeak(h: seq<Entry>, k: Key)
    ensures WindowStart(h, k) <= |h|
    ensures IsPeak(h, k, WindowStart(h, k), PeakSince(h, k))
    ensures forall q :: WindowStart(h, k) <= q < |h| && h[q].key == k ==> h[q].fire.None?
  {
    if h != [] {
      var front, e := h[..|h| - 1], h[|h| - 1];
      PeakSinceIsPeak(front, k);
      var lo, m := WindowStart(front, k), PeakSince(front, k);
      if e.key != k || (e.fire.None? && !e.created) {
        assert WindowStart(h, k) == lo;
        if m != 0.0 {
          var q :| lo <= q < |front| && front[q].key == k && front[q].risk == m;
          assert h[q].key == k && h[q].risk == m;
        }
        if e.key == k {
          assert h[|h| - 1].risk == e.risk;
        }
      } else if e.fire.None? {
        assert h[|h| - 1].risk == e.risk;
      }
    }
  }

  /** From index p on, which was read at time t0, every reading of k met its threshold and none fired. */
  ghost predicate AboveFrom(h: seq<Entry>, k: Key, p: nat, t0: real) {
    && p < |h| && h[p].key == k && h[p].time == t0
    && forall q :: p <= q < |h| && h[q].key == k ==> h[q].risk >= h[q].threshold && h[q].fire.None?
  }

  // ---- the invariant ------------------------------------------------------------------------------

  /** Every fire of k so far is either behind its cooldown anchor or more than the state TTL old. */
  ghost predicate Anchored(st: Person, h: seq<Entry>, k: Key) {
    forall i :: 0 <= i < |h| && h[i].key == k && h[i].fire.Some? ==>
      || h[i].time <= st.lastBreach
      || (st.lastSeen - h[i].time > STATE_TTL && (st.aboveSince.Some? ==> st.aboveSince.value - h[i].time > STATE_TTL))
  }

  ghost predicate PersonInv(cfg: Settings, st: Person, h: seq<Entry>, k: Key, clock: real) {
    && st.firstSeen <= st.lastSeen <= clock
    && st.lastBreach <= st.lastSeen
    && st.peak == PeakSince(h, k)
    && (st.aboveSince.Some? ==> !cfg.nodePush && st.lastBreach + cfg.cooldown <= st.aboveSince.value <= st.lastSeen)
    && (st.aboveSince.Some? ==> exists p: nat :: AboveFrom(h, k, p, st.aboveSince.value))
    && Anchored(st, h, k)
  }

  /** A person without state last fired more than the state TTL ago. */
  ghost predicate Gone(h: seq<Entry>, k: Key, clock: real) {
    forall i :: 0 <= i < |h| && h[i].key == k && h[i].fire.Some? ==> clock - h[i].time > STATE_TTL
  }

  ghost predicate KeyInv(cfg: Settings, w: World, k: Key, clock: real) {
    if k in w.s.people then PersonInv(cfg, w.s.people[k], w.h, k, clock) else Gone(w.h, k, clock)
  }

  /** What every fire in the history satisfies. */
  ghost predicate FireOk(cfg: Settings, h: seq<Entry>, j: nat)
    requires j < |h|
  {
    h[j].fire.Some? ==>
      && (exists p: nat :: p < j && AboveFrom(h[..j], h[j].key, p, h[p].time) && h[j].time - h[p].time >= cfg.sustain)
      && h[j].risk >= h[j].threshold
      && h[j].fire.value == Fire(h[j].key, h[j].time, Max(PeakSince(h[..j], h[j].key), h[j].risk))
      && (forall i :: 0 <= i < j && h[i].key == h[j].key && h[i].fire.Some? ==>
            h[j].time - h[i].time >= cfg.cooldown || h[j].time - h[i].time > STATE_TTL + Max(0.0, cfg.sustain))
  }

  ghost predicate Inv(cfg: Settings, w: World, clock: real) {
    && clock >= 0.0
    && (forall k :: KeyInv(cfg, w, k, clock))
    && (forall j :: 0 <= j < |w.h| ==> w.h[j].time <= clock)
    && (forall j :: 0 <= j < |w.h| ==> FireOk(cfg, w.h, j))
  }

  // ---- each event keeps it --------------------------------------------------------------------------

  lemma AppendOther(cfg: Settings, h: seq<Entry>, e: Entry, k: Key, st: Person, clock: real)
    requires e.key != k
    ensures PersonInv(cfg, st, h, k, clock) ==> PersonInv(cfg, st, h + [e], k, clock)
    ensures Gone(h, k, clock) ==> Gone(h + [e], k, clock)
  {
    var h' := h + [e];
    assert h'[..|h'| - 1] == h;
    if PersonInv(cfg, st, h, k, clock) && st.aboveSince.Some? {
      var p: nat :| AboveFrom(h, k, p, st.aboveSince.value);
      assert AboveFrom(h', k, p, st.aboveSince.value);
    }
  }

  /** A fire now, seen from the state before the reading. */
  lemma FireJustified(cfg: Settings, w: World, k: Key, risk: real, threshold: real, now: real, clock: real)
    requires KeyInv(cfg, w, k, clock) && clock <= now
    requires FireOf(cfg, w.s, k, risk, threshold, now).Some?
    ensures k in w.s.people && w.s.people[k].aboveSince.Some?
    ensures var t0 := w.s.people[k].aboveSince.value;
      now - t0 >= cfg.sustain && exists p: nat :: AboveFrom(w.h, k, p, t0)
    ensures risk >= threshold
    ensures FireOf(cfg, w.s, k, risk, threshold, now).value == Fire(k, now, Max(PeakSince(w.h, k), risk))
    ensures forall i :: 0 <= i < |w.h| && w.h[i].key == k && w.h[i].fire.Some? ==>
              now - w.h[i].time >= cfg.cooldown || now - w.h[i].time > STATE_TTL + Max(0.0, cfg.sustain)
  {
  }

  lemma NewFireOk(cfg: Settings, w: World, e: Event, clock: real)
    requires Inv(cfg, w, clock) && clock <= e.now && e.Reading?
    ensures FireOk(cfg, StepEvent(cfg, w, e).h, |w.h|)
  {
    var w' := StepEvent(cfg, w, e);
    assert w'.h[..|w.h|] == w.h;
    if FireOf(cfg, w.s, e.k, e.risk, e.threshold, e.now).Some? {
      assert KeyInv(cfg, w, e.k, clock);
      FireJustified(cfg, w, e.k, e.risk, e.threshold, e.now, clock);
      var t0 := w.s.people[e.k].aboveSince.value;
      var p: nat :| AboveFrom(w.h, e.k, p, t0);
      assert w'.h[p] == w.h[p];
      assert AboveFrom(w'.h[..|w.h|], e.k, p, w'.h[p].time);
    }
  }

  lemma OldFiresOk(cfg: Settings, h: seq<Entry>, e: Entry, j: nat)
    requires j < |h| && FireOk(cfg, h, j)
    ensures FireOk(cfg, h + [e], j)
  {
    var h' := h + [e];
    assert h'[..j] == h[..j];
    if h[j].fire.Some? {
      var p: nat :| p < j && AboveFrom(h[..j], h[j].key, p, h[p].time) && h[j].time - h[p].time >= cfg.sustain;
      assert AboveFrom(h'[..j], h'[j].key, p, h'[p].time);
    }
  }

  /** The person read: its state after the reading against the longer history. */
  lemma ReadKeepsPerson(cfg: Settings, w: World, k: Key, risk: real, threshold: real, now: real, clock: real)
    requires KeyInv(cfg, w, k, clock) && 0.0 <= clock <= now
    requires forall j :: 0 <= j < |w.h| ==> w.h[j].time <= clock
    ensures var fire := FireOf(cfg, w.s, k, risk, threshold, now);
            var h' := w.h + [Entry(k, now, risk, threshold, k !in w.s.people, fire)];
            PersonInv(cfg, Read(cfg, w.s, k, risk, threshold, now).people[k], h', k, now)
  {
    var before := Before(w.s, k, now);
    var st := Observe(before, risk, now);
    var busy := k in w.s.inflight;
    var fire := FireOf(cfg, w.s, k, risk, threshold, now);
    var e := Entry(k, now, risk, threshold, k !in w.s.people, fire);
    var h' := w.h + [e];
    assert h'[..|h'| - 1] == w.h;
    var after := Decide(cfg, st, threshold, now, busy);
    if fire.Some? {
      assert after == st.(lastBreach := now, aboveSince := None, peak := 0.0);
    } else {
      assert after == st.(aboveSince := after.aboveSince);
      if after.aboveSince.Some? {
        AboveExtends(cfg, w, before, k, risk, threshold, now, after, h');
      }
    }
  }

  lemma AboveExtends(cfg: Settings, w: World, before: Person, k: Key, risk: real, threshold: real, now: real,
      after: Person, h': seq<Entry>)
    requires before == Before(w.s, k, now)
    requires before.aboveSince.Some? ==> exists p: nat :: AboveFrom(w.h, k, p, before.aboveSince.value)
    requires FireOf(cfg, w.s, k, risk, threshold, now).None?
    requires h' == w.h + [Entry(k, now, risk, threshold, k !in w.s.people, None)]
    requires after == Decide(cfg, Observe(before, risk, now), threshold, now, k in w.s.inflight)
    requires after.aboveSince.Some?
    requires before.aboveSince.Some? ==> !cfg.nodePush && now - before.lastBreach >= cfg.cooldown
    ensures exists p: nat :: AboveFrom(h', k, p, after.aboveSince.value)
  {
    if before.aboveSince.Some? && after.aboveSince == before.aboveSince {
      var p: nat :| AboveFrom(w.h, k, p, before.aboveSince.value);
      assert AboveFrom(h', k, p, after.aboveSince.value);
    } else {
      assert AboveFrom(h', k, |w.h|, now);
    }
  }

  lemma ReadingKeepsInv(cfg: Settings, w: World, e: Event, clock: real)
    requires Inv(cfg, w, clock) && clock <= e.now && e.Reading?
    ensures Inv(cfg, StepEvent(cfg, w, e), e.now)
  {
    var w' := StepEvent(cfg, w, e);
    NewFireOk(cfg, w, e, clock);
    forall j | 0 <= j < |w'.h| ensures FireOk(cfg, w'.h, j) {
      if j < |w.h| {
        OldFiresOk(cfg, w.h, w'.h[|w.h|], j);
      }
    }
    hide FireOk;
    forall k ensures KeyInv(cfg, w', k, e.now) {
      assert KeyInv(cfg, w, k, clock);
      if k == e.k {
        ReadKeepsPerson(cfg, w, k, e.risk, e.threshold, e.now, clock);
      } else {
        AppendOther(cfg, w.h, w'.h[|w.h|], k, if k in w.s.people then w.s.people[k] else NewPerson(clock), clock);
        LaterClock(cfg, w'.h, k, if k in w.s.people then w.s.people[k] else NewPerson(clock), clock, e.now);
      }
    }
  }

  lemma LaterClock(cfg: Settings, h: seq<Entry>, k: Key, st: Person, clock: real, now: real)
    requires clock <= now
    ensures PersonInv(cfg, st, h, k, clock) ==> PersonInv(cfg, st, h, k, now)
    ensures Gone(h, k, clock) ==> Gone(h, k, now)
  {
  }

  /** A pruned person's fires are older than the state TTL, for each is no later than the last sighting. */
  lemma CleanKeepsInv(cfg: Settings, w: World, now: real, clock: real)
    requires Inv(cfg, w, clock) && clock <= now
    ensures Inv(cfg, StepEvent(cfg, w, Clean(now)), now)
  {
    hide FireOk;
    var w' := StepEvent(cfg, w, Clean(now));
    forall k ensures KeyInv(cfg, w', k, now) {
      assert KeyInv(cfg, w, k, clock);
      LaterClock(cfg, w.h, k, if k in w.s.people then w.s.people[k] else NewPerson(clock), clock, now);
      if k in w.s.people && k !in w'.s.people {
        assert PersonInv(cfg, w.s.people[k], w.h, k, now);
        assert now - w.s.people[k].lastSeen > STATE_TTL;
      }
    }
  }

  lemma MarksKeepInv(cfg: Settings, w: World, e: Event, clock: real)
    requires Inv(cfg, w, clock) && clock <= e.now && (e.Finish? || e.Alert?)
    ensures Inv(cfg, StepEvent(cfg, w, e), e.now)
  {
    hide FireOk;
    var w' := StepEvent(cfg, w, e);
    forall k ensures KeyInv(cfg, w', k, e.now) {
      assert KeyInv(cfg, w, k, clock);
      LaterClock(cfg, w.h, k, if k in w.s.people then w.s.people[k] else NewPerson(clock), clock, e.now);
      if k in w.s.people {
        var st, st' := w.s.people[k], w'.s.people[k];
        assert st' == st.(alerted := st'.alerted);
        assert PersonInv(cfg, st, w.h, k, e.now) ==> PersonInv(cfg, st', w.h, k, e.now);
      }
    }
  }

  lemma {:induction false} EventsKeepInv(cfg: Settings, es: seq<Event>) returns (clock: real)
    requires OrderedEvents(es)
    ensures Inv(cfg, RunEvents(cfg, START, es), clock)
    ensures es != [] ==> clock == es[|es| - 1].now
  {
    if es == [] {
      clock := 0.0;
    } else {
      hide Inv, StepEvent;
      var e := es[|es| - 1];
      var before := EventsKeepInv(cfg, es[..|es| - 1]);
      assert before <= e.now || |es| == 1;
      clock := e.now;
      var w := RunEvents(cfg, START, es[..|es| - 1]);
      if |es| == 1 {
        assert es[..0] == [];
        StartInv(cfg, 0.0);
        before := 0.0;
      }
      match e
      case Clean(now) => CleanKeepsInv(cfg, w, now, before);
      case Reading(_, _, _, _) => ReadingKeepsInv(cfg, w, e, before);
      case Finish(_, _) => MarksKeepInv(cfg, w, e, before);
      case Alert(_, _) => MarksKeepInv(cfg, w, e, before);
    }
  }

  lemma StartInv(cfg: Settings, clock: real)
    requires clock >= 0.0
    ensures Inv(cfg, START, clock)
  {
  }

  // ---- what every run gives ---------------------------------------------------------------------

  /**
   A fire reports a breach that really was sustained: some earlier reading p of the same
   track lies at least the sustain time back, and from p to the fire every processed
   reading of the track met the threshold of its frame.
   */
  lemma FireWasSustained(cfg: Settings, ops: seq<Op>, j: nat) returns (p: nat)
    requires Ordered(ops) && j < |Run(cfg, ops).h| && Run(cfg, ops).h[j].fire.Some?
    ensures var h := Run(cfg, ops).h;
            && p < j && h[p].key == h[j].key && h[j].time - h[p].time >= cfg.sustain
            && forall q :: p <= q <= j && h[q].key == h[j].key ==> h[q].risk >= h[q].threshold
  {
    EventsOrdered(ops);
    var clock := EventsKeepInv(cfg, Events(ops));
    hide Run;
    var h := Run(cfg, ops).h;
    assert FireOk(cfg, h, j) by { FireOkIn(cfg, ops, clock, j); }
    p :| p < j && AboveFrom(h[..j], h[j].key, p, h[p].time) && h[j].time - h[p].time >= cfg.sustain;
  }

  lemma FireOkIn(cfg: Settings, ops: seq<Op>, clock: real, j: nat)
    requires Inv(cfg, RunEvents(cfg, START, Events(ops)), clock) && j < |Run(cfg, ops).h|
    ensures FireOk(cfg, Run(cfg, ops).h, j)
  {
  }

  /** The reported peak is the maximum reading since the previous fire or the opening of the state. */
  lemma FireReportsPeak(cfg: Settings, ops: seq<Op>, j: nat)
    requires Ordered(ops) && j < |Run(cfg, ops).h| && Run(cfg, ops).h[j].fire.Some?
    ensures var h := Run(cfg, ops).h;
            && h[j].fire.value.key == h[j].key && h[j].fire.value.time == h[j].time
            && IsPeak(h[..j + 1], h[j].key, WindowStart(h[..j], h[j].key), h[j].fire.value.peak)
  {
    EventsOrdered(ops);
    var clock := EventsKeepInv(cfg, Events(ops));
    hide Run;
    var h := Run(cfg, ops).h;
    var k := h[j].key;
    assert FireOk(cfg, h, j) by { FireOkIn(cfg, ops, clock, j); }
    PeakSinceIsPeak(h[..j], k);
    assert h[..j + 1] == h[..j] + [h[j]];
    PeakSnoc(h[..j], k, WindowStart(h[..j], k), PeakSince(h[..j], k), h[j]);
  }

  lemma PeakSnoc(h: seq<Entry>, k: Key, lo: nat, m: real, e: Entry)
    requires IsPeak(h, k, lo, m) && lo <= |h| && e.key == k
    ensures IsPeak(h + [e], k, lo, Max(m, e.risk))
  {
    var h' := h + [e];
    assert h'[|h|] == e;
    if m != 0.0 {
      var q :| lo <= q < |h| && h[q].key == k && h[q].risk == m;
      assert h'[q] == h[q];
    }
  }

  /** Two fires of one track are a cooldown apart, or a prune plus a sustain time lies between them. */
  lemma FireSpacing(cfg: Settings, ops: seq<Op>, i: nat, j: nat)
    requires Ordered(ops) && i < j < |Run(cfg, ops).h|
    requires Run(cfg, ops).h[i].key == Run(cfg, ops).h[j].key
    requires Run(cfg, ops).h[i].fire.Some? && Run(cfg, ops).h[j].fire.Some?
    ensures var gap := Run(cfg, ops).h[j].time - Run(cfg, ops).h[i].time;
            gap >= cfg.cooldown || gap > STATE_TTL + Max(0.0, cfg.sustain)
  {
    EventsOrdered(ops);
    var clock := EventsKeepInv(cfg, Events(ops));
    FireOkIn(cfg, ops, clock, j);
  }

  ghost predicate BothFire(cfg: Settings, ops: seq<Op>, i: nat, j: nat)
    requires i < j < |Run(cfg, ops).h|
  {
    var h := Run(cfg, ops).h;
    h[i].key == h[j].key && h[i].fire.Some? && h[j].fire.Some?
  }

  function Gap(cfg: Settings, ops: seq<Op>, i: nat, j: nat): real
    requires i < j < |Run(cfg, ops).h|
  {
    Run(cfg, ops).h[j].time - Run(cfg, ops).h[i].time
  }

  /** In every run, any two fires of one track are at least the cooldown apart. */
  ghost predicate CooldownHolds(cfg: Settings) {
    forall ops, i: nat, j: nat ::
      Ordered(ops) && i < j < |Run(cfg, ops).h| && BothFire(cfg, ops, i, j) ==> Gap(cfg, ops, i, j) >= cfg.cooldown
  }

  /** When nodes detect breaches themselves nothing fires here. */
  lemma {:induction false} PushNeverFires(cfg: Settings, es: seq<Event>)
    requires cfg.nodePush
    ensures forall j :: 0 <= j < |RunEvents(cfg, START, es).h| ==> RunEvents(cfg, START, es).h[j].fire.None?
  {
    if es != [] {
      PushNeverFires(cfg, es[..|es| - 1]);
    }
  }

  // ---- the cooldown promise, exactly --------------------------------------------------------------

  const WHO: Key := ("cam", 1)

  /** A frame in which only WHO is seen, above the threshold. */
  function Seen(t: real): Op {
    Frame(t, "cam", 0.0, [Track(Some(1), Some(1.0), false)])
  }

  lemma SeenRuns(cfg: Settings, w: World, t: real)
    ensures RunEvents(cfg, w, EventsOf(Seen(t))) ==
      StepEvent(cfg, StepEvent(cfg, w, Clean(t)), Reading(t, WHO, 1.0, 0.0))
  {
    hide StepEvent;
    var f := Seen(t);
    var a, b := Clean(t), Reading(t, WHO, 1.0, 0.0);
    assert f.tracks[..0] == [];
    assert Readings(f, f.tracks) == [b];
    RunConcat(cfg, w, [a], [b]);
    RunOne(cfg, w, a);
    RunOne(cfg, StepEvent(cfg, w, a), b);
  }

  lemma RunOne(cfg: Settings, w: World, e: Event)
    ensures RunEvents(cfg, w, [e]) == StepEvent(cfg, w, e)
  {
  }

  lemma {:induction false} EventsConcat(a: seq<Op>, b: seq<Op>)
    ensures Events(a + b) == Events(a) + Events(b)
  {
    hide EventsOf;
    if b == [] {
      assert a + b == a;
    } else {
      EventsConcat(a, b[..|b| - 1]);
      assert (a + b)[..|a + b| - 1] == a + b[..|b| - 1];
    }
  }

  lemma SeenThen(cfg: Settings, w: World, t: real, rest: seq<Op>)
    ensures RunEvents(cfg, w, Events([Seen(t)] + rest)) ==
              RunEvents(cfg, StepEvent(cfg, StepEvent(cfg, w, Clean(t)), Reading(t, WHO, 1.0, 0.0)), Events(rest))
  {
    EventsConcat([Seen(t)], rest);
    assert [Seen(t)][..0] == [];
    assert Events([Seen(t)]) == EventsOf(Seen(t));
    RunConcat(cfg, w, EventsOf(Seen(t)), Events(rest));
    SeenRuns(cfg, w, t);
  }

  /** Frames often enough to keep the state alive until the sustain time is over. */
  function Hold(t: real, until: real): seq<Op>
    requires t <= until
    decreases (until - t).Floor
  {
    if until - t <= STATE_TTL then [Seen(until)] else [Seen(t + STATE_TTL)] + Hold(t + STATE_TTL, until)
  }

  lemma {:induction false} HoldOrdered(t: real, until: real)
    requires 0.0 <= t <= until
    ensures Ordered(Hold(t, until)) && forall i :: 0 <= i < |Hold(t, until)| ==> t <= Hold(t, until)[i].now <= until
    decreases (until - t).Floor
  {
    if until - t > STATE_TTL {
      HoldOrdered(t + STATE_TTL, until);
    }
  }

  /** WHO has been above the threshold since t0, out of cooldown, with no handler running. */
  ghost predicate Armed(cfg: Settings, w: World, t: real, t0: real) {
    && WHO in w.s.people && WHO !in w.s.inflight && w.s.lastCleanup <= t
    && var st := w.s.people[WHO];
       st.aboveSince == Some(t0) && st.lastSeen == t && t - st.lastBreach >= cfg.cooldown
  }

  /** The last reading was WHO's and fired. */
  ghost predicate JustFired(w: World, t: real) {
    && |w.h| > 0 && w.h[|w.h| - 1].key == WHO && w.h[|w.h| - 1].time == t && w.h[|w.h| - 1].fire.Some?
    && w.s.lastCleanup <= t && WHO in w.s.people && w.s.people[WHO].lastSeen == t
  }

  lemma PrefixTransitive<T>(a: seq<T>, b: seq<T>, c: seq<T>)
    requires a <= b <= c
    ensures a <= c && |a| <= |b| <= |c|
  {
  }

  /** One more sighting: fires if the sustain time is over, else stays armed. */
  lemma SeenArmed(cfg: Settings, w: World, t: real, t0: real, t': real)
    requires Armed(cfg, w, t, t0) && !cfg.nodePush && t <= t' && t' - t <= STATE_TTL
    ensures var w' := StepEvent(cfg, StepEvent(cfg, w, Clean(t')), Reading(t', WHO, 1.0, 0.0));
            && w.h <= w'.h
            && if t' - t0 >= cfg.sustain then |w.h| < |w'.h| && JustFired(w', t') else Armed(cfg, w', t', t0)
  {
  }

  lemma NoEvents(cfg: Settings, w: World)
    ensures RunEvents(cfg, w, Events([])) == w
  {
  }

  lemma {:induction false} HoldFires(cfg: Settings, w: World, t: real, t0: real, until: real)
    requires Armed(cfg, w, t, t0) && !cfg.nodePush && t0 <= t <= until && until == t0 + Max(0.0, cfg.sustain)
    ensures var w' := RunEvents(cfg, w, Events(Hold(t, until)));
            w.h <= w'.h && |w.h| < |w'.h| && JustFired(w', until)
    decreases (until - t).Floor
  {
    hide Armed, StepEvent, JustFired, Events, RunEvents;
    if until - t <= STATE_TTL {
      SeenArmed(cfg, w, t, t0, until);
      SeenThen(cfg, w, until, []);
      NoEvents(cfg, StepEvent(cfg, StepEvent(cfg, w, Clean(until)), Reading(until, WHO, 1.0, 0.0)));
      assert [Seen(until)] + [] == [Seen(until)] == Hold(t, until);
    } else {
      var t' := t + STATE_TTL;
      SeenArmed(cfg, w, t, t0, t');
      SeenThen(cfg, w, t', Hold(t', until));
      var w1 := StepEvent(cfg, StepEvent(cfg, w, Clean(t')), Reading(t', WHO, 1.0, 0.0));
      HoldFires(cfg, w1, t', t0, until);
      PrefixTransitive(w.h, w1.h, RunEvents(cfg, w1, Events(Hold(t', until))).h);
    }
  }

  /** A first sighting after at least a cooldown from zero, of a person without (or about to lose) state, arms. */
  lemma SeenArms(cfg: Settings, w: World, t: real)
    requires !cfg.nodePush && t >= cfg.cooldown && t - w.s.lastCleanup >= CLEANUP_EVERY
    requires if WHO in w.s.people then t - w.s.people[WHO].lastSeen > STATE_TTL else WHO !in w.s.inflight
    ensures var w' := StepEvent(cfg, StepEvent(cfg, w, Clean(t)), Reading(t, WHO, 1.0, 0.0));
            Armed(cfg, w', t, t) && w.h <= w'.h
  {
  }

  /** A breach from scratch: seen at t, and again until the sustain time is over. */
  function OneBreach(t: real, slack: real): seq<Op>
    requires slack >= 0.0
  {
    [Seen(t)] + Hold(t, t + slack)
  }

  lemma BreachFires(cfg: Settings, w: World, t: real, slack: real)
    requires !cfg.nodePush && t >= cfg.cooldown && t - w.s.lastCleanup >= CLEANUP_EVERY
    requires if WHO in w.s.people then t - w.s.people[WHO].lastSeen > STATE_TTL else WHO !in w.s.inflight
    requires slack == Max(0.0, cfg.sustain)
    ensures var w' := RunEvents(cfg, w, Events(OneBreach(t, slack)));
            w.h <= w'.h && |w.h| < |w'.h| && JustFired(w', t + slack)
  {
    hide Armed, StepEvent, JustFired, Events, RunEvents;
    var w1 := StepEvent(cfg, StepEvent(cfg, w, Clean(t)), Reading(t, WHO, 1.0, 0.0));
    SeenArms(cfg, w, t);
    SeenThen(cfg, w, t, Hold(t, t + slack));
    HoldFires(cfg, w1, t, t, t + slack);
    PrefixTransitive(w.h, w1.h, RunEvents(cfg, w1, Events(Hold(t, t + slack))).h);
  }

  /** Two fires with only a prune and a sustain time between them. */
  lemma ShortSpacing(cfg: Settings) returns (ops: seq<Op>, i: nat, j: nat)
    requires !cfg.nodePush && cfg.cooldown > STATE_TTL + Max(0.0, cfg.sustain)
    ensures Ordered(ops) && i < j < |Run(cfg, ops).h|
    ensures BothFire(cfg, ops, i, j) && Gap(cfg, ops, i, j) < cfg.cooldown
  {
    hide RunEvents, Hold, Events;
    var slack := Max(0.0, cfg.sustain);
    var t0 := cfg.cooldown;
    var t2 := t0 + slack + STATE_TTL + (cfg.cooldown - STATE_TTL - slack) / 2.0;
    ops := OneBreach(t0, slack) + OneBreach(t2, slack);
    HoldOrdered(t0, t0 + slack);
    HoldOrdered(t2, t2 + slack);
    var w2 := RunEvents(cfg, START, Events(OneBreach(t0, slack)));
    BreachFires(cfg, START, t0, slack);
    var w4 := RunEvents(cfg, w2, Events(OneBreach(t2, slack)));
    BreachFires(cfg, w2, t2, slack);
    assert Run(cfg, ops) == w4 by {
      EventsConcat(OneBreach(t0, slack), OneBreach(t2, slack));
      RunConcat(cfg, START, Events(OneBreach(t0, slack)), Events(OneBreach(t2, slack)));
    }
    i, j := |w2.h| - 1, |w4.h| - 1;
    assert w4.h[i] == w2.h[i];
  }

  /**
   Main result: the cooldown is kept across pruning exactly when it is no longer than the
   state TTL plus the sustain time (or when nodes detect breaches themselves).
   */
  lemma CooldownExact(cfg: Settings)
    ensures CooldownHolds(cfg) <==> cfg.nodePush || cfg.cooldown <= STATE_TTL + Max(0.0, cfg.sustain)
  {
    if cfg.nodePush || cfg.cooldown <= STATE_TTL + Max(0.0, cfg.sustain) {
      forall ops, i: nat, j: nat | Ordered(ops) && i < j < |Run(cfg, ops).h| && BothFire(cfg, ops, i, j)
        ensures Gap(cfg, ops, i, j) >= cfg.cooldown
      {
        if cfg.nodePush {
          PushNeverFires(cfg, Events(ops));
        } else {
          hide Run;
          FireSpacing(cfg, ops, i, j);
        }
      }
    } else {
      var ops, i, j := ShortSpacing(cfg);
      assert BothFire(cfg, ops, i, j) && Gap(cfg, ops, i, j) < cfg.cooldown;
    }
  }

  // ---- one handler at a time ------------------------------------------------------------------------

  /** Start times of k's breach handlers that have been spawned and not yet finished, oldest first. */
  function Live(cfg: Settings, es: seq<Event>, k: Key): seq<real> {
    if es == [] then []
    else
      var front, e := es[..|es| - 1], es[|es| - 1];
      var before := Live(cfg, front, k);
      match e
      case Reading(now, k', risk, threshold) =>
        if k' == k && cfg.aiNode && FireOf(cfg, RunEvents(cfg, START, front).s, k, risk, threshold, now).Some?
        then before + [now] else before
      case Finish(now, k') => if k' == k && before != [] then before[1..] else before
      case _ => before
  }

  /** No handler is still running more than the state TTL after it began. */
  ghost predicate Prompt(cfg: Settings, es: seq<Event>) {
    forall i, k, q :: 0 <= i < |es| && 0 <= q < |Live(cfg, es[..i], k)| ==>
      es[i].now - Live(cfg, es[..i], k)[q] <= STATE_TTL
  }

  ghost predicate LiveInv(cfg: Settings, es: seq<Event>, k: Key) {
    var s := RunEvents(cfg, START, es).s;
    var live := Live(cfg, es, k);
    && |live| <= 1
    && (live != [] ==> k in s.inflight && k in s.people && s.people[k].lastSeen >= live[0])
  }

  /** Prompt handlers of one track never overlap. */
  lemma {:induction false} OneHandler(cfg: Settings, es: seq<Event>, k: Key)
    requires OrderedEvents(es) && Prompt(cfg, es)
    ensures LiveInv(cfg, es, k)
  {
    if es != [] {
      var front, e := es[..|es| - 1], es[|es| - 1];
      forall i, k, q | 0 <= i < |front| && 0 <= q < |Live(cfg, front[..i], k)|
        ensures front[i].now - Live(cfg, front[..i], k)[q] <= STATE_TTL
      {
        assert front[..i] == es[..i];
      }
      OneHandler(cfg, front, k);
      var live := Live(cfg, front, k);
      assert live != [] ==> e.now - live[0] <= STATE_TTL;
      if live != [] {
        LiveInPast(cfg, front, k, 0);
      }
    }
  }

  lemma {:induction false} LiveInPast(cfg: Settings, es: seq<Event>, k: Key, q: nat)
    requires OrderedEvents(es) && q < |Live(cfg, es, k)|
    ensures es != [] && Live(cfg, es, k)[q] <= es[|es| - 1].now
  {
    hide FireOf;
    var front, e := es[..|es| - 1], es[|es| - 1];
    var before := Live(cfg, front, k);
    if e.Finish? && e.k == k && before != [] {
      LiveInPast(cfg, front, k, q + 1);
    } else if q < |before| {
      LiveInPast(cfg, front, k, q);
    }
  }
}
