/** Exactly when a reading fires, from the history of readings and fires alone. */
module BreachFires {
  import opened Options
  import opened Breach
  import opened BreachRuns
  import opened BreachEpisodes

  // ---- the timers ---------------------------------------------------------------------------------------

  /** When k last fired since its state was created; zero if it has not. */
  function LastFire(h: seq<Entry>, k: Key): real {
    if h == [] then 0.0
    else
      var front, e := h[..|h| - 1], h[|h| - 1];
      if e.key != k then LastFire(front, k)
      else if e.fire.Some? then e.time
      else if e.created then 0.0
      else LastFire(front, k)
  }

  /** Since when k's readings outside the cooldown have met their thresholds. */
  function WaitingSince(cfg: Settings, h: seq<Entry>, k: Key): Option<real> {
    if h == [] then None
    else
      var front, e := h[..|h| - 1], h[|h| - 1];
      if e.key != k then WaitingSince(cfg, front, k)
      else if e.fire.Some? then None
      else
        var before := if e.created then None else WaitingSince(cfg, front, k);
        if e.time - LastFire(h, k) < cfg.cooldown then before
        else if e.risk < e.threshold then None
        else if before.None? then Some(e.time)
        else before
  }

  ghost predicate TimersTold(cfg: Settings, w: World, k: Key) {
    k in w.s.people ==>
      && w.s.people[k].lastBreach == LastFire(w.h, k)
      && (!cfg.nodePush ==> w.s.people[k].aboveSince == WaitingSince(cfg, w.h, k))
  }

  lemma EventTimers(cfg: Settings, w: World, e: Event, k: Key)
    requires TimersTold(cfg, w, k)
    ensures TimersTold(cfg, StepEvent(cfg, w, e), k)
  {
    if e.Reading? {
      var w' := StepEvent(cfg, w, e);
      assert w'.h[..|w.h|] == w.h;
    }
  }

  lemma {:induction false} RunTimers(cfg: Settings, es: seq<Event>, k: Key)
    ensures TimersTold(cfg, RunEvents(cfg, START, es), k)
  {
    if es != [] {
      RunTimers(cfg, es[..|es| - 1], k);
      hide TimersTold, StepEvent;
      EventTimers(cfg, RunEvents(cfg, START, es[..|es| - 1]), es[|es| - 1], k);
    }
  }

  // ---- the timers in words --------------------------------------------------------------------------------

  /** From p on, in one stretch, every reading of k is past the cooldown, meets its threshold and does not fire. */
  ghost predicate SteadyFrom(cfg: Settings, h: seq<Entry>, k: Key, p: nat) {
    && p < |h| && h[p].key == k && h[p].time - LastFire(h, k) >= cfg.cooldown
    && forall q :: p <= q < |h| && h[q].key == k ==>
         h[q].risk >= h[q].threshold && h[q].fire.None? && (p < q ==> !h[q].created)
  }

  ghost predicate InTime(h: seq<Entry>) {
    forall i, j :: 0 <= i < j < |h| ==> h[i].time <= h[j].time
  }

  /** The timer runs from the first of those readings. */
  lemma {:induction false} WaitingTells(cfg: Settings, h: seq<Entry>, k: Key)
    requires InTime(h)
    ensures WaitingSince(cfg, h, k).Some? ==>
      exists p: nat :: SteadyFrom(cfg, h, k, p) && h[p].time == WaitingSince(cfg, h, k).value
    ensures forall p: nat :: SteadyFrom(cfg, h, k, p) ==>
      WaitingSince(cfg, h, k).Some? && WaitingSince(cfg, h, k).value <= h[p].time
  {
    if h != [] {
      var n := |h| - 1;
      var front, e := h[..n], h[n];
      WaitingTells(cfg, front, k);
      forall p: nat | p < n && (e.key != k || (!e.created && e.fire.None?))
        ensures SteadyFrom(cfg, h, k, p) <==>
          SteadyFrom(cfg, front, k, p) && (e.key == k ==> e.risk >= e.threshold)
      {
        SteadySnoc(cfg, h, k, p);
      }
      forall p: nat | SteadyFrom(cfg, h, k, p)
        ensures WaitingSince(cfg, h, k).Some? && WaitingSince(cfg, h, k).value <= h[p].time
      {
        assert p < n && e.key == k ==> h[n].fire.None? && !h[n].created;
      }
      if WaitingSince(cfg, h, k).Some? {
        if e.key == k && WaitingSince(cfg, h, k) == Some(e.time) && (e.created || WaitingSince(cfg, front, k).None?) {
          assert SteadyFrom(cfg, h, k, n);
        } else {
          var p: nat :| SteadyFrom(cfg, front, k, p) && front[p].time == WaitingSince(cfg, front, k).value;
          assert SteadyFrom(cfg, h, k, p);
        }
      }
    }
  }

  lemma SteadySnoc(cfg: Settings, h: seq<Entry>, k: Key, p: nat)
    requires h != [] && p < |h| - 1
    requires var e := h[|h| - 1]; e.key != k || (!e.created && e.fire.None?)
    ensures var e := h[|h| - 1];
      SteadyFrom(cfg, h, k, p) <==> SteadyFrom(cfg, h[..|h| - 1], k, p) && (e.key == k ==> e.risk >= e.threshold)
  {
    var front := h[..|h| - 1];
    assert forall q :: 0 <= q < |front| ==> front[q] == h[q];
  }

  lemma {:induction false} RunInTime(cfg: Settings, es: seq<Event>)
    requires OrderedEvents(es)
    ensures InTime(RunEvents(cfg, START, es).h)
    ensures es == [] ==> RunEvents(cfg, START, es).h == []
    ensures forall i :: 0 <= i < |RunEvents(cfg, START, es).h| ==>
      es != [] && RunEvents(cfg, START, es).h[i].time <= es[|es| - 1].now
  {
    hide FireOf, Read, Cleanup;
    if es != [] {
      var front := es[..|es| - 1];
      RunInTime(cfg, front);
      assert front != [] ==> front[|front| - 1].now <= es[|es| - 1].now;
    }
  }

  // ---- handlers at work -------------------------------------------------------------------------------------

  /** The reading that follows es would fire. */
  ghost predicate FiresAfter(cfg: Settings, es: seq<Event>, e: Event)
    requires e.Reading?
  {
    FireOf(cfg, RunEvents(cfg, START, es).s, e.k, e.risk, e.threshold, e.now).Some?
  }

  /** The event at n started a handler for k, and none since finished it or dropped k. */
  ghost predicate BusySince(cfg: Settings, es: seq<Event>, k: Key, n: nat) {
    && n < |es| && ReadsAs(es[n], k) && FiresAfter(cfg, es[..n], es[n])
    && forall m :: n < m < |es| ==> !(es[m].Finish? && es[m].k == k) && !DropsAt(es, m, k)
  }

  /** A key is busy if and only if its last handler, started by a fire, has neither finished nor been dropped. */
  lemma {:induction false} BusyExactly(cfg: Settings, es: seq<Event>, k: Key)
    ensures k in RunEvents(cfg, START, es).s.inflight
      <==> cfg.aiNode && exists n: nat :: BusySince(cfg, es, k, n)
  {
    if es != [] {
      var n := |es| - 1;
      var front, e := es[..n], es[n];
      BusyExactly(cfg, front, k);
      EventsTold(cfg, front);
      var w := RunEvents(cfg, START, front);
      assert ViewOf(w.s.people, k) == EpisodeOf(front, k);
      BusySnoc(cfg, es, k);
      DropIs(cfg, es, k, w);
      hide EpisodeOf, LastClean, FireOf, BusySince, DropsAt;
    }
  }

  /** The inflight set after one event. */
  lemma DropIs(cfg: Settings, es: seq<Event>, k: Key, w: World)
    requires es != [] && w == RunEvents(cfg, START, es[..|es| - 1]) && EpisodesTold(w.s, es[..|es| - 1])
    requires k in w.s.inflight ==> cfg.aiNode
    ensures var n := |es| - 1;
      k in StepEvent(cfg, w, es[n]).s.inflight <==>
        || (k in w.s.inflight && !(es[n].Finish? && es[n].k == k) && !DropsAt(es, n, k))
        || (cfg.aiNode && ReadsAs(es[n], k) && FiresAfter(cfg, es[..n], es[n]))
  {
    assert ViewOf(w.s.people, k) == EpisodeOf(es[..|es| - 1], k);
    hide FireOf, RunEvents;
  }

  lemma BusySnoc(cfg: Settings, es: seq<Event>, k: Key)
    requires es != []
    ensures var n := |es| - 1;
      (exists i: nat :: BusySince(cfg, es, k, i)) <==>
        || ((exists i: nat :: BusySince(cfg, es[..n], k, i)) && !(es[n].Finish? && es[n].k == k) && !DropsAt(es, n, k))
        || (ReadsAs(es[n], k) && FiresAfter(cfg, es[..n], es[n]))
  {
    var n := |es| - 1;
    var front := es[..n];
    forall m | 0 <= m < n ensures es[..m] == front[..m] && (DropsAt(es, m, k) <==> DropsAt(front, m, k)) {
      assert es[..m] == front[..m];
    }
    hide FiresAfter, DropsAt;
    forall i: nat | i < n
      ensures BusySince(cfg, es, k, i)
        <==> BusySince(cfg, front, k, i) && !(es[n].Finish? && es[n].k == k) && !DropsAt(es, n, k)
    {
      BusyStep(cfg, es, k, i);
    }
    if ReadsAs(es[n], k) && FiresAfter(cfg, es[..n], es[n]) {
      assert BusySince(cfg, es, k, n);
    }
    if i: nat :| BusySince(cfg, es, k, i) {
      assert i < n || i == n;
    }
  }

  lemma BusyStep(cfg: Settings, es: seq<Event>, k: Key, i: nat)
    requires es != [] && i < |es| - 1
    requires forall m :: 0 <= m < |es| - 1 ==> (DropsAt(es, m, k) <==> DropsAt(es[..|es| - 1], m, k))
    ensures var n := |es| - 1;
      BusySince(cfg, es, k, i) <==>
        BusySince(cfg, es[..n], k, i) && !(es[n].Finish? && es[n].k == k) && !DropsAt(es, n, k)
  {
    var n := |es| - 1;
    assert es[..n][..i] == es[..i];
    assert forall m :: 0 <= m < n ==> es[..n][m] == es[m];
    hide FiresAfter, DropsAt;
  }

  // ---- fires ------------------------------------------------------------------------------------------------

  /**
   Main result: over any run a reading fires if and only if alerts do not come by node push, no handler of the person
   is at work, the person's last fire, or time zero, is a cooldown back, the reading meets its threshold, and so did
   all earlier ones since one at least the sustain time back, that one already past the cooldown.
   */
  lemma FiresExactly(cfg: Settings, es: seq<Event>, e: Event)
    requires OrderedEvents(es + [e]) && e.Reading?
    ensures var h := RunEvents(cfg, START, es).h;
      FiresAfter(cfg, es, e) <==>
        && !cfg.nodePush && !(cfg.aiNode && exists n: nat :: BusySince(cfg, es, e.k, n))
        && EpisodeOf(es, e.k).Episode? && e.now - LastFire(h, e.k) >= cfg.cooldown && e.risk >= e.threshold
        && exists p: nat :: SteadyFrom(cfg, h, e.k, p) && e.now - h[p].time >= cfg.sustain
  {
    var w := RunEvents(cfg, START, es);
    OrderedFront(es, e);
    BusyExactly(cfg, es, e.k);
    EventsTold(cfg, es);
    RunTimers(cfg, es, e.k);
    RunInTime(cfg, es);
    assert ViewOf(w.s.people, e.k) == EpisodeOf(es, e.k);
    WaitingTells(cfg, w.h, e.k);
    hide RunEvents, EpisodeOf, LastFire, WaitingSince, BusySince, SteadyFrom, InTime, OrderedEvents;
  }

  lemma OrderedFront(es: seq<Event>, e: Event)
    requires OrderedEvents(es + [e])
    ensures OrderedEvents(es)
  {
    assert forall i :: 0 <= i < |es| ==> (es + [e])[i] == es[i];
  }

  /** The fires of a history, in order. */
  function FiredIn(h: seq<Entry>): seq<Fire> {
    if h == [] then []
    else FiredIn(h[..|h| - 1]) + if h[|h| - 1].fire.Some? then [h[|h| - 1].fire.value] else []
  }

  /** A frame's fires are those its readings add to the history. */
  lemma {:induction false} FrameFires(cfg: Settings, w: World, f: Op, ts: seq<Track>)
    requires f.Frame?
    ensures FiredIn(RunEvents(cfg, w, Readings(f, ts)).h)
      == FiredIn(w.h) + FiresAll(cfg, w.s, f.camera, f.threshold, f.now, ts)
  {
    hide Read, FireOf;
    if ts != [] {
      var front, t := ts[..|ts| - 1], ts[|ts| - 1];
      FrameFires(cfg, w, f, front);
      ReadingsRun(cfg, w, f, front);
      if Counts(t) {
        assert Readings(f, ts)[..|Readings(f, ts)| - 1] == Readings(f, front);
        var w1 := RunEvents(cfg, w, Readings(f, front));
        var h := RunEvents(cfg, w, Readings(f, ts)).h;
        assert h[..|h| - 1] == w1.h;
      } else {
        assert Readings(f, ts) == Readings(f, front);
      }
    }
  }
}
