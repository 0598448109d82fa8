/**
 The episode summaries of the breach machine, told by the events alone: who is dropped by a cleanup, when the dropped
 stretch of readings began and ended, what its largest reading was, and whether an alert came in it.
 */
module BreachEpisodes {
  import opened Options
  import opened Breach
  import opened BreachRuns

  /** The readings of one person since the person was last dropped. */
  datatype Episode = NoEpisode | Episode(first: real, last: real, peak: real, alerted: bool)

  /** The time of the last cleanup: at most every 60 s, the first at 60 s. */
  function LastClean(es: seq<Event>): real {
    if es == [] then 0.0
    else
      var before, e := LastClean(es[..|es| - 1]), es[|es| - 1];
      if e.Clean? && e.now - before >= 60.0 then e.now else before
  }

  function NextEpisode(p: Episode, e: Event, lastClean: real): Episode {
    match e
    case Clean(now) => if p.Episode? && now - lastClean >= 60.0 && now - p.last > 300.0 then NoEpisode else p
    case Reading(now, _, risk, _) =>
      if p.NoEpisode? then Episode(now, now, Larger(0.0, risk), false)
      else p.(last := now, peak := Larger(p.peak, risk))
    case Alert(_, _) => if p.Episode? then p.(alerted := true) else p
    case Finish(_, _) => p
  }

  function Larger(a: real, b: real): real {
    if a <= b then b else a
  }

  predicate Concerns(e: Event, k: Key) {
    e.Clean? || e.k == k
  }

  function EpisodeOf(es: seq<Event>, k: Key): Episode {
    if es == [] then NoEpisode
    else
      var front, e := es[..|es| - 1], es[|es| - 1];
      if Concerns(e, k) then NextEpisode(EpisodeOf(front, k), e, LastClean(front)) else EpisodeOf(front, k)
  }

  predicate ReadsAs(e: Event, k: Key) {
    e.Reading? && e.k == k
  }

  /** The cleanup at n drops k. */
  ghost predicate DropsAt(es: seq<Event>, n: nat, k: Key) {
    && n < |es| && es[n].Clean? && es[n].now - LastClean(es[..n]) >= 60.0
    && var p := EpisodeOf(es[..n], k); p.Episode? && es[n].now - p.last > 300.0
  }

  /** The episode's readings are those from p to q, none dropped since; their peak is `peak`, zero at least. */
  ghost predicate Spans(es: seq<Event>, k: Key, p: nat, q: nat, peak: real) {
    && p <= q < |es| && ReadsAs(es[p], k) && ReadsAs(es[q], k)
    && EpisodeOf(es[..p], k).NoEpisode?
    && (forall i :: p < i < |es| ==> !DropsAt(es, i, k))
    && (forall i :: q < i < |es| ==> !ReadsAs(es[i], k))
    && (forall i :: p <= i < |es| && ReadsAs(es[i], k) ==> es[i].risk <= peak)
    && peak >= 0.0 && (peak == 0.0 || exists i :: p <= i < |es| && ReadsAs(es[i], k) && es[i].risk == peak)
  }

  ghost predicate AlertedSince(es: seq<Event>, k: Key, p: nat) {
    exists i :: p < i < |es| && es[i].Alert? && es[i].k == k
  }

  /** An episode's times are its first and last reading's, its peak their largest, and alerted says if an alert came. */
  lemma {:induction false} EpisodeTells(es: seq<Event>, k: Key) returns (p: nat, q: nat)
    requires EpisodeOf(es, k).Episode?
    ensures var x := EpisodeOf(es, k);
      && Spans(es, k, p, q, x.peak) && x.first == es[p].now && x.last == es[q].now
      && (x.alerted <==> AlertedSince(es, k, p))
  {
    var n := |es| - 1;
    var front, e := es[..n], es[n];
    if EpisodeOf(front, k).NoEpisode? {
      p, q := n, n;
    } else {
      p, q := EpisodeTells(front, k);
      assert es[..p] == front[..p];
      forall i | p < i < |es| ensures !DropsAt(es, i, k) {
        if i < n {
          assert front[..i] == es[..i];
          assert !DropsAt(front, i, k);
        }
      }
      PeakSnoc(es, k, p);
      AlertSnoc(es, k, p);
      if ReadsAs(e, k) {
        q := n;
      }
    }
  }

  lemma PeakSnoc(es: seq<Event>, k: Key, p: nat)
    requires es != [] && p < |es| - 1 && EpisodeOf(es[..|es| - 1], k).Episode? && EpisodeOf(es, k).Episode?
    requires var front, peak := es[..|es| - 1], EpisodeOf(es[..|es| - 1], k).peak;
      && (forall i :: p <= i < |front| && ReadsAs(front[i], k) ==> front[i].risk <= peak)
      && peak >= 0.0 && (peak == 0.0 || exists i :: p <= i < |front| && ReadsAs(front[i], k) && front[i].risk == peak)
    ensures var peak := EpisodeOf(es, k).peak;
      && (forall i :: p <= i < |es| && ReadsAs(es[i], k) ==> es[i].risk <= peak)
      && peak >= 0.0 && (peak == 0.0 || exists i :: p <= i < |es| && ReadsAs(es[i], k) && es[i].risk == peak)
  {
    var n := |es| - 1;
    var front, before, after := es[..n], EpisodeOf(es[..n], k).peak, EpisodeOf(es, k).peak;
    forall i | p <= i < |es| && ReadsAs(es[i], k) ensures es[i].risk <= after {
      assert i < n ==> front[i] == es[i];
    }
    if after == before && before != 0.0 {
      var i :| p <= i < n && ReadsAs(front[i], k) && front[i].risk == before;
      assert ReadsAs(es[i], k) && es[i].risk == after;
    } else if after != before {
      assert ReadsAs(es[n], k) && es[n].risk == after;
    }
  }

  lemma AlertSnoc(es: seq<Event>, k: Key, p: nat)
    requires es != [] && p < |es| - 1
    ensures var e := es[|es| - 1];
      AlertedSince(es, k, p) <==> AlertedSince(es[..|es| - 1], k, p) || (e.Alert? && e.k == k)
  {
    var front := es[..|es| - 1];
    if i :| p < i < |front| && front[i].Alert? && front[i].k == k {
      assert es[i] == front[i];
    }
    if i :| p < i < |es| && es[i].Alert? && es[i].k == k {
      assert i < |front| ==> front[i] == es[i];
    }
  }

  // ---- the machine keeps it ---------------------------------------------------------------------------------

  function ViewOf(people: map<Key, Person>, k: Key): Episode {
    if k in people then Episode(people[k].firstSeen, people[k].lastSeen, people[k].episodePeak, people[k].alerted)
    else NoEpisode
  }

  ghost predicate EpisodesTold(s: State, es: seq<Event>) {
    s.lastCleanup == LastClean(es) && forall k :: ViewOf(s.people, k) == EpisodeOf(es, k)
  }

  lemma DecideKeeps(cfg: Settings, st: Person, threshold: real, now: real, busy: bool)
    ensures var d := Decide(cfg, st, threshold, now, busy);
      && d.firstSeen == st.firstSeen && d.lastSeen == st.lastSeen
      && d.episodePeak == st.episodePeak && d.alerted == st.alerted
  {
    hide Fires;
  }

  lemma EventTold(cfg: Settings, w: World, es: seq<Event>, e: Event)
    requires EpisodesTold(w.s, es)
    ensures EpisodesTold(StepEvent(cfg, w, e).s, es + [e])
  {
    var all, w' := es + [e], StepEvent(cfg, w, e);
    assert all[..|es|] == es;
    forall k ensures ViewOf(w'.s.people, k) == EpisodeOf(all, k) {
      assert ViewOf(w.s.people, k) == EpisodeOf(es, k);
      if e.Reading? {
        var st := Observe(Before(w.s, e.k, e.now), e.risk, e.now);
        DecideKeeps(cfg, st, e.threshold, e.now, e.k in w.s.inflight);
        hide Decide, FireOf;
        assert k != e.k ==> ViewOf(w'.s.people, k) == ViewOf(w.s.people, k);
      }
    }
  }

  lemma {:induction false} EventsTold(cfg: Settings, es: seq<Event>)
    ensures EpisodesTold(RunEvents(cfg, START, es).s, es)
  {
    if es != [] {
      var front, e := es[..|es| - 1], es[|es| - 1];
      EventsTold(cfg, front);
      assert es == front + [e];
      hide EpisodesTold, StepEvent;
      EventTold(cfg, RunEvents(cfg, START, front), front, e);
    }
  }

  // ---- what a cleanup reports -------------------------------------------------------------------------------

  /** The summary of the stretch of k that a cleanup now ends. */
  function Report(es: seq<Event>, k: Key): Summary
    requires EpisodeOf(es, k).Episode?
  {
    var p := EpisodeOf(es, k);
    Summary(k, p.peak, p.alerted, p.last - p.first)
  }

  /** A cleanup at `now` ends k's stretch, and its largest reading is above 10. */
  ghost predicate Reports(es: seq<Event>, now: real, k: Key) {
    now - LastClean(es) >= 60.0 &&
    var p := EpisodeOf(es, k);
    p.Episode? && now - p.last > 300.0 && p.peak > 10.0
  }

  lemma {:induction false} SummariesHold(people: map<Key, Person>, order: seq<Key>, x: Summary)
    requires forall k :: k in order ==> k in people
    ensures x in Summaries(people, order) <==>
      x.key in order && people[x.key].episodePeak > 10.0 && x == SummaryOf(x.key, people[x.key])
  {
    if order != [] {
      SummariesHold(people, order[..|order| - 1], x);
    }
  }

  lemma {:induction false} SummariesOnce(people: map<Key, Person>, order: seq<Key>)
    requires (forall k :: k in order ==> k in people) && forall i, j :: 0 <= i < j < |order| ==> order[i] != order[j]
    ensures var r := Summaries(people, order); forall i, j :: 0 <= i < j < |r| ==> r[i].key != r[j].key
  {
    if order != [] {
      var front, k := order[..|order| - 1], order[|order| - 1];
      SummariesOnce(people, front);
      var r := Summaries(people, front);
      forall i | 0 <= i < |r| ensures r[i].key != k {
        SummariesHold(people, front, r[i]);
      }
    }
  }

  /** The first reading of an episode does not come after the last. */
  lemma {:induction false} EpisodeOrdered(es: seq<Event>, k: Key)
    requires OrderedEvents(es)
    ensures var p := EpisodeOf(es, k); p.Episode? ==> p.first <= p.last && (es != [] ==> p.last <= es[|es| - 1].now)
  {
    if es != [] {
      var front := es[..|es| - 1];
      EpisodeOrdered(front, k);
      if front != [] {
        assert front[|front| - 1].now <= es[|es| - 1].now;
      }
    }
  }

  /**
   Main result: over any run, a cleanup reports a summary for exactly those persons whose stretch it ends with a
   largest reading above 10, one each, with that reading, the alert mark and the time from first reading to last.
   */
  lemma SummariesExactly(cfg: Settings, es: seq<Event>, now: real, summaries: seq<Summary>, x: Summary)
    requires OrderedEvents(es) && Summarized(RunEvents(cfg, START, es).s, now, summaries)
    ensures x in summaries <==> Reports(es, now, x.key) && x == Report(es, x.key)
    ensures forall i, j :: 0 <= i < j < |summaries| ==> summaries[i].key != summaries[j].key
  {
    EventsTold(cfg, es);
    EpisodeOrdered(es, x.key);
    hide RunEvents, EpisodeOf, LastClean, OrderedEvents;
    var s := RunEvents(cfg, START, es).s;
    assert ViewOf(s.people, x.key) == EpisodeOf(es, x.key);
    if CleanupDue(s, now) {
      var order :| SummarizedIn(s, now, order, summaries);
      SummariesHold(s.people, order, x);
      SummariesOnce(s.people, order);
    }
  }
}
