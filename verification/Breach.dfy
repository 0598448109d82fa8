/**
 The breach machine of the live threshold handler: sustain timer, cooldown, in-flight mark
 and pruning per (camera, person) (`_on_frame_inner`, `_maybe_cleanup`).
 */
module Breach {
  import opened Options

  const STATE_TTL := 300.0
  const CLEANUP_EVERY := 60.0
  const EPISODE_LOG_MIN := 10.0

  type Key = (string, int)

  datatype Person = Person(
    risk: real, peak: real, episodePeak: real, firstSeen: real,
    alerted: bool, aboveSince: Option<real>, lastBreach: real, lastSeen: real)

  datatype Settings = Settings(cooldown: real, sustain: real, nodePush: bool, aiNode: bool)

  /** A track as it arrives; person id and risk may be missing or of the wrong type. */
  datatype Track = Track(pid: Option<int>, risk: Option<real>, mannequin: bool)

  datatype Summary = Summary(key: Key, peak: real, alerted: bool, duration: real)

  datatype Fire = Fire(key: Key, time: real, peak: real)

  function Max(a: real, b: real): real {
    if b > a then b else a
  }

  // ---- one reading ----------------------------------------------------------------------------

  function NewPerson(now: real): Person {
    Person(0.0, 0.0, 0.0, now, false, None, 0.0, 0.0)
  }

  function Observe(st: Person, risk: real, now: real): Person {
    st.(risk := risk, peak := Max(st.peak, risk), episodePeak := Max(st.episodePeak, risk), lastSeen := now)
  }

  /** The reading confirms a sustained breach. */
  predicate Fires(cfg: Settings, st: Person, threshold: real, now: real, busy: bool) {
    && !cfg.nodePush
    && now - st.lastBreach >= cfg.cooldown
    && st.risk >= threshold
    && st.aboveSince.Some? && now - st.aboveSince.value >= cfg.sustain
    && !busy
  }

  function Decide(cfg: Settings, st: Person, threshold: real, now: real, busy: bool): Person {
    if cfg.nodePush || now - st.lastBreach < cfg.cooldown then st
    else if st.risk < threshold then st.(aboveSince := None)
    else if st.aboveSince.None? then st.(aboveSince := Some(now))
    else if Fires(cfg, st, threshold, now, busy) then st.(lastBreach := now, aboveSince := None, peak := 0.0)
    else st
  }

  datatype State = State(people: map<Key, Person>, inflight: set<Key>, lastCleanup: real)

  function Before(s: State, k: Key, now: real): Person {
    if k in s.people then s.people[k] else NewPerson(now)
  }

  function FireOf(cfg: Settings, s: State, k: Key, risk: real, threshold: real, now: real): Option<Fire> {
    var st := Observe(Before(s, k, now), risk, now);
    if Fires(cfg, st, threshold, now, k in s.inflight) then Some(Fire(k, now, st.peak)) else None
  }

  function Read(cfg: Settings, s: State, k: Key, risk: real, threshold: real, now: real): State {
    var st := Observe(Before(s, k, now), risk, now);
    State(s.people[k := Decide(cfg, st, threshold, now, k in s.inflight)],
          if FireOf(cfg, s, k, risk, threshold, now).Some? && cfg.aiNode then s.inflight + {k} else s.inflight,
          s.lastCleanup)
  }

  predicate Counts(t: Track) {
    t.pid.Some? && t.risk.Some? && !t.mannequin
  }

  function ReadAll(cfg: Settings, s: State, camera: string, threshold: real, now: real, ts: seq<Track>): State {
    if ts == [] then s
    else
      var s1 := ReadAll(cfg, s, camera, threshold, now, ts[..|ts| - 1]);
      var t := ts[|ts| - 1];
      if Counts(t) then Read(cfg, s1, (camera, t.pid.value), t.risk.value, threshold, now) else s1
  }

  function FiresAll(cfg: Settings, s: State, camera: string, threshold: real, now: real, ts: seq<Track>): seq<Fire> {
    if ts == [] then []
    else
      var s1 := ReadAll(cfg, s, camera, threshold, now, ts[..|ts| - 1]);
      var t := ts[|ts| - 1];
      var f := if Counts(t) then FireOf(cfg, s1, (camera, t.pid.value), t.risk.value, threshold, now) else None;
      FiresAll(cfg, s, camera, threshold, now, ts[..|ts| - 1]) + if f.Some? then [f.value] else []
  }

  // ---- pruning ----------------------------------------------------------------------------------

  predicate Stale(st: Person, now: real) {
    now - st.lastSeen > STATE_TTL
  }

  predicate CleanupDue(s: State, now: real) {
    now - s.lastCleanup >= CLEANUP_EVERY
  }

  function StaleKeys(s: State, now: real): set<Key> {
    set k | k in s.people && Stale(s.people[k], now)
  }

  function Cleanup(s: State, now: real): State {
    if !CleanupDue(s, now) then s
    else
      State(map k | k in s.people && !Stale(s.people[k], now) :: s.people[k], s.inflight - StaleKeys(s, now), now)
  }

  function SummaryOf(k: Key, st: Person): Summary {
    Summary(k, st.episodePeak, st.alerted, Max(0.0, st.lastSeen - st.firstSeen))
  }

  /** Summaries for the pruned persons in the order the dictionary yields them. */
  function Summaries(people: map<Key, Person>, order: seq<Key>): seq<Summary>
    requires forall k :: k in order ==> k in people
  {
    if order == [] then []
    else
      var k := order[|order| - 1];
      Summaries(people, order[..|order| - 1])
        + if people[k].episodePeak > EPISODE_LOG_MIN then [SummaryOf(k, people[k])] else []
  }

  // ---- the object -------------------------------------------------------------------------------

  /** `order` lists the pruned persons once each, and the summaries are theirs in that order. */
  ghost predicate SummarizedIn(s: State, now: real, order: seq<Key>, summaries: seq<Summary>) {
    && (forall k :: k in order <==> k in StaleKeys(s, now))
    && (forall i, j :: 0 <= i < j < |order| ==> order[i] != order[j])
    && summaries == Summaries(s.people, order)
  }

  /** What a cleanup pass reports: nothing when it is not due. */
  ghost predicate Summarized(s: State, now: real, summaries: seq<Summary>) {
    if CleanupDue(s, now) then exists order :: SummarizedIn(s, now, order, summaries) else summaries == []
  }

  class ThresholdHandler {
    var people: map<Key, Person>
    var inflight: set<Key>
    var lastCleanup: real
    const cfg: Settings

    ghost function Abs(): State
      reads this
    {
      State(people, inflight, lastCleanup)
    }

    constructor (cfg: Settings)
      ensures Abs() == State(map[], {}, 0.0) && this.cfg == cfg
    {
      people, inflight, lastCleanup := map[], {}, 0.0;
      this.cfg := cfg;
    }

    method MaybeCleanup(now: real) returns (summaries: seq<Summary>)
      modifies this
      ensures Abs() == Cleanup(old(Abs()), now) && Summarized(old(Abs()), now, summaries)
    {
      summaries := [];
      ghost var order: seq<Key> := [];
      if now - lastCleanup < CLEANUP_EVERY {
        return;
      }
      lastCleanup := now;
      var stale := set k | k in people && now - people[k].lastSeen > STATE_TTL;
      ghost var all := stale;
      while stale != {}
        invariant stale <= all
        invariant people == old(people) - (all - stale)
        invariant inflight == old(inflight) - (all - stale)
        invariant lastCleanup == now
        invariant forall k :: k in order <==> k in all - stale
        invariant forall i, j :: 0 <= i < j < |order| ==> order[i] != order[j]
        invariant summaries == Summaries(old(people), order)
        decreases stale
      {
        var k :| k in stale;
        var st := people[k];
        assert (order + [k])[..|order|] == order;
        if st.episodePeak > EPISODE_LOG_MIN {
          summaries := summaries + [SummaryOf(k, st)];
        }
        people := people - {k};
        inflight := inflight - {k};
        stale := stale - {k};
        order := order + [k];
      }
      assert SummarizedIn(old(Abs()), now, order, summaries);
    }

    method ReadTrack(camera: string, threshold: real, now: real, t: Track) returns (fire: Option<Fire>)
      modifies this
      ensures if Counts(t)
              then Abs() == Read(cfg, old(Abs()), (camera, t.pid.value), t.risk.value, threshold, now)
                && fire == FireOf(cfg, old(Abs()), (camera, t.pid.value), t.risk.value, threshold, now)
              else Abs() == old(Abs()) && fire == None
    {
      fire := None;
      if t.pid.None? || t.risk.None? || t.mannequin {
        return;
      }
      var key := (camera, t.pid.value);
      var st := if key in people then people[key] else NewPerson(now);
      st := st.(risk := t.risk.value);
      st := st.(peak := Max(st.peak, st.risk));
      st := st.(episodePeak := Max(st.episodePeak, st.risk), lastSeen := now);
      people := people[key := st];
      if cfg.nodePush {
        return;
      }
      if now - st.lastBreach < cfg.cooldown {
        return;
      }
      if st.risk >= threshold {
        if st.aboveSince.None? {
          people := people[key := st.(aboveSince := Some(now))];
        } else if now - st.aboveSince.value >= cfg.sustain && key !in inflight {
          fire := Some(Fire(key, now, st.peak));
          people := people[key := st.(lastBreach := now, aboveSince := None, peak := 0.0)];
          if cfg.aiNode {
            inflight := inflight + {key};
          }
        }
      } else {
        people := people[key := st.(aboveSince := None)];
      }
    }

    method OnFrame(camera: string, threshold: real, now: real, tracks: seq<Track>)
      returns (fires: seq<Fire>, summaries: seq<Summary>)
      modifies this
      ensures Abs() == ReadAll(cfg, Cleanup(old(Abs()), now), camera, threshold, now, tracks)
      ensures fires == FiresAll(cfg, Cleanup(old(Abs()), now), camera, threshold, now, tracks)
      ensures Summarized(old(Abs()), now, summaries)
    {
      hide Read, FireOf, Cleanup, Summarized;
      fires := [];
      summaries := MaybeCleanup(now);
      ghost var s0 := Abs();
      for i := 0 to |tracks|
        invariant Abs() == ReadAll(cfg, s0, camera, threshold, now, tracks[..i])
        invariant fires == FiresAll(cfg, s0, camera, threshold, now, tracks[..i])
      {
        assert tracks[..i + 1][..i] == tracks[..i];
        var fire := ReadTrack(camera, threshold, now, tracks[i]);
        if fire.Some? {
          fires := fires + [fire.value];
        }
      }
      assert tracks[..|tracks|] == tracks;
    }

    /** The `finally` of a breach task. */
    method HandlerDone(key: Key)
      modifies `inflight
      ensures inflight == old(inflight) - {key}
    {
      inflight := inflight - {key};
    }

    /** The alert now exists: its episode summary may say so. */
    method MarkAlerted(key: Key)
      modifies `people
      ensures people ==
        if key in old(people) then old(people)[key := old(people)[key].(alerted := true)] else old(people)
    {
      if key in people {
        people := people[key := people[key].(alerted := true)];
      }
    }
  }
}
