/** What holds in every reachable state of the footfall aggregator, and what a caller may conclude. */
module FootfallRuns {
  import opened Options
  import opened Tally
  import opened FootfallModel
  import opened FootfallEvents
  import opened FootfallEffects
  import opened FootfallWorld

  /** Main result: the invariant holds in every reachable state. */
  lemma {:induction false} RunInv(now: real, ops: seq<Op>)
    ensures Inv(Run(Start(now), ops))
  {
    if ops == [] {
      StartInv(now);
    } else {
      RunInv(now, ops[..|ops| - 1]);
      StepKeepsInv(Run(Start(now), ops[..|ops| - 1]), ops[|ops| - 1]);
    }
  }

  // ---- presences and spans ------------------------------------------------------------------------

  /** Key by key: every presence and every span ever opened is still open or was ended exactly once. */
  lemma {:induction false} LivesBalance(now: real, ops: seq<Op>, k: TrackKey, q: SpanKey)
    ensures var w := Run(Start(now), ops);
      && Openings(w.log.life, k) == Endings(w.log.life, k) + (if k in w.s.presence then 1 else 0)
      && Openings(w.log.spanLife, q) == Endings(w.log.spanLife, q) + (if q in w.s.spans then 1 else 0)
  {
    RunInv(now, ops);
    hide Run;
    var w := Run(Start(now), ops);
    assert TrackTold(w.s.presence, w.log.life, k) && SpanTold(w.s.spans, w.log.spanLife, q);
    OpenedOnceEndedOnce(w.log.life, k);
    OpenedOnceEndedOnce(w.log.spanLife, q);
  }

  /**
   Over any run, the closing at j ends the one life of its track begun at p, and is discarded if and only if a badge
   was seen in that life, carried if and only if not so but a shopper identity was, and otherwise banked with a
   time that is not negative.
   */
  lemma {:induction false} StaffNeverBanked(now: real, ops: seq<Op>, j: nat) returns (p: nat)
    requires var life := Run(Start(now), ops).log.life; j < |life| && life[j].1.Closed?
    ensures var life := Run(Start(now), ops).log.life;
      var k, o := life[j].0, life[j].1.outcome;
      && p < j && HereSince(life[..j], k, p)
      && (o.Discarded? <==> SawSince(life[..j], k, p, Badged))
      && (o.Carried? <==> !SawSince(life[..j], k, p, Badged) && SawSince(life[..j], k, p, Linked))
      && (o.Banked? ==> o.ms >= 0)
  {
    RunInv(now, ops);
    hide Run;
    var w := Run(Start(now), ops);
    var k := w.log.life[j].0;
    assert TrackTold(w.s.presence, w.log.life, k);
    p := ClosedExactly(w.log.life, k, j);
  }

  /** Stored, buffered and skipped path rows are a permutation of all rows ever closed. */
  lemma {:induction false} PathsConserved(now: real, ops: seq<Op>)
    ensures var w := Run(Start(now), ops);
      multiset(w.db.paths + w.s.paths + w.lost.paths) == multiset(w.log.paths)
  {
    RunInv(now, ops);
  }

  // ---- visits ---------------------------------------------------------------------------------------

  /** Visits never go negative and every outstanding credit can be honoured, after any run. */
  lemma {:induction false} VisitsBacked(now: real, ops: seq<Op>, b: Key)
    ensures var g := Run(Start(now), ops).s.gates;
      && 0 <= CreditsAt(g.credit, b) <= Get(g.visits, b)
      && g.credit.Keys <= g.seen.Keys
  {
    RunInv(now, ops);
  }

  /** Frames handled one at a time: the flags are read in the state the batch is applied to. */
  ghost predicate Serial(w: World, f: Frame, c: Moment, b: Batch) {
    && c.store == f.store && c.camera == f.camera && c.hour == f.hour
    && b == Collect(f, w.s.gates.seen.Keys, f.tracks)
  }

  /**
   With frames handled one at a time, a gate hit counts if and only if its key was never at a gate (or badged), or
   some prune since came at least 45 s after the last time it was.
   */
  lemma {:induction false} HitCountsExactly(now: real, ops: seq<Op>, f: Frame, c: Moment, b: Batch, i: nat)
    requires Serial(Run(Start(now), ops), f, c, b) && i < |b.gateHits|
    ensures var ev := Run(Start(now), ops).log.gates;
      b.gateHits[i].1 <==> forall p: nat :: TouchedAt(ev, b.gateHits[i].0, p) ==> SweptLate(ev, p)
  {
    RunInv(now, ops);
    hide Run;
    var w := Run(Start(now), ops);
    var ev, k := w.log.gates, b.gateHits[i].0;
    CollectFlags(f, w.s.gates.seen.Keys, f.tracks, i);
    assert KeyTold(w.s.gates, ev, k);
    hide Inv, Collect;
    forall p: nat | TouchedAt(ev, k, p) ensures SweptLate(ev, p) <==> !Remembered(ev, k) {
      RememberedExactly(ev, k, p);
    }
    if LastTouch(ev, k).Some? {
      var p := LastTouchAt(ev, k);
    } else {
      UntouchedForgotten(ev, k);
      assert forall p: nat :: !TouchedAt(ev, k, p);
    }
  }

  lemma {:induction false} UntouchedForgotten(ev: seq<GateEvent>, k: VisitKey)
    requires LastTouch(ev, k).None?
    ensures !Remembered(ev, k) && forall p :: 0 <= p < |ev| ==> !Touches(ev[p], k)
  {
    if ev != [] {
      UntouchedForgotten(ev[..|ev| - 1], k);
    }
  }

  /**
   So a hit that counts comes at least 45 s after the key was last at a gate (or marked staff), and one within 45 s
   never counts.
   */
  lemma {:induction false} VisitNeedsAbsence(now: real, ops: seq<Op>, f: Frame, c: Moment, b: Batch, i: nat)
    requires var w := Run(Start(now), ops); Serial(w, f, c, b) && w.log.clock <= c.now
    requires i < |b.gateHits| && LastTouch(Run(Start(now), ops).log.gates, b.gateHits[i].0).Some?
    ensures var since := c.now - LastTouch(Run(Start(now), ops).log.gates, b.gateHits[i].0).value;
      && (b.gateHits[i].1 ==> since >= GATE_TTL)
      && (since < GATE_TTL ==> !b.gateHits[i].1)
  {
    RunInv(now, ops);
    HitCountsExactly(now, ops, f, c, b, i);
    hide Run;
    var w := Run(Start(now), ops);
    var p := LastTouchAt(w.log.gates, b.gateHits[i].0);
    if SweptLate(w.log.gates, p) {
      var j :| p < j < |w.log.gates| && w.log.gates[j].Sweep? && w.log.gates[j].at - w.log.gates[p].at >= GATE_TTL;
      assert w.log.gates[j].at <= w.log.clock;
    }
  }
}
