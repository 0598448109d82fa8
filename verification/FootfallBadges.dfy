/**
 Which visits a staff badge can take back. The source promises any visit still buffered; a key has at most one credit,
 so it is one visit at most, and none after a failed flush or a prune that forgot the key.
 */
module FootfallBadges {
  import opened Options
  import opened Tally
  import opened FootfallModel
  import opened FootfallEvents
  import opened FootfallEffects
  import opened FootfallWorld
  import opened FootfallRuns

  // ---- credits --------------------------------------------------------------------------------------

  /** Over any run: k's visit in bucket b can be taken back exactly under the conditions of CreditExactly. */
  lemma {:induction false} CreditsExact(now: real, ops: seq<Op>, k: VisitKey, b: Key)
    ensures var w := Run(Start(now), ops);
      (k in w.s.gates.credit && w.s.gates.credit[k] == b)
      <==> exists i: nat :: LastCounted(w.log.gates, k, i) && w.log.gates[i].bucket == b && Uncut(w.log.gates, k, i)
  {
    RunInv(now, ops);
    hide Run;
    var w := Run(Start(now), ops);
    assert KeyTold(w.s.gates, w.log.gates, k);
    hide Inv, LastCounted, Uncut, CreditOf;
    CreditExactly(w.log.gates, k, b);
  }

  /** A badge takes one visit out of b exactly then, and otherwise changes no count. */
  lemma {:induction false} BadgeTakesBack(now: real, ops: seq<Op>, c: Moment, m: (Option<int>, Option<int>), b: Key)
    ensures var w := Run(Start(now), ops);
      var k := StaffKey(c, m);
      Get(CancelVisit(w.s.gates, c, m).visits, b) == Get(w.s.gates.visits, b)
        - (if k.Some? && CreditOf(w.log.gates, k.value) == Some(b) then 1 else 0)
  {
    RunInv(now, ops);
    hide Run;
    var w := Run(Start(now), ops);
    CancelVisitEffect(w.s.gates, c, m, b);
    if StaffKey(c, m).Some? {
      assert KeyTold(w.s.gates, w.log.gates, StaffKey(c, m).value);
    }
  }

  // ---- buffered visits, key by key ------------------------------------------------------------------

  /** A choice of visits, by the key that was counted and the bucket it was counted in. */
  type Choice = (VisitKey, Key) -> bool

  function OfKey(k: VisitKey): Choice {
    (x, b) => x == k
  }

  function InBucket(b: Key): Choice {
    (x, b') => b' == b
  }

  function OfKeyIn(k: VisitKey, b: Key): Choice {
    (x, b') => x == k && b' == b
  }

  function OfOthersIn(k: VisitKey, b: Key): Choice {
    (x, b') => x != k && b' == b
  }

  /** The chosen visits that are counted, not yet written to the tables and not taken back. */
  function Buffered(ev: seq<GateEvent>, which: Choice): int {
    if ev == [] then 0
    else
      var front := ev[..|ev| - 1];
      var n := Buffered(front, which);
      match ev[|ev| - 1]
      case Hit(k, b, counted, _) => if counted && which(k, b) then n + 1 else n
      case Badge(k, _) =>
        var credit := CreditOf(front, k);
        if credit.Some? && which(k, credit.value) then n - 1 else n
      case Attempt(ok) => if ok then 0 else n
      case Sweep(_) => n
  }

  /** A key's visits and the other keys' make up a bucket, and a credit is for one of the key's own. */
  lemma {:induction false} BufferedParts(ev: seq<GateEvent>, k: VisitKey, b: Key)
    ensures Buffered(ev, InBucket(b)) == Buffered(ev, OfKeyIn(k, b)) + Buffered(ev, OfOthersIn(k, b))
    ensures Buffered(ev, OfKeyIn(k, b)) >= if CreditOf(ev, k) == Some(b) then 1 else 0
    ensures Buffered(ev, OfKey(k)) >= if CreditOf(ev, k).Some? then 1 else 0
  {
    if ev != [] {
      BufferedParts(ev[..|ev| - 1], k, b);
    }
  }

  ghost predicate VisitsTold(g: Gates, ev: seq<GateEvent>) {
    forall b :: Get(g.visits, b) == Buffered(ev, InBucket(b))
  }

  lemma BadgeVisits(g: Gates, ev: seq<GateEvent>, c: Moment, m: (Option<int>, Option<int>))
    requires VisitInv(g) && GatesTold(g, ev) && VisitsTold(g, ev)
    ensures var k := StaffKey(c, m);
      VisitsTold(CancelVisit(g, c, m), ev + if k.Some? then [Badge(k.value, c.now)] else [])
  {
    var k := StaffKey(c, m);
    if k.Some? {
      var ev' := ev + [Badge(k.value, c.now)];
      assert ev'[..|ev|] == ev;
      assert KeyTold(g, ev, k.value);
      hide GatesTold, VisitInv;
      forall b ensures Get(CancelVisit(g, c, m).visits, b) == Buffered(ev', InBucket(b)) {
        CancelVisitEffect(g, c, m, b);
      }
    } else {
      assert ev + [] == ev;
    }
  }

  lemma BadgesSnoc(g: Gates, ev: seq<GateEvent>, c: Moment, marks: seq<(Option<int>, Option<int>)>)
    requires marks != []
    ensures var front, m := marks[..|marks| - 1], marks[|marks| - 1];
      var k := StaffKey(c, m);
      && CancelVisits(g, c, marks) == CancelVisit(CancelVisits(g, c, front), c, m)
      && ev + GateBadges(c, marks)
           == ev + GateBadges(c, front) + if k.Some? then [Badge(k.value, c.now)] else []
  {
    hide CancelVisit, StaffKey;
  }

  lemma {:induction false} BadgesVisits(g: Gates, ev: seq<GateEvent>, c: Moment,
                                        marks: seq<(Option<int>, Option<int>)>)
    requires VisitInv(g) && GatesTold(g, ev) && VisitsTold(g, ev)
    ensures VisitsTold(CancelVisits(g, c, marks), ev + GateBadges(c, marks))
  {
    hide *;
    if marks == [] {
      NoBadges(g, ev, c);
    } else {
      var front, m := marks[..|marks| - 1], marks[|marks| - 1];
      BadgesVisits(g, ev, c, front);
      BadgesTold(g, ev, c, front);
      CancelVisitsEffect(g, c, front, VisitBucket(c));
      BadgeVisits(CancelVisits(g, c, front), ev + GateBadges(c, front), c, m);
      BadgesSnoc(g, ev, c, marks);
    }
  }

  lemma NoBadges(g: Gates, ev: seq<GateEvent>, c: Moment)
    ensures CancelVisits(g, c, []) == g && ev + GateBadges(c, []) == ev
  {
  }

  lemma {:induction false} HitsVisits(g: Gates, ev: seq<GateEvent>, c: Moment, hits: seq<(VisitKey, bool)>)
    requires VisitsTold(g, ev)
    ensures VisitsTold(HitGates(g, c, hits), ev + GateHits(c, hits))
  {
    if hits == [] {
      assert ev + [] == ev;
    } else {
      var front, h := hits[..|hits| - 1], hits[|hits| - 1];
      HitsVisits(g, ev, c, front);
      var before, e := ev + GateHits(c, front), Hit(h.0, VisitBucket(c), h.1, c.now);
      assert ev + GateHits(c, hits) == before + [e];
      assert (before + [e])[..|before|] == before;
      hide GateHits;
      assert forall b :: Get(HitGates(g, c, front).visits, b) == Buffered(before, InBucket(b));
    }
  }

  lemma TakeVisits(g: Gates, ev: seq<GateEvent>, c: Moment, b: Batch)
    requires VisitInv(g) && GatesTold(g, ev) && VisitsTold(g, ev)
    ensures var g1 := HitGates(CancelVisits(g, c, b.staff), c, b.gateHits);
      VisitsTold(PruneGates(g1, c.now), ev + GateEvents(g1, c, b))
  {
    BadgesVisits(g, ev, c, b.staff);
    var g0, ev0 := CancelVisits(g, c, b.staff), ev + GateBadges(c, b.staff);
    HitsVisits(g0, ev0, c, b.gateHits);
    var g1, ev1 := HitGates(g0, c, b.gateHits), ev0 + GateHits(c, b.gateHits);
    assert PruneGates(g1, c.now).visits == g1.visits;
    hide CancelVisits, HitGates, GateBadges, GateHits, PruneGates, VisitInv, GatesTold;
    if GatePruneDue(g1, c.now) {
      var ev2 := ev1 + [Sweep(c.now)];
      assert ev2[..|ev1|] == ev1;
      assert ev + GateEvents(g1, c, b) == ev2;
    } else {
      assert ev + GateEvents(g1, c, b) == ev1;
    }
  }

  lemma FlushVisits(w: World, now: real, ok: bool)
    requires VisitsTold(w.s.gates, w.log.gates)
    ensures var w' := StepFlush(w, now, ok); VisitsTold(w'.s.gates, w'.log.gates)
  {
    if !NothingBuffered(w.s) {
      assert (w.log.gates + [Attempt(ok)])[..|w.log.gates|] == w.log.gates;
    }
  }

  /** Over any run, each visit count is the number of buffered visits its log tells of. */
  lemma {:induction false} VisitsAreBuffered(now: real, ops: seq<Op>)
    ensures var w := Run(Start(now), ops); VisitsTold(w.s.gates, w.log.gates)
  {
    if ops != [] {
      var front, op := ops[..|ops| - 1], ops[|ops| - 1];
      VisitsAreBuffered(now, front);
      RunInv(now, front);
      var w := Run(Start(now), front);
      hide Run, VisitsTold, Ingest, StepFlush;
      hide ConservedAt, PresenceInv, SpanInv, PathsKept, LivesTold, VisitInv, GatesTold;
      if op.Take? && ValidOp(w, op) && !Idle(op.b) {
        TakeKept(w, op.c, op.b, op.order, op.spanOrder);
        var w1 := StepTake(w, op.c, op.b, op.order, op.spanOrder);
        FlushVisits(w1, op.c.now, op.ok);
      } else if op.Flush? {
        FlushVisits(w, op.now, op.ok);
      }
    }
  }

  lemma TakeKept(w: World, c: Moment, b: Batch, order: seq<TrackKey>, spanOrder: seq<SpanKey>)
    requires Inv(w) && VisitsTold(w.s.gates, w.log.gates) && Orders(w, c, b, order, spanOrder)
    ensures var w' := StepTake(w, c, b, order, spanOrder); VisitsTold(w'.s.gates, w'.log.gates)
  {
    hide VisitsTold, VisitInv, GatesTold, ConservedAt, PresenceInv, SpanInv, PathsKept, LivesTold;
    TakeVisits(w.s.gates, w.log.gates, c, b);
  }

  // ---- a late badge ---------------------------------------------------------------------------------

  /** k's last counted visit has neither been written to the tables nor taken back. */
  ghost predicate StillBuffered(ev: seq<GateEvent>, k: VisitKey, i: nat) {
    && LastCounted(ev, k, i)
    && forall n :: i < n < |ev| ==> ev[n] != Attempt(true) && !(ev[n].Badge? && ev[n].key == k)
  }

  ghost predicate FailedSince(ev: seq<GateEvent>, i: nat) {
    exists n :: i < n < |ev| && ev[n] == Attempt(false)
  }

  ghost predicate ForgottenSince(ev: seq<GateEvent>, k: VisitKey, i: nat) {
    exists n :: i + 1 < n <= |ev| && Forgets(ev[..n], k)
  }

  /** k's last counted visit is still buffered, no flush has failed and no prune has forgotten k since. */
  ghost predicate CanTakeBack(ev: seq<GateEvent>, k: VisitKey) {
    exists i: nat :: StillBuffered(ev, k, i) && !FailedSince(ev, i) && !ForgottenSince(ev, k, i)
  }

  lemma CreditIsTakeBack(ev: seq<GateEvent>, k: VisitKey)
    ensures CreditOf(ev, k).Some? <==> CanTakeBack(ev, k)
  {
    forall i: nat | LastCounted(ev, k, i)
      ensures StillBuffered(ev, k, i) && !FailedSince(ev, i) && !ForgottenSince(ev, k, i) <==> CreditOf(ev, k).Some?
    {
      CreditHolder(ev, k, i);
      UncutIs(ev, k, i);
    }
    if CreditOf(ev, k).Some? {
      var b := CreditOf(ev, k).value;
      CreditExactly(ev, k, b);
    }
  }

  lemma UncutIs(ev: seq<GateEvent>, k: VisitKey, i: nat)
    requires LastCounted(ev, k, i)
    ensures Uncut(ev, k, i) <==> StillBuffered(ev, k, i) && !FailedSince(ev, i) && !ForgottenSince(ev, k, i)
  {
    hide Forgets;
    assert forall n :: i + 1 < n <= |ev| ==> ev[..n][|ev[..n]| - 1] == ev[n - 1];
    if Uncut(ev, k, i) {
      forall n | i < n < |ev| ensures !ev[n].Attempt? && !(ev[n].Badge? && ev[n].key == k) {
        assert !EndsCredit(ev[..n + 1], k);
      }
      forall n | i + 1 < n <= |ev| ensures !Forgets(ev[..n], k) {
        assert !EndsCredit(ev[..n], k);
      }
    } else {
      var n :| i + 1 < n <= |ev| && EndsCredit(ev[..n], k);
      if ev[n - 1].Attempt? {
        assert ev[n - 1] == Attempt(true) || ev[n - 1] == Attempt(false);
      }
    }
  }

  /**
   "Can retro-cancel the visit while it's still buffered". Over any run, of the n visits of the badged key that are
   still buffered the badge takes back one, if no flush has failed and no prune has forgotten the key since the last
   of them, and otherwise none. So none is left if and only if there was none, or just one that can be taken back.
   */
  lemma {:induction false} LateBadgeExactly(now: real, ops: seq<Op>, c: Moment, m: (Option<int>, Option<int>))
    requires StaffKey(c, m).Some?
    ensures var w, k := Run(Start(now), ops), StaffKey(c, m).value;
      var ev := w.log.gates;
      var ev' := ev + [Badge(k, c.now)];
      var n, left := Buffered(ev, OfKey(k)), Buffered(ev', OfKey(k));
      && VisitsTold(w.s.gates, ev) && VisitsTold(CancelVisit(w.s.gates, c, m), ev')
      && 0 <= left == n - (if CanTakeBack(ev, k) then 1 else 0)
      && (left == 0 <==> n == 0 || (n == 1 && CanTakeBack(ev, k)))
  {
    RunInv(now, ops);
    VisitsAreBuffered(now, ops);
    hide Run;
    var w, k := Run(Start(now), ops), StaffKey(c, m).value;
    var ev := w.log.gates;
    BadgeVisits(w.s.gates, ev, c, m);
    hide Inv, VisitsTold, CanTakeBack;
    CreditIsTakeBack(ev, k);
    BufferedParts(ev, k, VisitBucket(c));
    assert (ev + [Badge(k, c.now)])[..|ev|] == ev;
  }

  /** Whatever credit k has belongs to its last counted visit. */
  lemma CreditHolder(ev: seq<GateEvent>, k: VisitKey, i: nat)
    requires LastCounted(ev, k, i)
    ensures CreditOf(ev, k).Some? <==> Uncut(ev, k, i)
  {
    hide Uncut;
    CreditExactly(ev, k, ev[i].bucket);
    if CreditOf(ev, k).Some? {
      var b := CreditOf(ev, k).value;
      CreditExactly(ev, k, b);
      var j: nat :| LastCounted(ev, k, j) && ev[j].bucket == b && Uncut(ev, k, j);
      assert i == j;
    }
  }
}
