/**
 What happens to the footfall aggregator, told as lists of events: visits counted and taken back, steps,
 classifications, the life of every presence and store span, and everything that touches the gate memory.
 The events are named independently of the counters and dictionaries they end up in.
 */
module FootfallEvents {
  import opened Options
  import opened Tally
  import opened FootfallModel

  /** One entry per counted visit. */
  function FreshEvents(c: Moment, hits: seq<(VisitKey, bool)>): seq<Key> {
    if hits == [] then []
    else
      var b := Bucket(c.store, c.camera, c.hour);
      FreshEvents(c, hits[..|hits| - 1]) + Maybe(if hits[|hits| - 1].1 then Some(b) else None)
  }

  /** The credit one staff mark finds, if any. */
  function Refund(g: Gates, c: Moment, m: (Option<int>, Option<int>)): Option<Key> {
    var k := StaffKey(c, m);
    if k.Some? && k.value in g.credit then Some(g.credit[k.value]) else None
  }

  /** One entry per visit credit the staff marks take back. */
  function RefundEvents(g: Gates, c: Moment, marks: seq<(Option<int>, Option<int>)>): seq<Key> {
    if marks == [] then []
    else
      var front := marks[..|marks| - 1];
      RefundEvents(g, c, front) + Maybe(Refund(CancelVisits(g, c, front), c, marks[|marks| - 1]))
  }

  /** One entry per believable step between coarse cells. */
  function FlowEvents(pr: map<TrackKey, Presence>, c: Moment, es: seq<(int, nat)>): seq<Key> {
    if es == [] then []
    else
      var front := es[..|es| - 1];
      FlowEvents(pr, c, front) + Maybe(Crossed(EnterAll(pr, c, front), c, es[|es| - 1]))
  }

  function NewDemo(g: Demos, c: Moment, d: (int, string, string)): Option<Key> {
    if (c.camera, d.0) in g.seen then None else Some(DemoKey(c, d))
  }

  /** One entry per track classified for the first time within the window. */
  function DemoEvents(g: Demos, c: Moment, ds: seq<(int, string, string)>): seq<Key> {
    if ds == [] then []
    else
      var front := ds[..|ds| - 1];
      DemoEvents(g, c, front) + Maybe(NewDemo(CountDemos(g, c, front), c, ds[|ds| - 1]))
  }

  // ---- the life of a presence or a store span -------------------------------------------------------

  datatype Life = Opened | Badged | Linked | Dropped | Closed(outcome: Outcome)

  /** Where a key's life stands: away, or here since its opening with a badge or a shopper identity seen or not. */
  datatype Phase = Away | Here(staff: bool, linked: bool) | Broken

  /** Staff are discarded, tracks with a shopper identity leave their time to the span, the rest is banked. */
  predicate Fits(staff: bool, linked: bool, o: Outcome) {
    if staff then o.Discarded?
    else if linked then o.Carried?
    else o.Banked? && o.ms >= 0
  }

  /** The only lives there are: opened, then badged or linked any number of times, then closed as fits, or dropped. */
  function NextPhase(p: Phase, e: Life): Phase {
    match p
    case Away => if e.Opened? then Here(false, false) else Broken
    case Broken => Broken
    case Here(staff, linked) =>
      match e
      case Opened => Broken
      case Badged => Here(true, linked)
      case Linked => Here(staff, true)
      case Dropped => Away
      case Closed(o) => if Fits(staff, linked, o) then Away else Broken
  }

  function PhaseOf<K(==)>(life: seq<(K, Life)>, k: K): Phase {
    if life == [] then Away
    else
      var p := PhaseOf(life[..|life| - 1], k);
      if life[|life| - 1].0 == k then NextPhase(p, life[|life| - 1].1) else p
  }

  function Openings<K(==)>(life: seq<(K, Life)>, k: K): nat {
    if life == [] then 0
    else Openings(life[..|life| - 1], k) + if life[|life| - 1] == (k, Opened) then 1 else 0
  }

  /** How often k was closed or dropped. */
  function Endings<K(==)>(life: seq<(K, Life)>, k: K): nat {
    if life == [] then 0
    else
      var e := life[|life| - 1];
      Endings(life[..|life| - 1], k) + if e.0 == k && (e.1.Closed? || e.1.Dropped?) then 1 else 0
  }

  /** Every opening is still open or was ended exactly once. */
  lemma {:induction false} OpenedOnceEndedOnce<K>(life: seq<(K, Life)>, k: K)
    requires PhaseOf(life, k) != Broken
    ensures Openings(life, k) == Endings(life, k) + if PhaseOf(life, k).Here? then 1 else 0
  {
    if life != [] {
      OpenedOnceEndedOnce(life[..|life| - 1], k);
    }
  }

  /** k saw the event e somewhere after position p. */
  ghost predicate SawSince<K(!new)>(life: seq<(K, Life)>, k: K, p: nat, e: Life) {
    exists i :: p < i < |life| && life[i] == (k, e)
  }

  /** k was opened at p and neither opened, closed nor dropped since. */
  ghost predicate HereSince<K(!new)>(life: seq<(K, Life)>, k: K, p: nat) {
    && p < |life| && life[p] == (k, Opened)
    && forall i :: p < i < |life| && life[i].0 == k ==> life[i].1.Badged? || life[i].1.Linked?
  }

  /** The phase is the history since the opening. */
  lemma {:induction false} PhaseTells<K(!new)>(life: seq<(K, Life)>, k: K) returns (p: nat)
    requires PhaseOf(life, k).Here?
    ensures HereSince(life, k, p)
    ensures PhaseOf(life, k).staff <==> SawSince(life, k, p, Badged)
    ensures PhaseOf(life, k).linked <==> SawSince(life, k, p, Linked)
  {
    var front, e := life[..|life| - 1], life[|life| - 1];
    if e == (k, Opened) {
      p := |front|;
    } else {
      p := PhaseTells(front, k);
      SawSnoc(life, k, p, Badged);
      SawSnoc(life, k, p, Linked);
    }
  }

  lemma SawSnoc<K(!new)>(life: seq<(K, Life)>, k: K, p: nat, e: Life)
    requires life != [] && p < |life| - 1
    ensures SawSince(life, k, p, e) <==> SawSince(life[..|life| - 1], k, p, e) || life[|life| - 1] == (k, e)
  {
    var front := life[..|life| - 1];
    if SawSince(front, k, p, e) {
      var i :| p < i < |front| && front[i] == (k, e);
      assert life[i] == (k, e);
    }
    if SawSince(life, k, p, e) {
      var i :| p < i < |life| && life[i] == (k, e);
      assert i < |front| ==> front[i] == (k, e);
    }
  }

  lemma {:induction false} NeverBroken<K>(life: seq<(K, Life)>, k: K, n: nat)
    requires n <= |life| && PhaseOf(life, k) != Broken
    ensures PhaseOf(life[..n], k) != Broken
  {
    if n < |life| {
      NeverBroken(life[..|life| - 1], k, n);
      assert life[..|life| - 1][..n] == life[..n];
    } else {
      assert life[..n] == life;
    }
  }

  /**
   A closing ends the one life begun at p: discarded if and only if a badge was seen in it, carried if and only if
   not so but a shopper identity was, and otherwise banked with a time that is not negative.
   */
  lemma ClosedExactly<K(!new)>(life: seq<(K, Life)>, k: K, j: nat) returns (p: nat)
    requires j < |life| && life[j].0 == k && life[j].1.Closed? && PhaseOf(life, k) != Broken
    ensures p < j && HereSince(life[..j], k, p)
    ensures var o := life[j].1.outcome;
      && (o.Discarded? <==> SawSince(life[..j], k, p, Badged))
      && (o.Carried? <==> !SawSince(life[..j], k, p, Badged) && SawSince(life[..j], k, p, Linked))
      && (o.Banked? ==> o.ms >= 0)
  {
    NeverBroken(life, k, j + 1);
    assert life[..j + 1][..j] == life[..j];
    p := PhaseTells(life[..j], k);
  }

  // ---- what a batch does to presences and spans ---------------------------------------------------

  function BadgeEvents(pr: map<TrackKey, Presence>, c: Moment, marks: seq<(Option<int>, Option<int>)>)
    : (r: seq<(TrackKey, Life)>)
    ensures forall i :: 0 <= i < |r| ==> r[i].1.Badged?
  {
    if marks == [] then []
    else
      var m := marks[|marks| - 1];
      BadgeEvents(pr, c, marks[..|marks| - 1])
      + if m.0.Some? && (c.camera, m.0.value) in pr then [((c.camera, m.0.value), Badged)] else []
  }

  function OpenEvents(pr: map<TrackKey, Presence>, c: Moment, pids: seq<int>): (r: seq<(TrackKey, Life)>)
    ensures forall i :: 0 <= i < |r| ==> r[i].1.Opened?
  {
    if pids == [] then []
    else
      var front, k := pids[..|pids| - 1], (c.camera, pids[|pids| - 1]);
      OpenEvents(pr, c, front) + if k in TouchAll(pr, c, front) then [] else [(k, Opened)]
  }

  function LinkEvents(pr: map<TrackKey, Presence>, c: Moment, es: seq<(int, Option<int>)>): (r: seq<(TrackKey, Life)>)
    ensures forall i :: 0 <= i < |r| ==> r[i].1.Linked?
  {
    if es == [] then []
    else
      var e := es[|es| - 1];
      LinkEvents(pr, c, es[..|es| - 1]) + if e.1.Some? && (c.camera, e.0) in pr then [((c.camera, e.0), Linked)] else []
  }

  /** Everything a batch tells of presences: badges first, then the visible tracks, then their shopper identities. */
  function TrackEvents(s: State, c: Moment, b: Batch): (r: seq<(TrackKey, Life)>)
    ensures forall i :: 0 <= i < |r| ==> !r[i].1.Closed?
  {
    var marked := MarkAllStaff(s.presence, c, b.staff);
    BadgeEvents(s.presence, c, b.staff) + OpenEvents(marked, c, b.present)
    + LinkEvents(TouchAll(marked, c, b.present), c, b.spKeys)
  }

  function DropEvents(spans: map<SpanKey, Span>, c: Moment, marks: seq<(Option<int>, Option<int>)>)
    : (r: seq<(SpanKey, Life)>)
    ensures forall i :: 0 <= i < |r| ==> r[i].1.Dropped?
  {
    if marks == [] then []
    else
      var front, m := marks[..|marks| - 1], marks[|marks| - 1];
      DropEvents(spans, c, front)
      + if m.1.Some? && (c.store, m.1.value) in DropSpans(spans, c, front)
        then [((c.store, m.1.value), Dropped)] else []
  }

  function ExtendEvents(spans: map<SpanKey, Span>, c: Moment, es: seq<(int, Option<int>)>): (r: seq<(SpanKey, Life)>)
    ensures forall i :: 0 <= i < |r| ==> r[i].1.Opened?
  {
    if es == [] then []
    else
      var front, e := es[..|es| - 1], es[|es| - 1];
      ExtendEvents(spans, c, front)
      + if e.1.Some? && (c.store, e.1.value) !in ExtendSpans(spans, c, front)
        then [((c.store, e.1.value), Opened)] else []
  }

  function SpanEvents(s: State, c: Moment, b: Batch): (r: seq<(SpanKey, Life)>)
    ensures forall i :: 0 <= i < |r| ==> !r[i].1.Closed?
  {
    DropEvents(s.spans, c, b.staff) + ExtendEvents(DropSpans(s.spans, c, b.staff), c, b.spKeys)
  }

  function TrackClosings(pr: map<TrackKey, Presence>, ks: seq<TrackKey>): seq<(TrackKey, Life)>
    requires forall k :: k in ks ==> k in pr
  {
    seq(|ks|, i requires 0 <= i < |ks| => assert ks[i] in ks; (ks[i], Closed(CloseOutcome(ks[i], pr[ks[i]]))))
  }

  function SpanClosings(spans: map<SpanKey, Span>, ks: seq<SpanKey>): seq<(SpanKey, Life)>
    requires forall k :: k in ks ==> k in spans
  {
    seq(|ks|, i requires 0 <= i < |ks| => assert ks[i] in ks; (ks[i], Closed(SpanOutcome(ks[i], spans[ks[i]]))))
  }

  predicate BanksAt(e: Life, k: Key) {
    e.Closed? && e.outcome.Banked? && e.outcome.bucket == k
  }

  /** How many closings were banked under k, and their total time. */
  function BankedAt<K>(life: seq<(K, Life)>, k: Key): nat {
    if life == [] then 0
    else BankedAt(life[..|life| - 1], k) + if BanksAt(life[|life| - 1].1, k) then 1 else 0
  }

  function BankedMs<K>(life: seq<(K, Life)>, k: Key): int {
    if life == [] then 0
    else BankedMs(life[..|life| - 1], k) + if BanksAt(life[|life| - 1].1, k) then life[|life| - 1].1.outcome.ms else 0
  }

  lemma {:induction false} BankedConcat<K>(a: seq<(K, Life)>, b: seq<(K, Life)>, k: Key)
    ensures BankedAt(a + b, k) == BankedAt(a, k) + BankedAt(b, k)
    ensures BankedMs(a + b, k) == BankedMs(a, k) + BankedMs(b, k)
  {
    if b == [] {
      assert a + b == a;
    } else {
      BankedConcat(a, b[..|b| - 1], k);
      assert (a + b)[..|a + b| - 1] == a + b[..|b| - 1];
    }
  }

  lemma {:induction false} NothingBanked<K>(life: seq<(K, Life)>, k: Key)
    requires forall i :: 0 <= i < |life| ==> !life[i].1.Closed?
    ensures BankedAt(life, k) == 0 && BankedMs(life, k) == 0
  {
    if life != [] {
      NothingBanked(life[..|life| - 1], k);
    }
  }

  // ---- the gate memory ------------------------------------------------------------------------------

  /** A track at a gate, a staff badge, a prune of the gate memory, a flush that found something buffered. */
  datatype GateEvent =
    | Hit(key: VisitKey, bucket: Key, counted: bool, at: real)
    | Badge(key: VisitKey, at: real)
    | Sweep(at: real)
    | Attempt(ok: bool)

  predicate Touches(e: GateEvent, k: VisitKey) {
    (e.Hit? || e.Badge?) && e.key == k
  }

  /** The last time k was at a gate or badged. */
  function LastTouch(ev: seq<GateEvent>, k: VisitKey): Option<real> {
    if ev == [] then None
    else if Touches(ev[|ev| - 1], k) then Some(ev[|ev| - 1].at)
    else LastTouch(ev[..|ev| - 1], k)
  }

  /** The prune at the end of ev finds k gone for 45 s. */
  predicate Forgets(ev: seq<GateEvent>, k: VisitKey)
    requires ev != []
  {
    var e, last := ev[|ev| - 1], LastTouch(ev[..|ev| - 1], k);
    e.Sweep? && last.Some? && e.at - last.value >= GATE_TTL
  }

  /** k is remembered: touched, and not forgotten since. */
  predicate Remembered(ev: seq<GateEvent>, k: VisitKey) {
    ev != [] &&
    (Touches(ev[|ev| - 1], k) || (!Forgets(ev, k) && Remembered(ev[..|ev| - 1], k)))
  }

  predicate CountsFor(e: GateEvent, k: VisitKey) {
    e.Hit? && e.counted && e.key == k
  }

  /** What ends the credit of k: a flush that found something, a badge of k, a prune that forgets k. */
  predicate EndsCredit(ev: seq<GateEvent>, k: VisitKey)
    requires ev != []
  {
    var e := ev[|ev| - 1];
    e.Attempt? || (e.Badge? && e.key == k) || Forgets(ev, k)
  }

  /** The bucket of the visit a badge of k would take back. */
  function CreditOf(ev: seq<GateEvent>, k: VisitKey): Option<Key> {
    if ev == [] then None
    else if CountsFor(ev[|ev| - 1], k) then Some(ev[|ev| - 1].bucket)
    else if EndsCredit(ev, k) then None
    else CreditOf(ev[..|ev| - 1], k)
  }

  /** The event at i counted k's visit, and it was k's last counted one. */
  ghost predicate LastCounted(ev: seq<GateEvent>, k: VisitKey, i: nat) {
    i < |ev| && CountsFor(ev[i], k) && forall j :: i < j < |ev| ==> !CountsFor(ev[j], k)
  }

  /** Nothing after i ended the credit of k. */
  ghost predicate Uncut(ev: seq<GateEvent>, k: VisitKey, i: nat) {
    forall n :: i + 1 < n <= |ev| ==> !EndsCredit(ev[..n], k)
  }

  /**
   k's visit can be taken back, from bucket b, if and only if k's last counted hit went to b and since then no
   flush found anything buffered, no badge of k came, and no prune forgot k.
   */
  lemma {:induction false} CreditExactly(ev: seq<GateEvent>, k: VisitKey, b: Key)
    ensures CreditOf(ev, k) == Some(b)
      <==> exists i: nat :: LastCounted(ev, k, i) && ev[i].bucket == b && Uncut(ev, k, i)
  {
    if ev != [] {
      var front, n := ev[..|ev| - 1], |ev| - 1;
      CreditExactly(front, k, b);
      assert ev[..|ev|] == ev;
      if CountsFor(ev[n], k) {
        assert LastCounted(ev, k, n) && Uncut(ev, k, n);
        forall i: nat | LastCounted(ev, k, i) ensures i == n {
        }
      } else {
        forall i: nat ensures LastCounted(ev, k, i) <==> LastCounted(front, k, i) {
          assert forall j :: 0 <= j < n ==> front[j] == ev[j];
        }
        forall i: nat | i < n ensures Uncut(ev, k, i) <==> Uncut(front, k, i) && !EndsCredit(ev, k) {
          UncutSnoc(ev, k, i);
        }
      }
    }
  }

  lemma UncutSnoc(ev: seq<GateEvent>, k: VisitKey, i: nat)
    requires ev != [] && i < |ev| - 1
    ensures Uncut(ev, k, i) <==> Uncut(ev[..|ev| - 1], k, i) && !EndsCredit(ev, k)
  {
    var front := ev[..|ev| - 1];
    hide EndsCredit;
    assert ev[..|ev|] == ev;
    assert forall n :: 0 <= n <= |front| ==> front[..n] == ev[..n];
  }

  /** k was last touched at i, and no prune since came 45 s or more after that. */
  ghost predicate TouchedAt(ev: seq<GateEvent>, k: VisitKey, i: nat) {
    i < |ev| && Touches(ev[i], k) && forall j :: i < j < |ev| ==> !Touches(ev[j], k)
  }

  ghost predicate SweptLate(ev: seq<GateEvent>, i: nat)
    requires i < |ev| && !ev[i].Attempt?
  {
    exists j :: i < j < |ev| && ev[j].Sweep? && ev[j].at - ev[i].at >= GATE_TTL
  }

  lemma {:induction false} LastTouchAt(ev: seq<GateEvent>, k: VisitKey) returns (i: nat)
    requires LastTouch(ev, k).Some?
    ensures TouchedAt(ev, k, i) && ev[i].at == LastTouch(ev, k).value
  {
    if Touches(ev[|ev| - 1], k) {
      i := |ev| - 1;
    } else {
      i := LastTouchAt(ev[..|ev| - 1], k);
    }
  }

  /** k is remembered if and only if no prune came 45 s or more after its last touch. */
  lemma {:induction false} RememberedExactly(ev: seq<GateEvent>, k: VisitKey, i: nat)
    requires TouchedAt(ev, k, i)
    ensures LastTouch(ev, k) == Some(ev[i].at)
    ensures Remembered(ev, k) <==> !SweptLate(ev, i)
  {
    var front, n := ev[..|ev| - 1], |ev| - 1;
    if i < n {
      RememberedExactly(front, k, i);
      if SweptLate(front, i) {
        var j :| i < j < |front| && front[j].Sweep? && front[j].at - front[i].at >= GATE_TTL;
        assert ev[j].Sweep? && ev[j].at - ev[i].at >= GATE_TTL;
      }
    }
  }

  function GateBadges(c: Moment, marks: seq<(Option<int>, Option<int>)>): seq<GateEvent> {
    if marks == [] then []
    else
      var k := StaffKey(c, marks[|marks| - 1]);
      GateBadges(c, marks[..|marks| - 1]) + if k.Some? then [Badge(k.value, c.now)] else []
  }

  function GateHits(c: Moment, hits: seq<(VisitKey, bool)>): seq<GateEvent> {
    if hits == [] then []
    else
      var h := hits[|hits| - 1];
      GateHits(c, hits[..|hits| - 1]) + [Hit(h.0, Bucket(c.store, c.camera, c.hour), h.1, c.now)]
  }

  /** What a batch and the prune after it tell of the gate memory. */
  function GateEvents(g: Gates, c: Moment, b: Batch): seq<GateEvent> {
    GateBadges(c, b.staff) + GateHits(c, b.gateHits) + if GatePruneDue(g, c.now) then [Sweep(c.now)] else []
  }
}
