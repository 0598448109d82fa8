/**
 Store visits of re-identified shoppers, read off a plain list of sightings, and the aggregator's spans against it.
 */
module FootfallVisits {
  import opened Options
  import opened FootfallModel
  import opened FootfallEvents
  import opened FootfallStays
  import opened FootfallTraces

  /** A shopper seen somewhere in the store, found to be staff, or gone for good. */
  datatype Glimpse =
    | Around(q: SpanKey, hour: int, at: real)
    | Revoked(q: SpanKey)
    | Finished(q: SpanKey, at: real)

  datatype Visit = NoVisit | Visiting(hour: int, first: real, last: real)

  function NextVisit(v: Visit, e: Glimpse): Visit {
    match e
    case Around(_, hour, at) => if v.NoVisit? then Visiting(hour, at, at) else v.(last := at)
    case _ => NoVisit
  }

  function VisitOf(tr: seq<Glimpse>, q: SpanKey): Visit {
    if tr == [] then NoVisit
    else
      var v := VisitOf(tr[..|tr| - 1], q);
      if tr[|tr| - 1].q == q then NextVisit(v, tr[|tr| - 1]) else v
  }

  predicate AroundAs(e: Glimpse, q: SpanKey) {
    e.Around? && e.q == q
  }

  predicate EndsAs(e: Glimpse, q: SpanKey) {
    !e.Around? && e.q == q
  }

  /** The visit begins at p: the first sighting of q since it last ended, if it ever did. */
  ghost predicate VisitBegins(tr: seq<Glimpse>, q: SpanKey, p: nat) {
    && p < |tr| && AroundAs(tr[p], q)
    && (forall i :: p < i < |tr| ==> !EndsAs(tr[i], q))
    && (forall i :: 0 <= i < p && AroundAs(tr[i], q) ==> exists m :: i < m < p && EndsAs(tr[m], q))
  }

  ghost predicate LastAround(tr: seq<Glimpse>, q: SpanKey, j: nat) {
    j < |tr| && AroundAs(tr[j], q) && forall i :: j < i < |tr| ==> tr[i].q != q
  }

  ghost predicate Nowhere(tr: seq<Glimpse>, q: SpanKey) {
    forall i :: 0 <= i < |tr| && AroundAs(tr[i], q) ==> exists m :: i < m < |tr| && EndsAs(tr[m], q)
  }

  lemma {:induction false} NowhereTells(tr: seq<Glimpse>, q: SpanKey)
    ensures VisitOf(tr, q).NoVisit? <==> Nowhere(tr, q)
  {
    if tr != [] {
      var front, e := tr[..|tr| - 1], tr[|tr| - 1];
      NowhereTells(front, q);
      if EndsAs(e, q) {
        assert Nowhere(tr, q);
      } else if AroundAs(e, q) {
        assert !Nowhere(tr, q);
      } else {
        NowhereSnoc(tr, q);
      }
    }
  }

  lemma NowhereSnoc(tr: seq<Glimpse>, q: SpanKey)
    requires tr != [] && tr[|tr| - 1].q != q
    ensures Nowhere(tr, q) <==> Nowhere(tr[..|tr| - 1], q)
  {
    var front := tr[..|tr| - 1];
    if Nowhere(tr, q) {
      forall i | 0 <= i < |front| && AroundAs(front[i], q) ensures exists m :: i < m < |front| && EndsAs(front[m], q) {
        assert AroundAs(tr[i], q);
        var m :| i < m < |tr| && EndsAs(tr[m], q);
        assert front[m] == tr[m];
      }
    }
    if Nowhere(front, q) {
      forall i | 0 <= i < |tr| && AroundAs(tr[i], q) ensures exists m :: i < m < |tr| && EndsAs(tr[m], q) {
        assert AroundAs(front[i], q);
        var m :| i < m < |front| && EndsAs(front[m], q);
        assert front[m] == tr[m];
      }
    }
  }

  /** A visit holds the hour and time of its first sighting and the time of its last, by index. */
  lemma {:induction false} VisitTells(tr: seq<Glimpse>, q: SpanKey) returns (p: nat, j: nat)
    requires VisitOf(tr, q).Visiting?
    ensures p <= j && VisitBegins(tr, q, p) && LastAround(tr, q, j)
    ensures var v := VisitOf(tr, q); v.hour == tr[p].hour && v.first == tr[p].at && v.last == tr[j].at
  {
    var n := |tr| - 1;
    var front, e := tr[..n], tr[n];
    if AroundAs(e, q) && VisitOf(front, q).NoVisit? {
      NowhereTells(front, q);
      forall i | 0 <= i < n && AroundAs(tr[i], q) ensures exists m :: i < m < n && EndsAs(tr[m], q) {
        assert AroundAs(front[i], q);
        var m :| i < m < n && EndsAs(front[m], q);
        assert EndsAs(tr[m], q);
      }
      p, j := n, n;
    } else {
      p, j := VisitTells(front, q);
      forall i | 0 <= i < p && AroundAs(tr[i], q) ensures exists m :: i < m < p && EndsAs(tr[m], q) {
        assert AroundAs(front[i], q);
        var m :| i < m < p && EndsAs(front[m], q);
        assert EndsAs(tr[m], q);
      }
      if AroundAs(e, q) {
        j := n;
      }
    }
  }

  /** The visit that ends here counts under b: the store's own bucket, in the hour it began. */
  predicate EndsVisit(tr: seq<Glimpse>, e: Glimpse, b: Key) {
    e.Finished? && VisitOf(tr, e.q).Visiting? && Bucket(e.q.0, "__store__", VisitOf(tr, e.q).hour) == b
  }

  function VisitsEnded(tr: seq<Glimpse>, b: Key): nat {
    if tr == [] then 0
    else
      var front, e := tr[..|tr| - 1], tr[|tr| - 1];
      VisitsEnded(front, b) + if EndsVisit(front, e, b) then 1 else 0
  }

  function VisitTime(tr: seq<Glimpse>, b: Key): int {
    if tr == [] then 0
    else
      var front, e := tr[..|tr| - 1], tr[|tr| - 1];
      VisitTime(front, b)
      + if EndsVisit(front, e, b) then WholeMs(VisitOf(front, e.q).first, VisitOf(front, e.q).last) else 0
  }

  // ---- the aggregator's spans ---------------------------------------------------------------------------

  function Revokes(c: Moment, marks: seq<(Option<int>, Option<int>)>): seq<Glimpse> {
    if marks == [] then []
    else
      var m := marks[|marks| - 1];
      Revokes(c, marks[..|marks| - 1]) + if m.1.Some? then [Revoked((c.store, m.1.value))] else []
  }

  function Glimpses(c: Moment, es: seq<(int, Option<int>)>): seq<Glimpse> {
    if es == [] then []
    else
      var e := es[|es| - 1];
      Glimpses(c, es[..|es| - 1]) + if e.1.Some? then [Around((c.store, e.1.value), c.hour, c.now)] else []
  }

  function Finishes(c: Moment, qs: seq<SpanKey>): seq<Glimpse> {
    seq(|qs|, i requires 0 <= i < |qs| => Finished(qs[i], c.now))
  }

  function SpanView(spans: map<SpanKey, Span>, q: SpanKey): Visit {
    if q in spans then Visiting(spans[q].hour, spans[q].first, spans[q].last) else NoVisit
  }

  ghost predicate VisitsSeen(spans: map<SpanKey, Span>, tr: seq<Glimpse>) {
    forall q :: SpanView(spans, q) == VisitOf(tr, q)
  }

  lemma GlimpseStep(spans: map<SpanKey, Span>, spans': map<SpanKey, Span>, tr: seq<Glimpse>, e: Glimpse)
    requires VisitsSeen(spans, tr)
    requires forall q ::
      SpanView(spans', q) == if e.q == q then NextVisit(SpanView(spans, q), e) else SpanView(spans, q)
    ensures VisitsSeen(spans', tr + [e])
  {
    hide SpanView, NextVisit;
    assert (tr + [e])[..|tr|] == tr;
  }

  lemma {:induction false} RevokesAreSeen(spans: map<SpanKey, Span>, tr: seq<Glimpse>, c: Moment,
                                          marks: seq<(Option<int>, Option<int>)>)
    requires VisitsSeen(spans, tr)
    ensures VisitsSeen(DropSpans(spans, c, marks), tr + Revokes(c, marks))
  {
    if marks == [] {
      assert tr + [] == tr;
    } else {
      var front, m := marks[..|marks| - 1], marks[|marks| - 1];
      RevokesAreSeen(spans, tr, c, front);
      var s1, tr1 := DropSpans(spans, c, front), tr + Revokes(c, front);
      if m.1.Some? {
        assert tr + Revokes(c, marks) == tr1 + [Revoked((c.store, m.1.value))];
        hide VisitsSeen;
        GlimpseStep(s1, DropSpans(spans, c, marks), tr1, Revoked((c.store, m.1.value)));
      } else {
        assert tr + Revokes(c, marks) == tr1;
      }
    }
  }

  lemma {:induction false} GlimpsesAreSeen(spans: map<SpanKey, Span>, tr: seq<Glimpse>, c: Moment,
                                           es: seq<(int, Option<int>)>)
    requires VisitsSeen(spans, tr)
    ensures VisitsSeen(ExtendSpans(spans, c, es), tr + Glimpses(c, es))
  {
    if es == [] {
      assert tr + [] == tr;
    } else {
      var front, e := es[..|es| - 1], es[|es| - 1];
      GlimpsesAreSeen(spans, tr, c, front);
      var s1, tr1 := ExtendSpans(spans, c, front), tr + Glimpses(c, front);
      if e.1.Some? {
        assert tr + Glimpses(c, es) == tr1 + [Around((c.store, e.1.value), c.hour, c.now)];
        hide VisitsSeen;
        GlimpseStep(s1, ExtendSpans(spans, c, es), tr1, Around((c.store, e.1.value), c.hour, c.now));
      } else {
        assert tr + Glimpses(c, es) == tr1;
      }
    }
  }

  lemma FinishesSnoc(tr: seq<Glimpse>, c: Moment, qs: seq<SpanKey>)
    requires qs != []
    ensures tr + Finishes(c, qs) == tr + Finishes(c, qs[..|qs| - 1]) + [Finished(qs[|qs| - 1], c.now)]
  {
  }

  lemma {:induction false} FinishesAreSeen(spans: map<SpanKey, Span>, tr: seq<Glimpse>, c: Moment, qs: seq<SpanKey>)
    requires VisitsSeen(spans, tr)
    ensures VisitsSeen(spans - (set q | q in qs), tr + Finishes(c, qs))
  {
    if qs == [] {
      assert tr + [] == tr;
      assert spans - (set q | q in qs) == spans;
    } else {
      var front, q := qs[..|qs| - 1], qs[|qs| - 1];
      FinishesAreSeen(spans, tr, c, front);
      var s1, tr1 := spans - (set x | x in front), tr + Finishes(c, front);
      FinishesSnoc(tr, c, qs);
      assert qs == front + [q];
      assert spans - (set x | x in qs) == s1 - {q};
      hide VisitsSeen;
      GlimpseStep(s1, s1 - {q}, tr1, Finished(q, c.now));
    }
  }

  lemma VisitsSnoc(tr: seq<Glimpse>, e: Glimpse, b: Key)
    ensures VisitsEnded(tr + [e], b) == VisitsEnded(tr, b) + if EndsVisit(tr, e, b) then 1 else 0
    ensures EndsVisit(tr, e, b) ==>
      VisitTime(tr + [e], b) == VisitTime(tr, b) + WholeMs(VisitOf(tr, e.q).first, VisitOf(tr, e.q).last)
    ensures !EndsVisit(tr, e, b) ==> VisitTime(tr + [e], b) == VisitTime(tr, b)
  {
    assert (tr + [e])[..|tr|] == tr;
    hide VisitOf;
  }

  /** One visit ends. */
  lemma OneVisit(spans: map<SpanKey, Span>, tr: seq<Glimpse>, q: SpanKey, at: real, b: Key)
    requires VisitsSeen(spans, tr) && q in spans && spans[q].first <= spans[q].last
    ensures var e, o := Finished(q, at), Closed(SpanOutcome(q, spans[q]));
      && VisitsEnded(tr + [e], b) == VisitsEnded(tr, b) + (if BanksAt(o, b) then 1 else 0)
      && VisitTime(tr + [e], b) == VisitTime(tr, b) + if BanksAt(o, b) then o.outcome.ms else 0
  {
    assert SpanView(spans, q) == VisitOf(tr, q);
    MsIsWhole(spans[q].first, spans[q].last);
    hide VisitsSeen, VisitOf, DwellMs, WholeMs;
    VisitsSnoc(tr, Finished(q, at), b);
  }

  lemma SpanClosingsSnoc(spans: map<SpanKey, Span>, qs: seq<SpanKey>, b: Key)
    requires qs != [] && forall q :: q in qs ==> q in spans
    ensures var front, o := qs[..|qs| - 1], Closed(SpanOutcome(qs[|qs| - 1], spans[qs[|qs| - 1]]));
      var outs, before := SpanClosings(spans, qs), SpanClosings(spans, front);
      && BankedAt(outs, b) == BankedAt(before, b) + (if BanksAt(o, b) then 1 else 0)
      && BankedMs(outs, b) == BankedMs(before, b) + if BanksAt(o, b) then o.outcome.ms else 0
  {
    var outs, q := SpanClosings(spans, qs), qs[|qs| - 1];
    assert outs[..|outs| - 1] == SpanClosings(spans, qs[..|qs| - 1]);
    assert outs[|outs| - 1] == (q, Closed(SpanOutcome(q, spans[q])));
    hide SpanOutcome, SpanClosings;
  }

  lemma {:induction false} SpansAreVisits(spans: map<SpanKey, Span>, tr: seq<Glimpse>, c: Moment, qs: seq<SpanKey>,
                                          b: Key)
    requires VisitsSeen(spans, tr) && (forall q :: q in qs ==> q in spans)
    requires forall i, j :: 0 <= i < j < |qs| ==> qs[i] != qs[j]
    requires forall q :: q in spans ==> spans[q].first <= spans[q].last
    ensures var tr', outs := tr + Finishes(c, qs), SpanClosings(spans, qs);
      && VisitsEnded(tr', b) == VisitsEnded(tr, b) + BankedAt(outs, b)
      && VisitTime(tr', b) == VisitTime(tr, b) + BankedMs(outs, b)
  {
    if qs == [] {
      assert tr + [] == tr;
    } else {
      var front, q := qs[..|qs| - 1], qs[|qs| - 1];
      SpansAreVisits(spans, tr, c, front, b);
      FinishesAreSeen(spans, tr, c, front);
      var s1, tr1 := spans - (set x | x in front), tr + Finishes(c, front);
      assert q in s1 && s1[q] == spans[q];
      hide VisitsSeen, SpanOutcome, BanksAt, SpanClosings, Finishes, VisitsEnded, VisitTime, BankedAt, BankedMs;
      FinishesSnoc(tr, c, qs);
      SpanClosingsSnoc(spans, qs, b);
      OneVisit(s1, tr1, q, c.now, b);
    }
  }
}
