/**
 Sizing the breach clip (`compute_clip_window`), choosing the recorded segments it needs
 (`_find_segments_in_window`) and seeking into their concatenation (`cut_window`).
 Times are wall-clock seconds.
 */
module ClipWindow {
  import opened Options
  import opened Sorting

  const MAX_SEGMENT := 120.0

  // ---- the window ---------------------------------------------------------------------------------

  function Ceil(x: real): (n: int)
    ensures x <= n as real < x + 1.0
  {
    -((-x).Floor)
  }

  function IntMax(a: int, b: int): int { if b > a then b else a }
  function IntMin(a: int, b: int): int { if b < a then b else a }

  /** Seconds before the breach the clip should reach back to. */
  function PreSeconds(breachMs: Option<int>, episodeMs: Option<int>, prePad: int): real {
    if episodeMs.Some? && breachMs.Some? && episodeMs.value <= breachMs.value
    then (breachMs.value - episodeMs.value) as real / 1000.0 + prePad as real
    else 5.0
  }

  function WantedSeconds(pre: real, postRoll: real): int {
    Ceil(pre + postRoll + 2.0)
  }

  /** (start offset, duration) in whole seconds, relative to the moment of the cut. */
  function ComputeClipWindow(breachMs: Option<int>, episodeMs: Option<int>, prePad: int, postRoll: real,
      maxSec: int): (int, int) {
    var duration := IntMax(5, IntMin(maxSec, WantedSeconds(PreSeconds(breachMs, episodeMs, prePad), postRoll)));
    (-duration, duration)
  }

  /**
   The window of a cut made `delay` seconds (0 to 2) after the post-roll ends at the cut and,
   unless capped, reaches back past the padded start of the episode.
   */
  lemma WindowCoversEpisode(breachMs: int, episodeMs: int, prePad: int, postRoll: real, maxSec: int, delay: real)
    requires episodeMs <= breachMs && 0.0 <= delay <= 2.0
    requires (breachMs - episodeMs) as real / 1000.0 + prePad as real + postRoll + 2.0 <= maxSec as real
    ensures var (start, duration) := ComputeClipWindow(Some(breachMs), Some(episodeMs), prePad, postRoll, maxSec);
            var breach, episode := breachMs as real / 1000.0, episodeMs as real / 1000.0;
            var cut := breach + postRoll + delay;
            && start + duration == 0
            && cut + start as real <= episode - prePad as real
            && cut + start as real + duration as real == cut >= breach + postRoll
  {
  }

  /** The episode's start is known, and not after the breach. */
  predicate StartKnown(breachMs: Option<int>, episodeMs: Option<int>) {
    match (breachMs, episodeMs)
    case (Some(breach), Some(episode)) => episode <= breach
    case _ => false
  }

  /**
   Without a usable start of the episode, an uncapped cut 0 to 2 s after the post-roll begins five seconds before the
   breach or earlier, and ends after the post-roll.
   */
  lemma WindowCoversBreach(breachMs: Option<int>, episodeMs: Option<int>, prePad: int, postRoll: real, maxSec: int,
                           breach: real, delay: real)
    requires !StartKnown(breachMs, episodeMs) && 0.0 <= delay <= 2.0
    requires 5.0 + postRoll + 2.0 <= maxSec as real
    ensures var (start, duration) := ComputeClipWindow(breachMs, episodeMs, prePad, postRoll, maxSec);
      var cut := breach + postRoll + delay;
      && cut + start as real <= breach - 5.0
      && cut + start as real + duration as real == cut >= breach + postRoll
  {
  }

  /**
   In numbers: the window is as many whole seconds as it takes to hold the reach back, the post-roll and two seconds,
   but at most maxSec and at least five, and it ends at the cut.
   */
  lemma WindowExactly(breachMs: Option<int>, episodeMs: Option<int>, prePad: int, postRoll: real, maxSec: int, n: int)
    requires var reach := if StartKnown(breachMs, episodeMs)
                          then (breachMs.value - episodeMs.value) as real / 1000.0 + prePad as real else 5.0;
      reach + postRoll + 2.0 <= n as real < reach + postRoll + 3.0
    ensures var (start, duration) := ComputeClipWindow(breachMs, episodeMs, prePad, postRoll, maxSec);
      && start == -duration
      && duration >= 5 && (n >= 5 && maxSec >= 5 ==> duration <= n && duration <= maxSec)
      && (duration == n || duration == maxSec || duration == 5)
      && (5 <= n <= maxSec ==> duration == n) && (5 <= maxSec <= n ==> duration == maxSec)
      && (n <= 5 || maxSec <= 5 ==> duration == 5)
  {
  }

  /** It reaches back less than three seconds further than asked, or is the five-second minimum. */
  lemma WindowIsTight(breachMs: Option<int>, episodeMs: Option<int>, prePad: int, postRoll: real, maxSec: int)
    ensures var duration := ComputeClipWindow(breachMs, episodeMs, prePad, postRoll, maxSec).1;
      var reach := if StartKnown(breachMs, episodeMs)
                   then (breachMs.value - episodeMs.value) as real / 1000.0 + prePad as real else 5.0;
      && duration >= 5
      && (duration == 5 || duration as real < reach + postRoll + 3.0)
      && (duration == 5 || duration <= maxSec)
  {
  }

  /** The breach is inside the window of a cut made `delay` seconds after the post-roll. */
  ghost predicate BreachKept(duration: int, postRoll: real, delay: real) {
    duration as real >= postRoll + delay
  }

  /**
   "The breach moment and post-roll always survive" the cap: true of every cut within the
   slack exactly when the cap (never below five seconds) leaves room for post-roll and slack.
   */
  lemma BreachSurvivesExactly(breachMs: Option<int>, episodeMs: Option<int>, prePad: int, postRoll: real, maxSec: int)
    requires prePad >= 0
    ensures (forall delay: real :: 0.0 <= delay <= 2.0 ==>
               BreachKept(ComputeClipWindow(breachMs, episodeMs, prePad, postRoll, maxSec).1, postRoll, delay))
        <==> IntMax(5, maxSec) as real >= postRoll + 2.0
  {
    var duration := ComputeClipWindow(breachMs, episodeMs, prePad, postRoll, maxSec).1;
    var pre := PreSeconds(breachMs, episodeMs, prePad);
    assert pre >= 0.0;
    assert WantedSeconds(pre, postRoll) as real >= postRoll + 2.0;
    hide ComputeClipWindow, WantedSeconds, PreSeconds;
    if forall delay: real :: 0.0 <= delay <= 2.0 ==> BreachKept(duration, postRoll, delay) {
      assert BreachKept(duration, postRoll, 2.0);
    }
    assert duration == IntMax(5, IntMin(maxSec, WantedSeconds(pre, postRoll))) by {
      DurationIs(breachMs, episodeMs, prePad, postRoll, maxSec);
    }
  }

  /** For one, ten seconds of post-roll under a cap of eight: even a prompt cut begins after the breach. */
  lemma CapLosesBreach(breachMs: int)
    ensures ComputeClipWindow(Some(breachMs), Some(breachMs), 0, 10.0, 8).1 == 8 && !BreachKept(8, 10.0, 0.0)
  {
  }

  lemma DurationIs(breachMs: Option<int>, episodeMs: Option<int>, prePad: int, postRoll: real, maxSec: int)
    ensures ComputeClipWindow(breachMs, episodeMs, prePad, postRoll, maxSec).1
         == IntMax(5, IntMin(maxSec, WantedSeconds(PreSeconds(breachMs, episodeMs, prePad), postRoll)))
  {
  }

  // ---- segments -----------------------------------------------------------------------------------

  /** A directory entry; `ts` is the time its name parses to, if it does, and `length` the seconds of footage in it. */
  datatype Entry = Entry(path: string, isFile: bool, mp4: bool, live: bool, ts: Option<real>, length: real)

  datatype Segment = Segment(ts: real, path: string, length: real)

  function TsOf(s: Segment): real {
    s.ts
  }

  predicate IsSegment(e: Entry) {
    e.isFile && e.mp4 && !e.live && e.ts.Some?
  }

  function Segments(entries: seq<Entry>): seq<Segment> {
    if entries == [] then []
    else
      var e := entries[|entries| - 1];
      Segments(entries[..|entries| - 1]) + if IsSegment(e) then [Segment(e.ts.value, e.path, e.length)] else []
  }

  /** MP4 files, not cut clips, named after a time. */
  ghost predicate Recording(e: Entry) {
    e.isFile && e.mp4 && !e.live && e.ts != None
  }

  /** ix lists, in directory order, the entries that are segments, and segs is what they hold. */
  ghost predicate Lists(entries: seq<Entry>, segs: seq<Segment>, ix: seq<nat>) {
    && |segs| == |ix| && (forall i, j :: 0 <= i < j < |ix| ==> ix[i] < ix[j])
    && (forall i :: 0 <= i < |ix| ==> ix[i] < |entries| && Recording(entries[ix[i]]) && IsOf(entries[ix[i]], segs[i]))
    && (forall n :: 0 <= n < |entries| && Recording(entries[n]) ==> n in ix)
  }

  lemma {:induction false} SegmentsExactly(entries: seq<Entry>) returns (ix: seq<nat>)
    ensures Lists(entries, Segments(entries), ix)
  {
    if entries == [] {
      ix := [];
    } else {
      var n := |entries| - 1;
      var front := SegmentsExactly(entries[..n]);
      ix := if Recording(entries[n]) then front + [n] else front;
      ListsSnoc(entries, Segments(entries[..n]), front);
    }
  }

  lemma LastListed(e: Entry)
    requires Recording(e)
    ensures IsOf(e, Segment(e.ts.value, e.path, e.length))
  {
  }

  lemma ListsSnoc(entries: seq<Entry>, segs: seq<Segment>, ix: seq<nat>)
    requires entries != [] && Lists(entries[..|entries| - 1], segs, ix)
    ensures var n := |entries| - 1;
      var e := entries[n];
      if Recording(e) then Lists(entries, segs + [Segment(e.ts.value, e.path, e.length)], ix + [n])
      else Lists(entries, segs, ix)
  {
    hide Recording, IsOf;
    var n, front := |entries| - 1, entries[..|entries| - 1];
    assert forall m :: 0 <= m < n ==> front[m] == entries[m];
    var e := entries[n];
    if Recording(e) {
      LastListed(e);
      var segs', ix' := segs + [Segment(e.ts.value, e.path, e.length)], ix + [n];
      forall i | 0 <= i < |ix'|
        ensures ix'[i] < |entries| && Recording(entries[ix'[i]]) && IsOf(entries[ix'[i]], segs'[i])
      {
        assert i < |ix| ==> ix'[i] == ix[i] && segs'[i] == segs[i];
      }
    }
  }

  /** The segment s is the entry e. */
  predicate IsOf(e: Entry, s: Segment) {
    e.ts == Some(s.ts) && e.path == s.path && e.length == s.length
  }

  function SegEnd(segs: seq<Segment>, i: nat): real
    requires i < |segs|
  {
    if i + 1 < |segs| then segs[i + 1].ts else segs[i].ts + MAX_SEGMENT
  }

  predicate Overlaps(segs: seq<Segment>, i: nat, start: real, end: real)
    requires i < |segs|
  {
    segs[i].ts < end && SegEnd(segs, i) > start
  }

  ghost predicate Amid(t: real, a: real, b: real) {
    a < t < b
  }

  /** A segment, taken to run up to the next, the newest for 120 s, overlaps if it shares a stretch with the window. */
  lemma OverlapsExactly(segs: seq<Segment>, i: nat, start: real, end: real, next: real)
    requires i < |segs| && start < end
    requires next == if i + 1 < |segs| then segs[i + 1].ts else segs[i].ts + 120.0
    requires segs[i].ts < next
    ensures Overlaps(segs, i, start, end) <==> exists t :: Amid(t, segs[i].ts, next) && Amid(t, start, end)
  {
    var a := if segs[i].ts < start then start else segs[i].ts;
    var b := if next < end then next else end;
    if a < b {
      assert Amid((a + b) / 2.0, segs[i].ts, next) && Amid((a + b) / 2.0, start, end);
    }
  }

  /** Indices of the overlapping segments among the first n. */
  function Picked(segs: seq<Segment>, start: real, end: real, n: nat): (ix: seq<nat>)
    requires n <= |segs|
    ensures forall q :: 0 <= q < |ix| ==> ix[q] < n && Overlaps(segs, ix[q], start, end)
  {
    if n == 0 then []
    else Picked(segs, start, end, n - 1) + if Overlaps(segs, n - 1, start, end) then [n - 1] else []
  }

  function Paths(segs: seq<Segment>, ix: seq<nat>): seq<string>
    requires forall q :: 0 <= q < |ix| ==> ix[q] < |segs|
  {
    seq(|ix|, q requires 0 <= q < |ix| => segs[ix[q]].path)
  }

  function Library(entries: seq<Entry>): seq<Segment> {
    StableSort(Segments(entries), TsOf)
  }

  method FindSegmentsInWindow(isDir: bool, entries: seq<Entry>, start: real, end: real) returns (paths: seq<string>)
    ensures paths == if isDir then Paths(Library(entries), Picked(Library(entries), start, end, |Library(entries)|))
      else []
  {
    if !isDir {
      return [];
    }
    hide StableSort;
    var segments: seq<Segment> := [];
    for i := 0 to |entries|
      invariant segments == Segments(entries[..i])
    {
      assert entries[..i + 1][..i] == entries[..i];
      var e := entries[i];
      if !e.isFile || !e.mp4 {
        continue;
      }
      if e.live {
        continue;
      }
      if e.ts.None? {
        continue;
      }
      segments := segments + [Segment(e.ts.value, e.path, e.length)];
    }
    assert entries[..|entries|] == entries;
    segments := StableSort(segments, TsOf);
    paths := [];
    for i := 0 to |segments|
      invariant paths == Paths(segments, Picked(segments, start, end, i))
    {
      var segEnd := if i + 1 < |segments| then segments[i + 1].ts else segments[i].ts + MAX_SEGMENT;
      if segments[i].ts < end && segEnd > start {
        paths := paths + [segments[i].path];
      }
    }
  }

  /** lo, lo + 1, .., hi - 1. */
  function Range(lo: nat, hi: nat): (r: seq<nat>)
    requires lo <= hi
  {
    seq(hi - lo, q requires 0 <= q < hi - lo => lo + q)
  }

  lemma OverlapConvex(segs: seq<Segment>, start: real, end: real, i: nat, m: nat, j: nat)
    requires SortedBy(segs, TsOf) && i <= m <= j < |segs|
    requires Overlaps(segs, i, start, end) && Overlaps(segs, j, start, end)
    ensures Overlaps(segs, m, start, end)
  {
  }

  /** On a sorted library the segments chosen are one contiguous stretch. */
  lemma {:induction false} PickedIsRange(segs: seq<Segment>, start: real, end: real, n: nat) returns (lo: nat, hi: nat)
    requires SortedBy(segs, TsOf) && n <= |segs|
    ensures lo <= hi <= n && Picked(segs, start, end, n) == Range(lo, hi)
    ensures forall i :: 0 <= i < n ==> (lo <= i < hi <==> Overlaps(segs, i, start, end))
  {
    hide Overlaps;
    lo, hi := 0, 0;
    if n > 0 {
      lo, hi := PickedIsRange(segs, start, end, n - 1);
      if Overlaps(segs, n - 1, start, end) {
        if lo < hi {
          if hi < n - 1 {
            OverlapConvex(segs, start, end, hi - 1, hi, n - 1);
          }
          hi := n;
        } else {
          lo, hi := n - 1, n;
        }
      }
    }
  }

  // ---- the footage ----------------------------------------------------------------------------------

  /** Where the footage of segment i really ends. */
  function FootageEnd(segs: seq<Segment>, i: nat): real
    requires i < |segs|
  {
    segs[i].ts + segs[i].length
  }

  /** Segments hold footage and do not overlap; the newest is no longer than the cutter assumes. Gaps are allowed. */
  ghost predicate Recorded(segs: seq<Segment>) {
    forall i :: 0 <= i < |segs| ==> segs[i].length > 0.0 && FootageEnd(segs, i) <= SegEnd(segs, i)
  }

  /** Recording ran back to back from segment lo to segment hi - 1. */
  ghost predicate NoGap(segs: seq<Segment>, lo: nat, hi: nat)
    requires hi <= |segs|
  {
    forall i :: lo <= i < hi - 1 ==> FootageEnd(segs, i) == segs[i + 1].ts
  }

  /** The moment t was recorded, in one of the segments lo .. hi - 1. */
  ghost predicate Filmed(segs: seq<Segment>, lo: nat, hi: nat, t: real)
    requires hi <= |segs|
  {
    exists i :: lo <= i < hi && segs[i].ts <= t < FootageEnd(segs, i)
  }

  lemma RecordedSorted(segs: seq<Segment>)
    requires Recorded(segs)
    ensures SortedBy(segs, TsOf)
  {
    forall i, j | 0 <= i < j < |segs| ensures TsOf(segs[i]) <= TsOf(segs[j]) {
      TsGrows(segs, i, j);
    }
  }

  lemma {:induction false} TsGrows(segs: seq<Segment>, i: nat, j: nat)
    requires Recorded(segs) && i < j < |segs|
    ensures FootageEnd(segs, i) <= segs[j].ts && segs[i].ts < segs[j].ts
    decreases j - i
  {
    assert FootageEnd(segs, i) <= SegEnd(segs, i);
    if i + 1 < j {
      TsGrows(segs, i + 1, j);
    }
  }

  // ---- the concatenation ------------------------------------------------------------------------------

  /** Seconds of footage in segments lo .. hi - 1 played one after the other. */
  function TotalLength(segs: seq<Segment>, lo: nat, hi: nat): real
    requires lo <= hi <= |segs|
    decreases hi - lo
  {
    if lo == hi then 0.0 else segs[lo].length + TotalLength(segs, lo + 1, hi)
  }

  /** The moment shown at offset o into the concatenation; past its end there is no footage. */
  function Shown(segs: seq<Segment>, lo: nat, hi: nat, o: real): real
    requires lo < hi <= |segs| && 0.0 <= o < TotalLength(segs, lo, hi)
    decreases hi - lo
  {
    if lo + 1 == hi || o < segs[lo].length then segs[lo].ts + o else Shown(segs, lo + 1, hi, o - segs[lo].length)
  }

  /** Concatenation never runs ahead of wall time, and lags by every gap it has passed. */
  lemma {:induction false} ShownLags(segs: seq<Segment>, lo: nat, hi: nat, o: real)
    requires Recorded(segs) && lo < hi <= |segs| && 0.0 <= o < TotalLength(segs, lo, hi)
    ensures Shown(segs, lo, hi, o) >= segs[lo].ts + o
    ensures NoGap(segs, lo, hi) ==> Shown(segs, lo, hi, o) == segs[lo].ts + o
    decreases hi - lo
  {
    if o >= segs[lo].length {
      ShownLags(segs, lo + 1, hi, o - segs[lo].length);
    }
  }

  lemma {:induction false} GapShifts(segs: seq<Segment>, lo: nat, hi: nat, i: nat, o: real)
    requires Recorded(segs) && lo <= i < hi - 1 && hi <= |segs|
    requires FootageEnd(segs, i) < segs[i + 1].ts
    requires TotalLength(segs, lo, i + 1) <= o < TotalLength(segs, lo, hi) && 0.0 <= o
    ensures Shown(segs, lo, hi, o) > segs[lo].ts + o
    decreases i - lo
  {
    LengthsPositive(segs, lo + 1, i + 1);
    assert o >= segs[lo].length;
    if i == lo {
      ShownLags(segs, lo + 1, hi, o - segs[lo].length);
    } else {
      GapShifts(segs, lo + 1, hi, i, o - segs[lo].length);
    }
  }

  lemma {:induction false} LengthsPositive(segs: seq<Segment>, lo: nat, hi: nat)
    requires Recorded(segs) && lo <= hi <= |segs|
    ensures TotalLength(segs, lo, hi) >= 0.0 && (lo < hi ==> TotalLength(segs, lo, hi) > 0.0)
    decreases hi - lo
  {
    if lo < hi {
      LengthsPositive(segs, lo + 1, hi);
    }
  }

  lemma {:induction false} LengthsSplit(segs: seq<Segment>, lo: nat, mid: nat, hi: nat)
    requires lo <= mid <= hi <= |segs|
    ensures TotalLength(segs, lo, hi) == TotalLength(segs, lo, mid) + TotalLength(segs, mid, hi)
    decreases mid - lo
  {
    if lo < mid {
      LengthsSplit(segs, lo + 1, mid, hi);
    }
  }

  /** The lengths telescope to the span of wall time if and only if nothing is missing in between. */
  lemma {:induction false} LengthsTelescope(segs: seq<Segment>, lo: nat, hi: nat)
    requires Recorded(segs) && lo < hi <= |segs|
    ensures TotalLength(segs, lo, hi) <= FootageEnd(segs, hi - 1) - segs[lo].ts
    ensures TotalLength(segs, lo, hi) == FootageEnd(segs, hi - 1) - segs[lo].ts <==> NoGap(segs, lo, hi)
    decreases hi - lo
  {
    assert TotalLength(segs, hi, hi) == 0.0;
    if lo + 1 < hi {
      LengthsTelescope(segs, lo + 1, hi);
      assert FootageEnd(segs, lo) <= SegEnd(segs, lo) == segs[lo + 1].ts;
      if NoGap(segs, lo + 1, hi) && FootageEnd(segs, lo) == segs[lo + 1].ts {
        assert NoGap(segs, lo, hi);
      }
    }
  }

  /** Every offset shows the first segment's time plus the offset. */
  ghost predicate KeepsTime(segs: seq<Segment>, lo: nat, hi: nat)
    requires lo < hi <= |segs|
  {
    forall o :: 0.0 <= o < TotalLength(segs, lo, hi) ==> Shown(segs, lo, hi, o) == segs[lo].ts + o
  }

  /** Concatenation keeps wall time if and only if there is no gap. */
  lemma ConcatenationKeepsTime(segs: seq<Segment>, lo: nat, hi: nat)
    requires Recorded(segs) && lo < hi <= |segs|
    ensures KeepsTime(segs, lo, hi) <==> NoGap(segs, lo, hi)
  {
    hide Recorded, TotalLength, Shown;
    if NoGap(segs, lo, hi) {
      forall o | 0.0 <= o < TotalLength(segs, lo, hi) ensures Shown(segs, lo, hi, o) == segs[lo].ts + o {
        ShownLags(segs, lo, hi, o);
      }
    } else {
      var i :| lo <= i < hi - 1 && FootageEnd(segs, i) != segs[i + 1].ts;
      hide KeepsTime;
      GapBreaksTime(segs, lo, hi, i);
    }
  }

  lemma GapBreaksTime(segs: seq<Segment>, lo: nat, hi: nat, i: nat)
    requires Recorded(segs) && lo <= i < hi - 1 && hi <= |segs| && FootageEnd(segs, i) != segs[i + 1].ts
    ensures !KeepsTime(segs, lo, hi)
  {
    assert FootageEnd(segs, i) <= SegEnd(segs, i) == segs[i + 1].ts;
    hide Recorded, TotalLength, Shown;
    var o := TotalLength(segs, lo, i + 1);
    LengthsPositive(segs, lo, i + 1);
    LengthsPositive(segs, i + 1, hi);
    LengthsSplit(segs, lo, i + 1, hi);
    GapShifts(segs, lo, hi, i, o);
  }

  // ---- the clip -----------------------------------------------------------------------------------------

  function Seek(start: real, first: real): real {
    if start - first > 0.0 then start - first else 0.0
  }

  /** lo .. hi - 1 are the segments chosen for the window. */
  ghost predicate Chosen(segs: seq<Segment>, start: real, end: real, lo: nat, hi: nat) {
    lo < hi <= |segs| && Picked(segs, start, end, |segs|) == Range(lo, hi)
  }

  lemma ChosenOverlap(segs: seq<Segment>, start: real, end: real, lo: nat, hi: nat, i: nat)
    requires Recorded(segs) && Chosen(segs, start, end, lo, hi) && i < |segs|
    ensures lo <= i < hi <==> Overlaps(segs, i, start, end)
  {
    RecordedSorted(segs);
    var a, b := PickedIsRange(segs, start, end, |segs|);
    assert |Range(lo, hi)| == hi - lo && Range(lo, hi)[0] == lo;
    assert |Range(a, b)| == b - a;
    assert Range(a, b)[0] == a;
  }

  /** The seek stays inside what is assumed of the first chosen segment, and inside its footage unless a gap follows. */
  lemma SeekInFirst(segs: seq<Segment>, start: real, end: real, lo: nat, hi: nat)
    requires Recorded(segs) && Chosen(segs, start, end, lo, hi)
    ensures 0.0 <= Seek(start, segs[lo].ts) < SegEnd(segs, lo) - segs[lo].ts
    ensures Seek(start, segs[lo].ts) < segs[lo].length <==> start < FootageEnd(segs, lo)
    ensures FootageEnd(segs, lo) == SegEnd(segs, lo) ==> Seek(start, segs[lo].ts) < segs[lo].length
  {
    ChosenOverlap(segs, start, end, lo, hi, lo);
  }

  /** The clip has footage x seconds in. */
  predicate HasFootage(segs: seq<Segment>, lo: nat, hi: nat, start: real, x: real)
    requires lo < hi <= |segs|
  {
    0.0 <= x && Seek(start, segs[lo].ts) + x < TotalLength(segs, lo, hi)
  }

  /** What the clip shows x seconds in, after seeking into the concatenation. */
  function ClipAt(segs: seq<Segment>, lo: nat, hi: nat, start: real, x: real): real
    requires lo < hi <= |segs| && HasFootage(segs, lo, hi, start, x)
  {
    Shown(segs, lo, hi, Seek(start, segs[lo].ts) + x)
  }

  /** Every second of the window is in the clip, at its time. */
  ghost predicate ShowsWindow(segs: seq<Segment>, lo: nat, hi: nat, start: real, end: real)
    requires lo < hi <= |segs|
  {
    forall x: real :: 0.0 <= x < end - start ==>
      HasFootage(segs, lo, hi, start, x) && ClipAt(segs, lo, hi, start, x) == start + x
  }

  /** Recording had begun by the start of the window, never paused, and lasted to the window's end. */
  ghost predicate CoversWindow(segs: seq<Segment>, lo: nat, hi: nat, start: real, end: real)
    requires lo < hi <= |segs|
  {
    segs[lo].ts <= start && NoGap(segs, lo, hi) && end <= FootageEnd(segs, hi - 1)
  }

  lemma CoveredIsShown(segs: seq<Segment>, lo: nat, hi: nat, start: real, end: real)
    requires Recorded(segs) && lo < hi <= |segs| && CoversWindow(segs, lo, hi, start, end)
    ensures ShowsWindow(segs, lo, hi, start, end)
  {
    LengthsTelescope(segs, lo, hi);
    forall x: real | 0.0 <= x < end - start
      ensures HasFootage(segs, lo, hi, start, x) && ClipAt(segs, lo, hi, start, x) == start + x
    {
      ShownLags(segs, lo, hi, Seek(start, segs[lo].ts) + x);
    }
  }

  lemma ShownNeedsStart(segs: seq<Segment>, lo: nat, hi: nat, start: real, end: real)
    requires Recorded(segs) && lo < hi <= |segs| && start < end && ShowsWindow(segs, lo, hi, start, end)
    ensures segs[lo].ts <= start
  {
    assert HasFootage(segs, lo, hi, start, 0.0) && ClipAt(segs, lo, hi, start, 0.0) == start + 0.0;
    ShownLags(segs, lo, hi, Seek(start, segs[lo].ts) + 0.0);
  }

  lemma ShownNeedsNoGap(segs: seq<Segment>, lo: nat, hi: nat, start: real, end: real)
    requires Recorded(segs) && Chosen(segs, start, end, lo, hi) && start < end && ShowsWindow(segs, lo, hi, start, end)
    requires segs[lo].ts <= start
    ensures NoGap(segs, lo, hi)
  {
    forall i | lo <= i < hi - 1 ensures FootageEnd(segs, i) == segs[i + 1].ts {
      assert FootageEnd(segs, i) <= SegEnd(segs, i);
      if FootageEnd(segs, i) < segs[i + 1].ts {
        GapIsSeen(segs, lo, hi, i, start, end);
      }
    }
  }

  lemma GapIsSeen(segs: seq<Segment>, lo: nat, hi: nat, i: nat, start: real, end: real)
    requires Recorded(segs) && Chosen(segs, start, end, lo, hi) && start < end && segs[lo].ts <= start
    requires lo <= i < hi - 1 && FootageEnd(segs, i) < segs[i + 1].ts
    ensures !ShowsWindow(segs, lo, hi, start, end)
  {
    ChosenOverlap(segs, start, end, lo, hi, i + 1);
    LengthsTelescope(segs, lo, i + 1);
    hide Shown, TotalLength, Recorded, Chosen, ClipAt;
    var seek, passed := start - segs[lo].ts, TotalLength(segs, lo, i + 1);
    var x := if passed > seek then passed - seek else 0.0;
    assert Seek(start, segs[lo].ts) == seek && 0.0 <= x < end - start;
    if HasFootage(segs, lo, hi, start, x) {
      GapShifts(segs, lo, hi, i, seek + x);
      ClipShown(segs, lo, hi, start, x);
    }
  }

  lemma ClipShown(segs: seq<Segment>, lo: nat, hi: nat, start: real, x: real)
    requires lo < hi <= |segs| && HasFootage(segs, lo, hi, start, x)
    ensures ClipAt(segs, lo, hi, start, x) == Shown(segs, lo, hi, Seek(start, segs[lo].ts) + x)
  {
  }

  lemma ShownNeedsEnd(segs: seq<Segment>, lo: nat, hi: nat, start: real, end: real)
    requires Recorded(segs) && lo < hi <= |segs| && start < end && ShowsWindow(segs, lo, hi, start, end)
    requires segs[lo].ts <= start && NoGap(segs, lo, hi)
    ensures end <= FootageEnd(segs, hi - 1)
  {
    LengthsTelescope(segs, lo, hi);
    var seek, total := start - segs[lo].ts, TotalLength(segs, lo, hi);
    hide TotalLength, Recorded, NoGap;
    var x := if total > seek then total - seek else 0.0;
    assert !HasFootage(segs, lo, hi, start, x);
  }

  /**
   Main result: the clip cut for a window shows every second of it at its own time if and only if
   the recording covers the window without a pause.
   */
  lemma ClipShowsWindow(segs: seq<Segment>, start: real, end: real, lo: nat, hi: nat)
    requires Recorded(segs) && start < end && Chosen(segs, start, end, lo, hi)
    ensures ShowsWindow(segs, lo, hi, start, end) <==> CoversWindow(segs, lo, hi, start, end)
  {
    if CoversWindow(segs, lo, hi, start, end) {
      CoveredIsShown(segs, lo, hi, start, end);
    }
    if ShowsWindow(segs, lo, hi, start, end) {
      ShownNeedsStart(segs, lo, hi, start, end);
      ShownNeedsNoGap(segs, lo, hi, start, end);
      ShownNeedsEnd(segs, lo, hi, start, end);
    }
  }

  // ---- single moments -----------------------------------------------------------------------------------

  /** The moment t is somewhere in the clip. */
  ghost predicate InClip(segs: seq<Segment>, lo: nat, hi: nat, start: real, end: real, t: real)
    requires lo < hi <= |segs|
  {
    exists x: real :: 0.0 <= x < end - start && HasFootage(segs, lo, hi, start, x)
      && ClipAt(segs, lo, hi, start, x) == t
  }

  /** The offset at which segment i shows t. */
  lemma {:induction false} OffsetShows(segs: seq<Segment>, lo: nat, hi: nat, i: nat, t: real)
    requires Recorded(segs) && lo <= i < hi <= |segs| && segs[i].ts <= t < FootageEnd(segs, i)
    ensures var o := TotalLength(segs, lo, i) + (t - segs[i].ts);
      0.0 <= o < TotalLength(segs, lo, hi) && Shown(segs, lo, hi, o) == t && o <= t - segs[lo].ts
    decreases i - lo
  {
    if lo == i {
      LengthsPositive(segs, i + 1, hi);
      assert TotalLength(segs, lo, lo) == 0.0;
    } else {
      assert segs[lo].length > 0.0 && FootageEnd(segs, lo) <= SegEnd(segs, lo) == segs[lo + 1].ts;
      OffsetShows(segs, lo + 1, hi, i, t);
      hide Recorded;
      var o := TotalLength(segs, lo + 1, i) + (t - segs[i].ts);
      assert TotalLength(segs, lo, i) == segs[lo].length + TotalLength(segs, lo + 1, i);
      assert Shown(segs, lo, hi, segs[lo].length + o) == Shown(segs, lo + 1, hi, o);
    }
  }

  /** Segment k films t, and at least the seek's worth of chosen footage lies before t. */
  ghost predicate ReachedIn(segs: seq<Segment>, lo: nat, k: nat, start: real, t: real)
    requires lo <= k < |segs|
  {
    segs[k].ts <= t < FootageEnd(segs, k) && Seek(start, segs[lo].ts) <= TotalLength(segs, lo, k) + (t - segs[k].ts)
  }

  /** The moment t was filmed and the seek does not skip it. */
  ghost predicate Reached(segs: seq<Segment>, lo: nat, hi: nat, start: real, t: real)
    requires lo < hi <= |segs|
  {
    exists k :: lo <= k < hi && ReachedIn(segs, lo, k, start, t)
  }

  /** A moment of the window is in the clip if and only if it was filmed and the seek does not skip it. */
  lemma ClipShowsMoment(segs: seq<Segment>, start: real, end: real, lo: nat, hi: nat, t: real)
    requires Recorded(segs) && start <= t < end && Chosen(segs, start, end, lo, hi)
    ensures InClip(segs, lo, hi, start, end, t) <==> Reached(segs, lo, hi, start, t)
  {
    if InClip(segs, lo, hi, start, end, t) {
      var x: real :| 0.0 <= x < end - start && HasFootage(segs, lo, hi, start, x)
        && ClipAt(segs, lo, hi, start, x) == t;
      ShownReached(segs, lo, hi, Seek(start, segs[lo].ts) + x, start);
    }
    if Reached(segs, lo, hi, start, t) {
      var k :| lo <= k < hi && ReachedIn(segs, lo, k, start, t);
      InClipIf(segs, start, end, lo, hi, k, t);
    }
  }

  /** What is shown at an offset is filmed, with the offset's worth of footage before it. */
  lemma {:induction false} ShownReached(segs: seq<Segment>, lo: nat, hi: nat, o: real, start: real)
    requires Recorded(segs) && lo < hi <= |segs| && Seek(start, segs[lo].ts) <= o < TotalLength(segs, lo, hi)
    ensures 0.0 <= o && Reached(segs, lo, hi, start, Shown(segs, lo, hi, o))
  {
    var k := FilmedAt(segs, lo, hi, o);
    assert ReachedIn(segs, lo, k, start, Shown(segs, lo, hi, o));
  }

  lemma {:induction false} FilmedAt(segs: seq<Segment>, lo: nat, hi: nat, o: real) returns (k: nat)
    requires Recorded(segs) && lo < hi <= |segs| && 0.0 <= o < TotalLength(segs, lo, hi)
    ensures lo <= k < hi && TotalLength(segs, lo, k) <= o < TotalLength(segs, lo, k) + segs[k].length
    ensures Shown(segs, lo, hi, o) == segs[k].ts + (o - TotalLength(segs, lo, k))
    decreases hi - lo
  {
    if o < segs[lo].length {
      k := lo;
      assert TotalLength(segs, lo, lo) == 0.0;
    } else {
      k := FilmedAt(segs, lo + 1, hi, o - segs[lo].length);
      assert TotalLength(segs, lo, k) == segs[lo].length + TotalLength(segs, lo + 1, k);
    }
  }

  lemma InClipIf(segs: seq<Segment>, start: real, end: real, lo: nat, hi: nat, k: nat, t: real)
    requires Recorded(segs) && lo <= k < hi <= |segs| && start <= t < end && ReachedIn(segs, lo, k, start, t)
    ensures InClip(segs, lo, hi, start, end, t)
  {
    OffsetShows(segs, lo, hi, k, t);
    hide Shown, TotalLength, Recorded;
    var seek, o := Seek(start, segs[lo].ts), TotalLength(segs, lo, k) + (t - segs[k].ts);
    var x := o - seek;
    assert seek + x == o;
    assert 0.0 <= x < end - start && HasFootage(segs, lo, hi, start, x) && ClipAt(segs, lo, hi, start, x) == t;
  }

  /** Unless the window begins in a gap, every filmed moment of it is reached. */
  lemma FilmedIsReached(segs: seq<Segment>, start: real, end: real, lo: nat, hi: nat, t: real)
    requires Recorded(segs) && start <= t < end && Chosen(segs, start, end, lo, hi)
    requires start < FootageEnd(segs, lo)
    ensures Reached(segs, lo, hi, start, t) <==> Filmed(segs, 0, |segs|, t)
  {
    if Filmed(segs, 0, |segs|, t) {
      var k :| 0 <= k < |segs| && segs[k].ts <= t < FootageEnd(segs, k);
      assert FootageEnd(segs, k) <= SegEnd(segs, k);
      ChosenOverlap(segs, start, end, lo, hi, k);
      if lo < k {
        LengthsPositive(segs, lo + 1, k);
        assert TotalLength(segs, lo, k) >= segs[lo].length >= Seek(start, segs[lo].ts);
      } else {
        assert TotalLength(segs, lo, lo) == 0.0;
        assert segs[lo].length > 0.0;
      }
      assert ReachedIn(segs, lo, k, start, t);
    }
  }

  /**
   Main result, end to end: the clip has every moment of the padded episode up to the post-roll if and only if
   all of it was filmed and the seek does not skip its beginning.
   */
  lemma ClipShowsEpisode(entries: seq<Entry>, breachMs: int, episodeMs: int, prePad: int, postRoll: real, maxSec: int,
                         delay: real, lo: nat, hi: nat)
    requires episodeMs <= breachMs && 0.0 <= delay <= 2.0
    requires (breachMs - episodeMs) as real / 1000.0 + prePad as real + postRoll + 2.0 <= maxSec as real
    requires var from, to := episodeMs as real / 1000.0 - prePad as real, breachMs as real / 1000.0 + postRoll;
      from < to
    requires var cut := breachMs as real / 1000.0 + postRoll + delay;
      var start := cut + ComputeClipWindow(Some(breachMs), Some(episodeMs), prePad, postRoll, maxSec).0 as real;
      Recorded(Library(entries)) && Chosen(Library(entries), start, cut, lo, hi)
    ensures var cut := breachMs as real / 1000.0 + postRoll + delay;
      var start := cut + ComputeClipWindow(Some(breachMs), Some(episodeMs), prePad, postRoll, maxSec).0 as real;
      var from, to := episodeMs as real / 1000.0 - prePad as real, breachMs as real / 1000.0 + postRoll;
      var segs := Library(entries);
      (forall t: real :: from <= t < to ==> InClip(segs, lo, hi, start, cut, t))
        <==> (forall t: real :: from <= t < to ==> Filmed(segs, 0, |segs|, t)) && Reached(segs, lo, hi, start, from)
  {
    WindowCoversEpisode(breachMs, episodeMs, prePad, postRoll, maxSec, delay);
    var segs := Library(entries);
    var cut := breachMs as real / 1000.0 + postRoll + delay;
    var start := cut + ComputeClipWindow(Some(breachMs), Some(episodeMs), prePad, postRoll, maxSec).0 as real;
    var from, to := episodeMs as real / 1000.0 - prePad as real, breachMs as real / 1000.0 + postRoll;
    assert start <= from < to <= cut;
    hide ComputeClipWindow, WantedSeconds, PreSeconds, Library;
    StretchInClip(segs, start, cut, lo, hi, from, to);
  }

  lemma StretchInClip(segs: seq<Segment>, start: real, end: real, lo: nat, hi: nat, from: real, to: real)
    requires Recorded(segs) && start <= from < to <= end && Chosen(segs, start, end, lo, hi)
    ensures (forall t: real :: from <= t < to ==> InClip(segs, lo, hi, start, end, t))
      <==> (forall t: real :: from <= t < to ==> Filmed(segs, 0, |segs|, t)) && Reached(segs, lo, hi, start, from)
  {
    assert lo < hi <= |segs|;
    hide InClip, Filmed, Reached, Recorded, Chosen;
    forall t: real | from <= t < to
      ensures InClip(segs, lo, hi, start, end, t) <==> Reached(segs, lo, hi, start, t)
      ensures Reached(segs, lo, hi, start, t) ==> Filmed(segs, 0, |segs|, t)
      ensures Reached(segs, lo, hi, start, from) && Filmed(segs, 0, |segs|, t) ==> Reached(segs, lo, hi, start, t)
    {
      ClipShowsMoment(segs, start, end, lo, hi, t);
      ReachedLater(segs, start, end, lo, hi, from, t);
    }
  }

  lemma ReachedLater(segs: seq<Segment>, start: real, end: real, lo: nat, hi: nat, from: real, t: real)
    requires Recorded(segs) && Chosen(segs, start, end, lo, hi) && start <= from <= t < end
    ensures Reached(segs, lo, hi, start, t) ==> Filmed(segs, 0, |segs|, t)
    ensures Reached(segs, lo, hi, start, from) && Filmed(segs, 0, |segs|, t) ==> Reached(segs, lo, hi, start, t)
  {
    if Reached(segs, lo, hi, start, from) && Filmed(segs, 0, |segs|, t) {
      var j :| lo <= j < hi && ReachedIn(segs, lo, j, start, from);
      var k :| 0 <= k < |segs| && segs[k].ts <= t < FootageEnd(segs, k);
      FilmedIsChosen(segs, start, end, lo, hi, k, t);
      hide Recorded, Chosen, ReachedIn;
      ReachedInLater(segs, lo, hi, start, j, k, from, t);
    }
  }

  lemma FilmedIsChosen(segs: seq<Segment>, start: real, end: real, lo: nat, hi: nat, k: nat, t: real)
    requires Recorded(segs) && Chosen(segs, start, end, lo, hi) && start <= t < end
    requires k < |segs| && segs[k].ts <= t < FootageEnd(segs, k)
    ensures lo <= k < hi
  {
    assert FootageEnd(segs, k) <= SegEnd(segs, k);
    hide Recorded, Chosen;
    ChosenOverlap(segs, start, end, lo, hi, k);
  }

  lemma ReachedInLater(segs: seq<Segment>, lo: nat, hi: nat, start: real, j: nat, k: nat, from: real, t: real)
    requires Recorded(segs) && lo <= j < hi <= |segs| && lo <= k < hi && from <= t
    requires ReachedIn(segs, lo, j, start, from) && segs[k].ts <= t < FootageEnd(segs, k)
    ensures ReachedIn(segs, lo, k, start, t)
  {
    if j < k {
      hide Recorded;
      LengthsSplit(segs, lo, j, k);
      LengthsSplit(segs, j, j + 1, k);
      LengthsPositive(segs, j + 1, k);
      assert TotalLength(segs, j, j + 1) == segs[j].length + TotalLength(segs, j + 1, j + 1);
      hide TotalLength;
    } else if k < j {
      TsGrows(segs, k, j);
      assert false;
    }
  }

  /**
   A window that begins in a gap: ten seconds of footage from 0, a pause, footage again from 20. The window
   [15, 25) opens with second 25, so the five filmed seconds it asks for are not in the clip.
   */
  lemma GapLosesFootage(a: string, b: string)
    ensures var segs := [Segment(0.0, a, 10.0), Segment(20.0, b, 60.0)];
      && Recorded(segs) && Chosen(segs, 15.0, 25.0, 0, 2)
      && HasFootage(segs, 0, 2, 15.0, 0.0) && ClipAt(segs, 0, 2, 15.0, 0.0) == 25.0
      && Filmed(segs, 0, 2, 20.0) && !InClip(segs, 0, 2, 15.0, 25.0, 20.0)
  {
    var segs := [Segment(0.0, a, 10.0), Segment(20.0, b, 60.0)];
    assert Picked(segs, 15.0, 25.0, 1) == [0] && Picked(segs, 15.0, 25.0, 2) == [0, 1] == Range(0, 2);
    assert TotalLength(segs, 2, 2) == 0.0 && TotalLength(segs, 1, 2) == 60.0 && TotalLength(segs, 0, 2) == 70.0;
    assert Shown(segs, 0, 2, 15.0) == Shown(segs, 1, 2, 5.0) == 25.0;
    assert segs[1].ts <= 20.0 < FootageEnd(segs, 1);
    assert TotalLength(segs, 0, 1) == 10.0;
    ClipShowsMoment(segs, 15.0, 25.0, 0, 2, 20.0);
  }
}
