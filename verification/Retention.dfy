/** The clip section of the retention sweep (services/retention.py): files first, rows second,
    over sweeps whose unlinks may fail and whose transactions may roll back. */
module Retention {
  import opened Options
  import Sorting
  import opened Sequences

  const CLIP_BATCH := 200

  /** fileDeletedAt is set once the file is gone and the row is kept for its alerts. */
  datatype Clip = Clip(createdAt: real, storagePath: string, fileDeletedAt: Option<real>)

  /** The clips table, the files on disk, and the clips that alerts refer to. */
  datatype Archive = Archive(rows: map<int, Clip>, files: set<string>, alerted: set<int>)

  function RetentionCutoff(now: real, days: int): Option<real> {
    if days <= 0 then None else Some(now - 86400.0 * days as real)
  }

  /** Kept forever for zero days or fewer; else whole days of 24 hours. */
  lemma CutoffExactly(now: real, days: int)
    ensures RetentionCutoff(now, days).None? <==> days <= 0
    ensures days > 0 ==> now - RetentionCutoff(now, days).value == (24 * 60 * 60 * days) as real
  {
  }

  datatype FileDeleteResult = Deleted | Missing | Failed

  datatype ClipAction = DeleteRow | KeepRowMarkDeleted | RetryLater

  function PlanClipAction(hasAlerts: bool, fileResult: FileDeleteResult): ClipAction {
    if fileResult == Failed then RetryLater
    else if hasAlerts then KeepRowMarkDeleted
    else DeleteRow
  }

  /** `failing` holds the paths whose unlink raises anything but "not found" during this sweep. */
  function DeleteClipFile(files: set<string>, path: string, failing: set<string>): (FileDeleteResult, set<string>) {
    if path in failing then (Failed, files)
    else if path in files then (Deleted, files - {path})
    else (Missing, files)
  }

  // ---- What a sweep is given and what it does ----

  function Expired(rows: map<int, Clip>, cutoff: real): set<int> {
    set id | id in rows && rows[id].createdAt < cutoff && rows[id].fileDeletedAt.None?
  }

  ghost predicate Distinct(batch: seq<int>) {
    forall i, j :: 0 <= i < j < |batch| ==> batch[i] != batch[j]
  }

  /** The query's answer: up to CLIP_BATCH expired clips, oldest first (ties in any order). */
  ghost predicate IsBatch(rows: map<int, Clip>, cutoff: real, batch: seq<int>) {
    var expired := Expired(rows, cutoff);
    && Distinct(batch)
    && (forall id :: id in batch ==> id in expired)
    && |batch| == (if |expired| < CLIP_BATCH then |expired| else CLIP_BATCH)
    && (forall i, j :: 0 <= i < j < |batch| && batch[i] in rows && batch[j] in rows ==>
          rows[batch[i]].createdAt <= rows[batch[j]].createdAt)
    && (forall id, other :: id in expired && id !in batch && other in expired && other in batch ==>
          rows[other].createdAt <= rows[id].createdAt)
  }

  /** One sweep: its inputs, and how many clips it had handled when its transaction broke, if it did. */
  datatype Sweep = Sweep(now: real, days: int, batch: seq<int>, failing: set<string>, breaksAfter: Option<nat>)

  ghost predicate CanSweep(s: Archive, w: Sweep) {
    var cutoff := RetentionCutoff(w.now, w.days);
    cutoff.Some? ==>
      && IsBatch(s.rows, cutoff.value, w.batch)
      && (w.breaksAfter.Some? ==> w.breaksAfter.value <= |w.batch|)
  }

  /** The file of this clip is gone after the clip was handled. */
  predicate Clears(rows: map<int, Clip>, handled: seq<int>, failing: set<string>, id: int) {
    id in rows && id in handled && rows[id].storagePath !in failing
  }

  function ClearedPaths(rows: map<int, Clip>, handled: seq<int>, failing: set<string>): set<string> {
    set id | id in handled && Clears(rows, handled, failing, id) :: rows[id].storagePath
  }

  /** Cleared rows go, except that those with alerts stay and are stamped. */
  function ClearedRows(s: Archive, handled: seq<int>, failing: set<string>, now: real): map<int, Clip> {
    map id | id in s.rows && (Clears(s.rows, handled, failing, id) ==> id in s.alerted) ::
      if Clears(s.rows, handled, failing, id) then s.rows[id].(fileDeletedAt := Some(now)) else s.rows[id]
  }

  /** A sweep as a whole: unlinks last even when the row changes roll back. */
  function Swept(s: Archive, w: Sweep): Archive {
    if RetentionCutoff(w.now, w.days).None? then s
    else if w.breaksAfter.Some? then
      var handled := if w.breaksAfter.value <= |w.batch| then w.batch[..w.breaksAfter.value] else w.batch;
      s.(files := s.files - ClearedPaths(s.rows, handled, w.failing))
    else
      Archive(ClearedRows(s, w.batch, w.failing, w.now), s.files - ClearedPaths(s.rows, w.batch, w.failing), s.alerted)
  }

  datatype Summary = Summary(filesDeleted: nat, rowsDeleted: nat, rowsKeptForAlerts: nat, filesRetry: nat)

  /** One clip's share: its file goes unless the unlink fails … */
  function FilesLeft(files: set<string>, path: string, failing: set<string>): set<string> {
    if path in failing then files else files - {path}
  }

  /** … and then its row goes too, or is stamped when alerts need it. */
  function RowsLeft(rows: map<int, Clip>, id: int, failed: bool, hasAlerts: bool, now: real): map<int, Clip>
    requires id in rows
  {
    if failed then rows
    else if hasAlerts then rows[id := rows[id].(fileDeletedAt := Some(now))]
    else rows - {id}
  }

  lemma RowsLeftCount(rows: map<int, Clip>, id: int, failed: bool, hasAlerts: bool, now: real)
    requires id in rows
    ensures |RowsLeft(rows, id, failed, hasAlerts, now)| == |rows| - (if failed || hasAlerts then 0 else 1)
  {
  }

  /** The loop body: the file first, then the row as planned, in the session's pending changes. */
  method HandleClip(files: set<string>, pending: map<int, Clip>, id: int, path: string, referenced: set<int>, w: Sweep,
      summary: Summary)
    returns (left: set<string>, rest: map<int, Clip>, counted: Summary)
    requires id in pending
    ensures left == FilesLeft(files, path, w.failing)
    ensures rest == RowsLeft(pending, id, path in w.failing, id in referenced, w.now)
    ensures counted.filesDeleted == summary.filesDeleted + |files| - |left|
    ensures counted.rowsDeleted == summary.rowsDeleted + |pending| - |rest|
    ensures counted.rowsDeleted + counted.rowsKeptForAlerts + counted.filesRetry
         == summary.rowsDeleted + summary.rowsKeptForAlerts + summary.filesRetry + 1
  {
    RowsLeftCount(pending, id, path in w.failing, id in referenced, w.now);
    rest, counted := pending, summary;
    var outcome := DeleteClipFile(files, path, w.failing);
    var fileResult := outcome.0;
    left := outcome.1;
    if fileResult == Deleted {
      counted := counted.(filesDeleted := counted.filesDeleted + 1);
    }
    var action := PlanClipAction(id in referenced, fileResult);
    if action == DeleteRow {
      rest := pending - {id};
      counted := counted.(rowsDeleted := counted.rowsDeleted + 1);
    } else if action == KeepRowMarkDeleted {
      rest := pending[id := pending[id].(fileDeletedAt := Some(w.now))];
      counted := counted.(rowsKeptForAlerts := counted.rowsKeptForAlerts + 1);
    } else {
      counted := counted.(filesRetry := counted.filesRetry + 1);
    }
  }

  /** The loop over the selected clips, up to the end or to where the session breaks. */
  method HandleClips(s: Archive, w: Sweep, stop: nat, referenced: set<int>)
    returns (files: set<string>, pending: map<int, Clip>, summary: Summary)
    requires CanHandle(s, w, stop, referenced)
    ensures files == s.files - ClearedPaths(s.rows, w.batch[..stop], w.failing)
    ensures pending == ClearedRows(s, w.batch[..stop], w.failing, w.now)
    ensures summary.filesDeleted == |s.files| - |files| && summary.rowsDeleted == |s.rows| - |pending|
    ensures summary.rowsDeleted + summary.rowsKeptForAlerts + summary.filesRetry == stop
  {
    files, pending, summary := s.files, s.rows, Summary(0, 0, 0, 0);
    NothingHandled(s, w);
    assert stop <= |w.batch|;
    hide ClearedRows, ClearedPaths, CanHandle, FilesLeft, RowsLeft;
    for i := 0 to stop
      invariant files == s.files - ClearedPaths(s.rows, w.batch[..i], w.failing)
      invariant pending == ClearedRows(s, w.batch[..i], w.failing, w.now)
      invariant summary.filesDeleted == |s.files| - |files|
      invariant summary.rowsDeleted == |s.rows| - |pending|
      invariant summary.rowsDeleted + summary.rowsKeptForAlerts + summary.filesRetry == i
    {
      OneMoreClip(s, w, stop, referenced, i);
      var id := w.batch[i];
      files, pending, summary := HandleClip(files, pending, id, s.rows[id].storagePath, referenced, w, summary);
    }
  }

  class RetentionSweeper {
    var rows: map<int, Clip>
    var files: set<string>
    var alerted: set<int>

    function State(): Archive
      reads this
    {
      Archive(rows, files, alerted)
    }

    method SweepOnce(w: Sweep) returns (summary: Summary)
      requires CanSweep(State(), w)
      modifies this
      ensures State() == Swept(old(State()), w)
      ensures summary.filesDeleted == old(|files|) - |files|
      ensures w.breaksAfter.None? ==> summary.rowsDeleted == old(|rows|) - |rows|
      ensures w.breaksAfter.None? && RetentionCutoff(w.now, w.days).Some?
        ==> summary.rowsDeleted + summary.rowsKeptForAlerts + summary.filesRetry == |w.batch|
    {
      hide Clears, ClearedPaths, ClearedRows;
      summary := Summary(0, 0, 0, 0);
      var cutoff := RetentionCutoff(w.now, w.days);
      if cutoff.None? {
        return;
      }
      var referenced := set id | id in w.batch && id in alerted;
      var stop := if w.breaksAfter.Some? then w.breaksAfter.value else |w.batch|;
      var left, pending;
      left, pending, summary := HandleClips(State(), w, stop, referenced);
      files := left;
      if w.breaksAfter.None? {
        assert w.batch[..stop] == w.batch;
        rows := pending;
      }
    }
  }

  /** The selected clips are stored, live and listed once; `referenced` says which of them have alerts. */
  ghost predicate CanHandle(s: Archive, w: Sweep, stop: nat, referenced: set<int>) {
    && stop <= |w.batch| && Distinct(w.batch)
    && forall id :: id in w.batch ==>
      id in s.rows && s.rows[id].fileDeletedAt.None? && (id in referenced <==> id in s.alerted)
  }

  lemma OneMoreClip(s: Archive, w: Sweep, stop: nat, referenced: set<int>, i: nat)
    requires CanHandle(s, w, stop, referenced) && i < stop
    ensures var id, fewer, more := w.batch[i], w.batch[..i], w.batch[..i + 1];
      var before := ClearedRows(s, fewer, w.failing, w.now);
      && id in s.rows && id in before
      && s.files - ClearedPaths(s.rows, more, w.failing)
         == FilesLeft(s.files - ClearedPaths(s.rows, fewer, w.failing), s.rows[id].storagePath, w.failing)
      && ClearedRows(s, more, w.failing, w.now)
         == RowsLeft(before, id, s.rows[id].storagePath in w.failing, id in referenced, w.now)
  {
  }

  lemma NothingHandled(s: Archive, w: Sweep)
    ensures ClearedPaths(s.rows, w.batch[..0], w.failing) == {}
    ensures ClearedRows(s, w.batch[..0], w.failing, w.now) == s.rows
  {
  }

  // ---- Every reachable state ----

  /** Paths are unique, no alert has lost its clip, and a row marked deleted has no file. */
  ghost predicate Inv(s: Archive) {
    && (forall i, j :: i in s.rows && j in s.rows && i != j ==> s.rows[i].storagePath != s.rows[j].storagePath)
    && s.alerted <= s.rows.Keys
    && (forall id :: id in s.rows && s.rows[id].fileDeletedAt.Some? ==> s.rows[id].storagePath !in s.files)
  }

  /**
   Beside sweeps, a file is written under a fresh name, its row follows in a transaction of its own or never, and
   alerts are raised on stored clips.
   */
  datatype Step =
    | SweepStep(sweep: Sweep)
    | FileWritten(path: string)
    | RowStored(id: int, createdAt: real, path: string)
    | AlertRaised(id: int)

  ghost predicate Unclaimed(s: Archive, path: string) {
    forall k :: k in s.rows ==> s.rows[k].storagePath != path
  }

  ghost predicate CanStep(s: Archive, e: Step) {
    match e
    case SweepStep(w) => CanSweep(s, w)
    case FileWritten(path) => Unclaimed(s, path)
    case RowStored(id, createdAt, path) => id !in s.rows && Unclaimed(s, path)
    case AlertRaised(id) => id in s.rows
  }

  function After(s: Archive, e: Step): Archive {
    match e
    case SweepStep(w) => Swept(s, w)
    case FileWritten(path) => s.(files := s.files + {path})
    case RowStored(id, createdAt, path) => s.(rows := s.rows[id := Clip(createdAt, path, None)])
    case AlertRaised(id) => s.(alerted := s.alerted + {id})
  }

  function Run(s: Archive, steps: seq<Step>): Archive {
    if steps == [] then s else After(Run(s, steps[..|steps| - 1]), steps[|steps| - 1])
  }

  ghost predicate CanRun(s: Archive, steps: seq<Step>) {
    forall i :: 0 <= i < |steps| ==> CanStep(Run(s, steps[..i]), steps[i])
  }

  lemma CanRunFront(s: Archive, steps: seq<Step>)
    requires CanRun(s, steps) && steps != []
    ensures CanRun(s, steps[..|steps| - 1])
    ensures CanStep(Run(s, steps[..|steps| - 1]), steps[|steps| - 1])
  {
    var front := steps[..|steps| - 1];
    forall i | 0 <= i < |front| ensures CanStep(Run(s, front[..i]), front[i]) {
      assert front[..i] == steps[..i];
    }
  }

  /** The clips a sweep has handled when it ends. */
  function Handled(w: Sweep): seq<int> {
    if w.breaksAfter.Some? && w.breaksAfter.value <= |w.batch| then w.batch[..w.breaksAfter.value] else w.batch
  }

  lemma HandledAreLive(s: Archive, w: Sweep, id: int)
    requires CanSweep(s, w) && RetentionCutoff(w.now, w.days).Some? && id in Handled(w)
    ensures id in w.batch && id in s.rows && s.rows[id].fileDeletedAt.None?
  {
  }

  lemma SweepKeepsInv(s: Archive, w: Sweep)
    requires Inv(s) && CanSweep(s, w)
    ensures Inv(Swept(s, w))
  {
    if RetentionCutoff(w.now, w.days).Some? {
      var next := Swept(s, w);
      hide IsBatch;
      forall id | id in next.rows && next.rows[id].fileDeletedAt.Some?
        ensures next.rows[id].storagePath !in next.files
      {
        if s.rows[id].fileDeletedAt.None? {
          assert Clears(s.rows, w.batch, w.failing, id);
        }
      }
    }
  }

  /** Whatever fails or rolls back: no alert loses its clip, and no row claims a deleted file that is there. */
  lemma {:induction false} RunKeepsInv(s: Archive, steps: seq<Step>)
    requires Inv(s) && CanRun(s, steps)
    ensures Inv(Run(s, steps))
  {
    if steps != [] {
      CanRunFront(s, steps);
      var front, e := steps[..|steps| - 1], steps[|steps| - 1];
      RunKeepsInv(s, front);
      var mid := Run(s, front);
      hide Run, CanRun;
      if e.SweepStep? {
        SweepKeepsInv(mid, e.sweep);
      }
    }
  }

  /** A row marked deleted has no file. */
  lemma MarkedHasNoFile(s: Archive, steps: seq<Step>, id: int)
    requires Inv(s) && CanRun(s, steps) && id in Run(s, steps).rows && Run(s, steps).rows[id].fileDeletedAt.Some?
    ensures Run(s, steps).rows[id].storagePath !in Run(s, steps).files
  {
    RunKeepsInv(s, steps);
  }

  /** A sweep takes away a row exactly when it commits, has it in its batch, unlinks its file and no alert needs it. */
  lemma RowGoesExactly(s: Archive, w: Sweep, id: int)
    requires CanSweep(s, w) && id in s.rows
    ensures id !in Swept(s, w).rows <==>
      (RetentionCutoff(w.now, w.days).Some? && w.breaksAfter.None? && id in w.batch
        && s.rows[id].storagePath !in w.failing && id !in s.alerted)
  {
  }

  // ---- Files without a row ----

  ghost predicate HasRow(s: Archive, f: string) {
    exists id :: id in s.rows && s.rows[id].storagePath == f && s.rows[id].fileDeletedAt.None?
  }

  /** Files that no row expects. */
  ghost function Orphans(s: Archive): set<string> {
    set f | f in s.files && !HasRow(s, f)
  }

  lemma SweepKeepsOrphans(s: Archive, w: Sweep)
    requires Inv(s) && CanSweep(s, w)
    ensures Orphans(Swept(s, w)) == Orphans(s)
  {
    if RetentionCutoff(w.now, w.days).Some? {
      var next, handled := Swept(s, w), Handled(w);
      forall f | f in Orphans(s) ensures f in Orphans(next) {
        OrphanStays(s, w, f);
      }
      forall f | f in Orphans(next) ensures f in Orphans(s) {
        if HasRow(s, f) {
          FileKeepsRow(s, w, f);
        }
      }
    }
  }

  lemma OrphanStays(s: Archive, w: Sweep, f: string)
    requires Inv(s) && CanSweep(s, w) && f in Orphans(s)
    ensures f in Orphans(Swept(s, w))
  {
    if RetentionCutoff(w.now, w.days).Some? {
      forall id | id in Handled(w)
        ensures id in s.rows && s.rows[id].storagePath != f
      {
        HandledAreLive(s, w, id);
      }
      forall id | id in Swept(s, w).rows && Swept(s, w).rows[id].fileDeletedAt.None?
        ensures id in s.rows && Swept(s, w).rows[id] == s.rows[id]
      {
      }
    }
  }

  /** A file that is there after a sweep keeps the row it had. */
  lemma FileKeepsRow(s: Archive, w: Sweep, f: string)
    requires Inv(s) && CanSweep(s, w) && HasRow(s, f) && f in Swept(s, w).files
    ensures HasRow(Swept(s, w), f)
  {
    var id :| id in s.rows && s.rows[id].storagePath == f && s.rows[id].fileDeletedAt.None?;
    var next := Swept(s, w);
    assert RetentionCutoff(w.now, w.days).Some? ==> !Clears(s.rows, Handled(w), w.failing, id);
    assert id in next.rows && next.rows[id] == s.rows[id];
  }

  /** Written without a row, and not given one since. */
  function Rowless(known: set<string>, steps: seq<Step>): set<string> {
    if steps == [] then known
    else
      var before := Rowless(known, steps[..|steps| - 1]);
      match steps[|steps| - 1]
      case FileWritten(path) => before + {path}
      case RowStored(_, _, path) => before - {path}
      case _ => before
  }

  lemma StepOrphans(s: Archive, e: Step, known: set<string>)
    requires Inv(s) && CanStep(s, e) && Orphans(s) == known
    ensures Orphans(After(s, e)) == match e
      case FileWritten(path) => known + {path}
      case RowStored(_, _, path) => known - {path}
      case _ => known
  {
    var next := After(s, e);
    match e
    case SweepStep(w) => SweepKeepsOrphans(s, w);
    case FileWritten(path) =>
      forall f ensures HasRow(next, f) <==> HasRow(s, f) {
      }
    case RowStored(id, createdAt, path) =>
      forall f ensures HasRow(next, f) <==> HasRow(s, f) || f == path {
        if HasRow(s, f) {
          var k :| k in s.rows && s.rows[k].storagePath == f && s.rows[k].fileDeletedAt.None?;
          assert next.rows[k] == s.rows[k];
        }
        if f == path {
          assert next.rows[id].storagePath == f;
        }
      }
    case AlertRaised(id) =>
      forall f ensures HasRow(next, f) <==> HasRow(s, f) {
      }
  }

  /**
   Over any run, the files without a row are exactly those written without one: no sweep makes one, so a file that
   had its row and is still there has it still, and no sweep ever removes one.
   */
  lemma {:induction false} RunOrphans(s: Archive, steps: seq<Step>)
    requires Inv(s) && CanRun(s, steps)
    ensures Orphans(Run(s, steps)) == Rowless(Orphans(s), steps)
  {
    if steps != [] {
      CanRunFront(s, steps);
      var front, e := steps[..|steps| - 1], steps[|steps| - 1];
      RunOrphans(s, front);
      RunKeepsInv(s, front);
      var mid := Run(s, front);
      hide Orphans, Inv, CanRun;
      StepOrphans(mid, e, Rowless(Orphans(s), front));
    }
  }

  // ---- Backlogs ----

  function Members(batch: seq<int>): set<int> {
    set id | id in batch
  }

  lemma {:induction false} DistinctCount(batch: seq<int>)
    requires Distinct(batch)
    ensures |Members(batch)| == |batch|
  {
    if batch != [] {
      var front, last := batch[..|batch| - 1], batch[|batch| - 1];
      DistinctCount(front);
      assert batch == front + [last];
      assert Members(batch) == Members(front) + {last};
      assert last !in front;
    }
  }

  lemma SubsetCount(a: set<int>, b: set<int>)
    requires a <= b
    ensures |b - a| == |b| - |a|
  {
  }

  /** Live clips created at a or before. */
  function Due(rows: map<int, Clip>, a: real): set<int> {
    set id | id in rows && rows[id].createdAt <= a && rows[id].fileDeletedAt.None?
  }

  /** The clips of `stuck` among them, and the others. */
  function DueStuck(rows: map<int, Clip>, stuck: set<int>, a: real): set<int> {
    Due(rows, a) * stuck
  }

  function DueOthers(rows: map<int, Clip>, stuck: set<int>, a: real): set<int> {
    Due(rows, a) - stuck
  }

  /** The sweep commits, looks past a, and of the clips due at a exactly those in `stuck` fail to unlink. */
  ghost predicate Effective(rows: map<int, Clip>, w: Sweep, stuck: set<int>, a: real) {
    && w.breaksAfter.None? && RetentionCutoff(w.now, w.days).Some? && a < RetentionCutoff(w.now, w.days).value
    && forall id :: id in Due(rows, a) ==> (rows[id].storagePath in w.failing <==> id in stuck)
  }

  lemma SweptDue(s: Archive, w: Sweep, stuck: set<int>, a: real)
    requires CanSweep(s, w) && Effective(s.rows, w, stuck, a)
    ensures DueOthers(Swept(s, w).rows, stuck, a) == DueOthers(s.rows, stuck, a) - Members(w.batch)
    ensures DueStuck(Swept(s, w).rows, stuck, a) == DueStuck(s.rows, stuck, a)
  {
  }

  /** A batch holds every due clip, or 200 of them. */
  lemma BatchTakesOldest(rows: map<int, Clip>, cutoff: real, batch: seq<int>, a: real)
    requires IsBatch(rows, cutoff, batch) && a < cutoff
    ensures Due(rows, a) <= Members(batch) || (Members(batch) <= Due(rows, a) && |Members(batch)| == CLIP_BATCH)
  {
    DistinctCount(batch);
    var all, taken := Expired(rows, cutoff), Members(batch);
    forall id | id in taken ensures id in all {
      assert id in batch;
    }
    SubsetCount(taken, all);
    if |taken| != CLIP_BATCH {
      assert all - taken == {};
    }
    forall id | id in Due(rows, a) ensures id in all && (id in taken || taken <= Due(rows, a)) {
      if id !in batch {
        SparedIsYounger(rows, cutoff, batch, a, id);
      }
    }
  }

  lemma SparedIsYounger(rows: map<int, Clip>, cutoff: real, batch: seq<int>, a: real, spared: int)
    requires IsBatch(rows, cutoff, batch) && a < cutoff && spared in Due(rows, a) && spared !in batch
    ensures Members(batch) <= Due(rows, a)
  {
    forall id | id in batch ensures id in Due(rows, a) {
      assert id in Expired(rows, cutoff) && spared in Expired(rows, cutoff);
      assert rows[id].createdAt <= rows[spared].createdAt;
    }
  }

  /** With f stuck clips due, an effective sweep takes 200 - f of the others, or all there are. */
  lemma SweepDrains(s: Archive, w: Sweep, stuck: set<int>, a: real)
    requires CanSweep(s, w) && Effective(s.rows, w, stuck, a)
    ensures var f, n := |DueStuck(s.rows, stuck, a)|, |DueOthers(s.rows, stuck, a)|;
      var left := |DueOthers(Swept(s, w).rows, stuck, a)|;
      left == 0 || left + CLIP_BATCH <= n + f
  {
    SweptDue(s, w, stuck, a);
    BatchTakesOldest(s.rows, RetentionCutoff(w.now, w.days).value, w.batch, a);
    var due, taken := Due(s.rows, a), Members(w.batch);
    var stuckDue, others := DueStuck(s.rows, stuck, a), DueOthers(s.rows, stuck, a);
    hide Swept, Effective, IsBatch, Due;
    if due <= taken {
      assert others - taken == {};
    } else {
      SubsetCount(taken, due);
      assert due == stuckDue + others && stuckDue !! others;
      assert |due| == |stuckDue| + |others|;
      SubsetCount2(others - taken, due - taken);
    }
  }

  lemma SubsetCount2(a: set<int>, b: set<int>)
    requires a <= b
    ensures |a| <= |b|
  {
    SubsetCount(a, b);
  }

  function Sweeps(steps: seq<Step>): nat {
    if steps == [] then 0 else Sweeps(steps[..|steps| - 1]) + (if steps[|steps| - 1].SweepStep? then 1 else 0)
  }

  /** What one step of such a run may be: an effective sweep, or a row not due at a. */
  ghost predicate FairStep(s: Archive, e: Step, stuck: set<int>, a: real) {
    match e
    case SweepStep(w) => Effective(s.rows, w, stuck, a)
    case RowStored(_, createdAt, _) => createdAt > a
    case _ => true
  }

  ghost predicate FairRun(s: Archive, steps: seq<Step>, stuck: set<int>, a: real) {
    forall i :: 0 <= i < |steps| ==> FairStep(Run(s, steps[..i]), steps[i], stuck, a)
  }

  lemma FairRunFront(s: Archive, steps: seq<Step>, stuck: set<int>, a: real)
    requires FairRun(s, steps, stuck, a) && steps != []
    ensures FairRun(s, steps[..|steps| - 1], stuck, a)
    ensures FairStep(Run(s, steps[..|steps| - 1]), steps[|steps| - 1], stuck, a)
  {
    var front := steps[..|steps| - 1];
    forall i | 0 <= i < |front| ensures FairStep(Run(s, front[..i]), front[i], stuck, a) {
      assert front[..i] == steps[..i];
    }
  }

  lemma StepDrains(s: Archive, e: Step, stuck: set<int>, a: real)
    requires CanStep(s, e) && FairStep(s, e, stuck, a)
    ensures DueStuck(After(s, e).rows, stuck, a) == DueStuck(s.rows, stuck, a)
    ensures DueOthers(After(s, e).rows, stuck, a) <= DueOthers(s.rows, stuck, a)
    ensures var f, n := |DueStuck(s.rows, stuck, a)|, |DueOthers(s.rows, stuck, a)|;
      var left := |DueOthers(After(s, e).rows, stuck, a)|;
      if e.SweepStep? then left == 0 || left + CLIP_BATCH <= n + f else left == n
  {
    match e
    case SweepStep(w) =>
      SweptDue(s, w, stuck, a);
      SweepDrains(s, w, stuck, a);
    case RowStored(id, createdAt, path) =>
      assert Due(After(s, e).rows, a) == Due(s.rows, a);
    case _ =>
  }

  lemma OneMoreSweep(f: nat, n: nat, k: nat, before: nat, left: nat)
    requires f <= CLIP_BATCH && (before == 0 || before + (CLIP_BATCH - f) * k <= n)
    requires left <= before && (left == 0 || left + CLIP_BATCH <= before + f)
    ensures left == 0 || left + (CLIP_BATCH - f) * (k + 1) <= n
  {
  }

  /** What is left of n clips when f of a batch are stuck, after k sweeps. */
  ghost predicate Drained(f: nat, n: nat, k: nat, left: nat) {
    f <= CLIP_BATCH ==> left == 0 || left + (CLIP_BATCH - f) * k <= n
  }

  lemma NothingLeft(f: nat, n: nat, k: nat, left: nat)
    requires Drained(f, n, k, left) && f < CLIP_BATCH && k >= n
    ensures left == 0
  {
    TimesGrows(CLIP_BATCH - f, k);
  }

  lemma TimesGrows(m: nat, k: nat)
    requires m >= 1
    ensures m * k >= k
  {
    assert (m - 1) * k >= 0;
  }

  /** One step more: a sweep, or something that leaves the clips alone. */
  lemma StillDrained(f: nat, n: nat, k: nat, before: nat, left: nat, swept: bool)
    requires Drained(f, n, k, before) && left <= before
    requires if swept then left == 0 || left + CLIP_BATCH <= before + f else left == before
    ensures Drained(f, n, k + if swept then 1 else 0, left)
  {
    if swept && f <= CLIP_BATCH {
      OneMoreSweep(f, n, k, before, left);
    }
  }

  /**
   With f < 200 clips stuck among those due at a, n others are down to n - (200 - f) k after k effective sweeps: all
   of them are gone after ceil(n / (200 - f)).
   */
  lemma {:induction false} RunDrains(s: Archive, steps: seq<Step>, stuck: set<int>, a: real)
    requires CanRun(s, steps) && FairRun(s, steps, stuck, a)
    ensures DueStuck(Run(s, steps).rows, stuck, a) == DueStuck(s.rows, stuck, a)
    ensures DueOthers(Run(s, steps).rows, stuck, a) <= DueOthers(s.rows, stuck, a)
    ensures Drained(|DueStuck(s.rows, stuck, a)|, |DueOthers(s.rows, stuck, a)|, Sweeps(steps),
                    |DueOthers(Run(s, steps).rows, stuck, a)|)
  {
    hide *;
    if steps == [] {
      NoneDrained(s, steps, |DueStuck(s.rows, stuck, a)|, |DueOthers(s.rows, stuck, a)|);
    } else {
      var front, e := steps[..|steps| - 1], steps[|steps| - 1];
      var mid := Run(s, front);
      CanRunFront(s, steps);
      FairRunFront(s, steps, stuck, a);
      RunDrains(s, front, stuck, a);
      LastStep(s, steps);
      StepDrains(mid, e, stuck, a);
      SubsetCount2(DueOthers(After(mid, e).rows, stuck, a), DueOthers(mid.rows, stuck, a));
      StillDrained(|DueStuck(s.rows, stuck, a)|, |DueOthers(s.rows, stuck, a)|, Sweeps(front),
                   |DueOthers(mid.rows, stuck, a)|, |DueOthers(After(mid, e).rows, stuck, a)|, e.SweepStep?);
    }
  }

  lemma NoneDrained(s: Archive, steps: seq<Step>, f: nat, n: nat)
    requires steps == []
    ensures Run(s, steps) == s && Drained(f, n, Sweeps(steps), n)
  {
  }

  lemma LastStep(s: Archive, steps: seq<Step>)
    requires steps != []
    ensures var front, e := steps[..|steps| - 1], steps[|steps| - 1];
      Run(s, steps) == After(Run(s, front), e) && Sweeps(steps) == Sweeps(front) + if e.SweepStep? then 1 else 0
  {
    hide After;
  }

  /** A committed sweep changes no row exactly when every unlink of its batch fails. */
  lemma StuckExactly(s: Archive, w: Sweep)
    requires CanSweep(s, w) && RetentionCutoff(w.now, w.days).Some? && w.breaksAfter.None?
    ensures Swept(s, w).rows == s.rows
      <==> forall id :: id in w.batch && id in s.rows ==> s.rows[id].storagePath in w.failing
  {
  }

  /** At least a batch of clips older than `bound` are still live. */
  ghost predicate Blocked(s: Archive, stuck: set<int>, bound: real) {
    |stuck| >= CLIP_BATCH && forall id :: id in stuck ==> id in Expired(s.rows, bound)
  }

  /** While those fail to unlink, no sweep reaches a newer clip. */
  lemma BlockedSparesNewer(s: Archive, w: Sweep, stuck: set<int>, bound: real, id: int)
    requires CanSweep(s, w) && Blocked(s, stuck, bound) && RetentionCutoff(w.now, w.days).Some?
    requires id in s.rows && s.rows[id].createdAt >= bound
    ensures id !in w.batch
  {
    if id in w.batch {
      var taken := Members(w.batch);
      var all := Expired(s.rows, RetentionCutoff(w.now, w.days).value);
      DistinctCount(w.batch);
      assert id in all;
      forall k | k in stuck ensures k in taken {
        assert k in all;
      }
      SubsetCount(stuck + {id}, taken);
      assert false;
    }
  }

  ghost predicate SweepsFailOn(s: Archive, e: Step, stuck: set<int>) {
    e.SweepStep? ==> forall id :: id in stuck && id in s.rows ==> s.rows[id].storagePath in e.sweep.failing
  }

  ghost predicate FailingRun(s: Archive, steps: seq<Step>, stuck: set<int>) {
    forall i :: 0 <= i < |steps| ==> SweepsFailOn(Run(s, steps[..i]), steps[i], stuck)
  }

  /** 200 clips that never unlink keep every newer clip, row and file, for ever: no backlog drains past them. */
  lemma {:induction false} RunStarves(s: Archive, steps: seq<Step>, stuck: set<int>, bound: real, id: int)
    requires Inv(s) && CanRun(s, steps) && Blocked(s, stuck, bound) && FailingRun(s, steps, stuck)
    requires id in s.rows && s.rows[id].createdAt >= bound
    ensures var end := Run(s, steps);
      && Blocked(end, stuck, bound) && id in end.rows && end.rows[id] == s.rows[id]
      && (s.rows[id].storagePath in s.files ==> s.rows[id].storagePath in end.files)
  {
    if steps != [] {
      CanRunFront(s, steps);
      var n := |steps| - 1;
      var front, e := steps[..n], steps[n];
      forall i | 0 <= i < |front| ensures SweepsFailOn(Run(s, front[..i]), front[i], stuck) {
        assert front[..i] == steps[..i];
      }
      RunStarves(s, front, stuck, bound, id);
      RunKeepsInv(s, front);
      assert SweepsFailOn(Run(s, steps[..n]), e, stuck);
      StepStarves(Run(s, front), e, stuck, bound, id);
    }
  }

  lemma StepStarves(s: Archive, e: Step, stuck: set<int>, bound: real, id: int)
    requires Inv(s) && CanStep(s, e) && Blocked(s, stuck, bound) && SweepsFailOn(s, e, stuck)
    requires id in s.rows && s.rows[id].createdAt >= bound
    ensures var end := After(s, e);
      && Blocked(end, stuck, bound) && id in end.rows && end.rows[id] == s.rows[id]
      && (s.rows[id].storagePath in s.files ==> s.rows[id].storagePath in end.files)
  {
    if e.SweepStep? && RetentionCutoff(e.sweep.now, e.sweep.days).Some? {
      BlockedSparesNewer(s, e.sweep, stuck, bound, id);
    }
  }

  // ---- Exactly when a clip is taken ----

  /** Enough sweeps take the clip, whatever else happens, when of the clips due with it exactly `stuck` fail. */
  ghost predicate TakenIn(s: Archive, stuck: set<int>, id: int, a: real, k: nat) {
    forall steps: seq<Step> ::
      CanRun(s, steps) && FairRun(s, steps, stuck, a) && Sweeps(steps) >= k ==> id !in Due(Run(s, steps).rows, a)
  }

  ghost predicate EventuallyTaken(s: Archive, stuck: set<int>, id: int, a: real) {
    exists k: nat :: TakenIn(s, stuck, id, a, k)
  }

  lemma TakenWhenFewStuck(s: Archive, stuck: set<int>, id: int, a: real, steps: seq<Step>)
    requires id !in stuck && |DueStuck(s.rows, stuck, a)| < CLIP_BATCH
    requires CanRun(s, steps) && FairRun(s, steps, stuck, a) && Sweeps(steps) >= |DueOthers(s.rows, stuck, a)|
    ensures id !in Due(Run(s, steps).rows, a)
  {
    RunDrains(s, steps, stuck, a);
    var left := DueOthers(Run(s, steps).rows, stuck, a);
    NothingLeft(|DueStuck(s.rows, stuck, a)|, |DueOthers(s.rows, stuck, a)|, Sweeps(steps), |left|);
    assert left == {};
    assert id !in left;
  }

  lemma OldestFirst(ids: set<int>, key: int -> real) returns (sorted: seq<int>)
    ensures Enumerates(sorted, ids) && |sorted| == |ids| && Sorting.SortedBy(sorted, key)
  {
    var order := Enumeration(ids);
    sorted := Sorting.StableSort(order, key);
    Sorting.SortSorts(order, key);
    Sorting.SortDistinct(order, key);
    forall x ensures x in sorted <==> x in order {
      Sorting.SortMembers(order, key, x);
    }
    assert forall i :: 0 <= i < |sorted| ==> sorted[i] in order;
    EnumeratedSize(sorted, ids);
  }

  /** When 200 others are as old, the batch may pass over a clip. */
  lemma BatchSparing(rows: map<int, Clip>, cutoff: real, id: int, others: set<int>) returns (batch: seq<int>)
    requires id in Expired(rows, cutoff) && others <= Due(rows, rows[id].createdAt) - {id} && |others| >= CLIP_BATCH
    ensures IsBatch(rows, cutoff, batch) && id !in batch
  {
    var rest := Expired(rows, cutoff) - {id};
    var key := (k: int) => if k in rows then rows[k].createdAt else 0.0;
    SubsetCount2(others, rest);
    var sorted := OldestFirst(rest, key);
    batch := sorted[..CLIP_BATCH];
    PrefixIsOldest(sorted, key, batch);
    OldestAreOld(sorted, key, others, rows[id].createdAt);
    SubsetCount2(rest, Expired(rows, cutoff));
  }

  lemma PrefixIsOldest(sorted: seq<int>, key: int -> real, batch: seq<int>)
    requires Sorting.SortedBy(sorted, key) && CLIP_BATCH <= |sorted| && batch == sorted[..CLIP_BATCH]
    ensures forall i, j :: 0 <= i < j < |batch| ==> key(batch[i]) <= key(batch[j])
    ensures forall k, taken :: k in sorted && k !in batch && taken in batch ==> key(taken) <= key(k)
  {
    forall k, taken | k in sorted && k !in batch && taken in batch ensures key(taken) <= key(k) {
      var j :| 0 <= j < |sorted| && sorted[j] == k;
      var i :| 0 <= i < |batch| && batch[i] == taken;
      assert sorted[i] == taken;
      if j < CLIP_BATCH {
      }
    }
  }

  lemma OldestAreOld(sorted: seq<int>, key: int -> real, old200: set<int>, a: real)
    requires Sorting.SortedBy(sorted, key) && Distinct(sorted) && CLIP_BATCH <= |sorted|
    requires |old200| >= CLIP_BATCH && forall k :: k in old200 ==> k in sorted && key(k) <= a
    ensures forall k :: k in sorted[..CLIP_BATCH] ==> key(k) <= a
  {
    var batch := sorted[..CLIP_BATCH];
    if i :| 0 <= i < CLIP_BATCH && key(sorted[i]) > a {
      var before := sorted[..i];
      forall k | k in old200 ensures k in before {
        var j :| 0 <= j < |sorted| && sorted[j] == k;
        assert j < i;
        assert before[j] == k;
      }
      DistinctCount(before);
      SubsetCount2(old200, Members(before));
    }
  }

  lemma RunSnoc(s: Archive, steps: seq<Step>, e: Step, stuck: set<int>, a: real)
    requires CanRun(s, steps) && FairRun(s, steps, stuck, a)
    requires CanStep(Run(s, steps), e) && FairStep(Run(s, steps), e, stuck, a)
    ensures CanRun(s, steps + [e]) && FairRun(s, steps + [e], stuck, a)
    ensures Run(s, steps + [e]) == After(Run(s, steps), e)
    ensures Sweeps(steps + [e]) == Sweeps(steps) + if e.SweepStep? then 1 else 0
  {
    var more := steps + [e];
    assert more[..|steps|] == steps;
    forall i | 0 <= i < |more|
      ensures CanStep(Run(s, more[..i]), more[i]) && FairStep(Run(s, more[..i]), more[i], stuck, a)
    {
      if i < |steps| {
        assert more[..i] == steps[..i];
      }
    }
  }

  /** A sweep that fails on `stuck` alone. */
  lemma SweepSparing(s: Archive, stuck: set<int>, id: int) returns (w: Sweep)
    requires Inv(s) && id in s.rows && s.rows[id].fileDeletedAt.None? && id !in stuck
    requires |DueStuck(s.rows, stuck, s.rows[id].createdAt)| >= CLIP_BATCH
    ensures CanSweep(s, w) && Effective(s.rows, w, stuck, s.rows[id].createdAt)
    ensures id in Swept(s, w).rows && Swept(s, w).rows[id] == s.rows[id]
    ensures forall k :: k in stuck && k in s.rows ==> s.rows[k].storagePath in w.failing
  {
    var a := s.rows[id].createdAt;
    var cutoff := a + 1.0;
    var batch := BatchSparing(s.rows, cutoff, id, DueStuck(s.rows, stuck, a));
    var failing := set k | k in stuck && k in s.rows :: s.rows[k].storagePath;
    w := Sweep(cutoff + 86400.0, 1, batch, failing, None);
    assert RetentionCutoff(w.now, w.days) == Some(cutoff);
    assert !Clears(s.rows, batch, failing, id);
    hide IsBatch;
  }

  /** 200 stuck clips as old as it: some run of any number of sweeps spares the clip. */
  lemma {:induction false} SparingRun(s: Archive, stuck: set<int>, id: int, k: nat) returns (steps: seq<Step>)
    requires Inv(s) && id in s.rows && s.rows[id].fileDeletedAt.None? && id !in stuck
    requires |DueStuck(s.rows, stuck, s.rows[id].createdAt)| >= CLIP_BATCH
    ensures var a := s.rows[id].createdAt;
      && CanRun(s, steps) && FairRun(s, steps, stuck, a) && FailingRun(s, steps, stuck) && Sweeps(steps) == k
      && id in Run(s, steps).rows && Run(s, steps).rows[id] == s.rows[id]
  {
    steps := [];
    if k > 0 {
      var a := s.rows[id].createdAt;
      var front := SparingRun(s, stuck, id, k - 1);
      RunKeepsInv(s, front);
      RunDrains(s, front, stuck, a);
      var mid := Run(s, front);
      var w := SweepSparing(mid, stuck, id);
      var e := SweepStep(w);
      RunSnoc(s, front, e, stuck, a);
      steps := front + [e];
      hide Run, CanRun, FairRun, Sweeps, Due, DueStuck, Effective, CanSweep, Inv, Swept;
      assert steps[..|front|] == front;
      forall i | 0 <= i < |steps| ensures SweepsFailOn(Run(s, steps[..i]), steps[i], stuck) {
        if i < |front| {
          assert steps[..i] == front[..i];
        }
      }
    }
  }

  /**
   When of the clips as old as it exactly `stuck` fail to unlink, a live clip is sooner or later taken if and only if
   fewer than 200 of them are stuck. Clips created at the very same moment count: the query may list them first.
   */
  lemma TakenExactly(s: Archive, stuck: set<int>, id: int)
    requires Inv(s) && id in s.rows && s.rows[id].fileDeletedAt.None? && id !in stuck
    ensures EventuallyTaken(s, stuck, id, s.rows[id].createdAt)
      <==> |DueStuck(s.rows, stuck, s.rows[id].createdAt)| < CLIP_BATCH
  {
    var a := s.rows[id].createdAt;
    if |DueStuck(s.rows, stuck, a)| < CLIP_BATCH {
      var n := |DueOthers(s.rows, stuck, a)|;
      forall steps: seq<Step> | CanRun(s, steps) && FairRun(s, steps, stuck, a) && Sweeps(steps) >= n
        ensures id !in Due(Run(s, steps).rows, a)
      {
        TakenWhenFewStuck(s, stuck, id, a, steps);
      }
      assert TakenIn(s, stuck, id, a, n);
    } else {
      forall k: nat ensures !TakenIn(s, stuck, id, a, k) {
        var steps := SparingRun(s, stuck, id, k);
        assert id in Due(Run(s, steps).rows, a);
      }
    }
  }

  /** 201 clips, one a second, all with their files. */
  function Name(n: nat): string {
    seq(n, _ => 'x')
  }

  function Archive201(): Archive {
    Archive(map id | 0 <= id <= 200 :: Clip(id as real, Name(id), None), set id | 0 <= id <= 200 :: Name(id), {})
  }

  function Below(n: nat): set<int> {
    if n == 0 then {} else Below(n - 1) + {n - 1}
  }

  lemma {:induction false} BelowCount(n: nat)
    ensures |Below(n)| == n && forall id :: id in Below(n) <==> 0 <= id < n
  {
    if n > 0 {
      BelowCount(n - 1);
    }
  }

  lemma Archive201Facts(n: nat)
    requires n <= 200
    ensures var s := Archive201();
      && Inv(s) && 200 in s.rows && s.rows[200] == Clip(200.0, Name(200), None) && Name(200) in s.files
      && DueStuck(s.rows, Below(n), 200.0) == Below(n) && |Below(n)| == n
      && forall id :: id in Below(n) ==> id in Expired(s.rows, 200.0)
  {
    var s := Archive201();
    BelowCount(n);
    hide Below;
    forall i, j | 0 <= i <= 200 && 0 <= j <= 200 && i != j ensures Name(i) != Name(j) {
      assert |Name(i)| != |Name(j)|;
    }
  }

  /** The newest of them goes when 199 older ones are stuck, and may stay for ever when all 200 are. */
  lemma OneStuckTooMany()
    ensures EventuallyTaken(Archive201(), Below(199), 200, 200.0)
    ensures !EventuallyTaken(Archive201(), Below(200), 200, 200.0)
  {
    Archive201Facts(199);
    Archive201Facts(200);
    hide Archive201, Below, DueStuck, EventuallyTaken, Inv, Name;
    TakenExactly(Archive201(), Below(199), 200);
    TakenExactly(Archive201(), Below(200), 200);
  }

  /** A run of any number of sweeps, failing on the 200 older clips, that leaves the newest its row and its file. */
  lemma StarvingRun(k: nat) returns (steps: seq<Step>)
    ensures var s, stuck := Archive201(), Below(200);
      && Blocked(s, stuck, 200.0) && CanRun(s, steps) && FailingRun(s, steps, stuck) && Sweeps(steps) == k
      && var end := Run(s, steps);
         200 in end.rows && end.rows[200] == s.rows[200] && Name(200) in end.files
  {
    var s, stuck := Archive201(), Below(200);
    Archive201Facts(200);
    hide Archive201, Below, DueStuck, Inv, Name, CanRun, FailingRun, FairRun, Run, Sweeps;
    steps := SparingRun(s, stuck, 200, k);
    RunStarves(s, steps, stuck, 200.0, 200);
  }
}
