/**
 What cameras saw, as plain lists of sightings, and what a reader of such a list says of each track: when its stay
 began, when it was last seen, where it was, which stays count for how long, and which steps it took. Nothing here
 knows of the aggregator's dictionaries or of the functions that update them.
 */
module FootfallStays {
  import opened Geometry
  import opened Options
  import opened PathSplit
  import opened FootfallModel
  import Rdp

  /** One sighting of a track, a prune of the memories, or the end of a stay. */
  datatype Sight =
    | BadgeSeen(k: TrackKey)
    | Seen(k: TrackKey, store: int, hour: int, at: real)
    | Recognized(k: TrackKey)
    | Classified(k: TrackKey, store: int, hour: int, gender: string, age: string, at: real)
    | Walked(k: TrackKey, p: Point, walls: seq<Wall>, camera: Option<Point>)
    | Entered(k: TrackKey, cell: nat, store: int, hour: int)
    | Left(k: TrackKey, at: real, wallsOf: map<int, seq<Wall>>)
    | Swept(at: real)

  predicate About(e: Sight, k: TrackKey) {
    !e.Swept? && e.k == k
  }

  predicate SeenAs(e: Sight, k: TrackKey) {
    e.Seen? && e.k == k
  }

  predicate LeftAs(e: Sight, k: TrackKey) {
    e.Left? && e.k == k
  }

  /** Where a track stands: away, or here with the store and hour it began in and what has been noted since. */
  datatype Stay = Gone | Staying(store: int, hour: int, first: real, last: real, cell: Option<nat>,
                              gender: Option<string>, age: Option<string>, path: seq<Point>, staff: bool, linked: bool)

  /** A wall crosses the line of sight, whose first 4 % next to the camera do not matter. */
  ghost predicate OutOfSight(walls: seq<Wall>, camera: Option<Point>, p: Point) {
    camera.Some? && exists w :: w in walls && SegsIntersect(At(camera.value, p, 0.04), p, w)
  }

  /** A point worth noting: on the plan to within a hundredth, in sight, and 0.005 or more from the last one noted. */
  ghost predicate WorthNoting(path: seq<Point>, p: Point, walls: seq<Wall>, camera: Option<Point>) {
    && |path| < 400
    && Abs(p.x - 0.5) <= 0.51 && Abs(p.y - 0.5) <= 0.51
    && !OutOfSight(walls, camera, p)
    && (path == [] || Len2(p, path[|path| - 1]) >= 0.005 * 0.005)
  }

  ghost function NextStay(s: Stay, e: Sight): Stay {
    match e
    case Seen(_, store, hour, at) =>
      if s.Gone? then Staying(store, hour, at, at, None, None, None, [], false, false) else s.(last := at)
    case Left(_, _, _) => Gone
    case _ => if s.Gone? then Gone else NextNote(s, e)
  }

  ghost function NextNote(s: Stay, e: Sight): Stay
    requires s.Staying?
  {
    match e
    case BadgeSeen(_) => if s.staff then s else s.(staff := true, path := [])
    case Recognized(_) => s.(linked := true)
    case Classified(_, _, _, gender, age, _) =>
      if s.gender.None? && gender != "unknown"
      then s.(gender := Some(gender), age := if age == "unknown" then None else Some(age)) else s
    case Walked(_, p, walls, camera) =>
      if WorthNoting(s.path, p, walls, camera) then s.(path := s.path + [Point(Round4(p.x), Round4(p.y))]) else s
    case Entered(_, cell, _, _) => s.(cell := Some(cell))
    case _ => s
  }

  ghost function StayOf(tr: seq<Sight>, k: TrackKey): Stay {
    if tr == [] then Gone
    else
      var s := StayOf(tr[..|tr| - 1], k);
      if About(tr[|tr| - 1], k) then NextStay(s, tr[|tr| - 1]) else s
  }

  // ---- what a stay says of the list -------------------------------------------------------------------

  /** The stay begins at p: the first sighting of k since it last left, if it ever did. */
  ghost predicate BeginsAt(tr: seq<Sight>, k: TrackKey, p: nat) {
    && p < |tr| && SeenAs(tr[p], k)
    && (forall i :: p < i < |tr| ==> !LeftAs(tr[i], k))
    && (forall i :: 0 <= i < p && SeenAs(tr[i], k) ==> exists m :: i < m < p && LeftAs(tr[m], k))
  }

  ghost predicate LastSeenAt(tr: seq<Sight>, k: TrackKey, q: nat) {
    && q < |tr| && SeenAs(tr[q], k)
    && forall i :: q < i < |tr| ==> !SeenAs(tr[i], k) && !LeftAs(tr[i], k)
  }

  /** After every sighting of k it left. */
  ghost predicate Absent(tr: seq<Sight>, k: TrackKey) {
    forall i :: 0 <= i < |tr| && SeenAs(tr[i], k) ==> exists m :: i < m < |tr| && LeftAs(tr[m], k)
  }

  lemma {:induction false} GoneTells(tr: seq<Sight>, k: TrackKey)
    ensures StayOf(tr, k).Gone? <==> Absent(tr, k)
  {
    if tr != [] {
      var front, e := tr[..|tr| - 1], tr[|tr| - 1];
      GoneTells(front, k);
      hide NextNote;
      if LeftAs(e, k) {
        assert Absent(tr, k);
      } else if SeenAs(e, k) {
        assert !Absent(tr, k);
      } else {
        AbsentSnoc(tr, k);
      }
    }
  }

  lemma AbsentSnoc(tr: seq<Sight>, k: TrackKey)
    requires tr != [] && !LeftAs(tr[|tr| - 1], k) && !SeenAs(tr[|tr| - 1], k)
    ensures Absent(tr, k) <==> Absent(tr[..|tr| - 1], k)
  {
    var front := tr[..|tr| - 1];
    if Absent(tr, k) {
      forall i | 0 <= i < |front| && SeenAs(front[i], k) ensures exists m :: i < m < |front| && LeftAs(front[m], k) {
        assert SeenAs(tr[i], k);
        var m :| i < m < |tr| && LeftAs(tr[m], k);
        assert front[m] == tr[m];
      }
    }
    if Absent(front, k) {
      forall i | 0 <= i < |tr| && SeenAs(tr[i], k) ensures exists m :: i < m < |tr| && LeftAs(tr[m], k) {
        assert SeenAs(front[i], k);
        var m :| i < m < |front| && LeftAs(front[m], k);
        assert front[m] == tr[m];
      }
    }
  }

  /** A stay holds the store, hour and time of its first sighting and the time of its last, by index. */
  lemma {:induction false} StayTells(tr: seq<Sight>, k: TrackKey) returns (p: nat, q: nat)
    requires StayOf(tr, k).Staying?
    ensures p <= q && BeginsAt(tr, k, p) && LastSeenAt(tr, k, q)
    ensures var s := StayOf(tr, k);
      s.store == tr[p].store && s.hour == tr[p].hour && s.first == tr[p].at && s.last == tr[q].at
  {
    var front, e := tr[..|tr| - 1], tr[|tr| - 1];
    hide NextNote;
    if SeenAs(e, k) && StayOf(front, k).Gone? {
      GoneTells(front, k);
      BeginsNow(tr, k);
      p, q := |front|, |front|;
    } else {
      NoteKeeps(StayOf(front, k), e);
      p, q := StayTells(front, k);
      BeginsBefore(tr, k, p);
      if SeenAs(e, k) {
        q := |front|;
      }
    }
  }

  lemma NoteKeeps(s: Stay, e: Sight)
    ensures s.Staying? ==> var n := NextNote(s, e);
      n.Staying? && n.store == s.store && n.hour == s.hour && n.first == s.first && n.last == s.last
  {
    hide WorthNoting;
  }

  lemma BeginsNow(tr: seq<Sight>, k: TrackKey)
    requires tr != [] && SeenAs(tr[|tr| - 1], k) && Absent(tr[..|tr| - 1], k)
    ensures BeginsAt(tr, k, |tr| - 1)
  {
    var front := tr[..|tr| - 1];
    forall i | 0 <= i < |front| && SeenAs(tr[i], k) ensures exists m :: i < m < |front| && LeftAs(tr[m], k) {
      assert SeenAs(front[i], k);
      var m :| i < m < |front| && LeftAs(front[m], k);
      assert LeftAs(tr[m], k);
    }
  }

  lemma BeginsBefore(tr: seq<Sight>, k: TrackKey, p: nat)
    requires tr != [] && BeginsAt(tr[..|tr| - 1], k, p) && !LeftAs(tr[|tr| - 1], k)
    ensures BeginsAt(tr, k, p)
  {
    var front := tr[..|tr| - 1];
    forall i | 0 <= i < p && SeenAs(tr[i], k) ensures exists m :: i < m < p && LeftAs(tr[m], k) {
      assert SeenAs(front[i], k);
      var m :| i < m < p && LeftAs(front[m], k);
      assert LeftAs(tr[m], k);
    }
  }

  /** k is here in cell a, last entered at i. */
  ghost predicate InCellSince(tr: seq<Sight>, k: TrackKey, a: nat, i: nat) {
    && i < |tr| && tr[i].Entered? && tr[i].k == k && tr[i].cell == a && StayOf(tr[..i], k).Staying?
    && forall j :: i < j < |tr| ==> !LeftAs(tr[j], k) && !(tr[j].Entered? && tr[j].k == k)
  }

  lemma {:induction false} CellTells(tr: seq<Sight>, k: TrackKey, a: nat)
    ensures StayOf(tr, k).Staying? && StayOf(tr, k).cell == Some(a) <==> exists i: nat :: InCellSince(tr, k, a, i)
  {
    if tr != [] {
      var n := |tr| - 1;
      var front, e := tr[..n], tr[n];
      CellTells(front, k, a);
      NoteKeepsCell(StayOf(front, k), e);
      hide NextNote;
      if LeftAs(e, k) {
        assert forall i: nat :: !InCellSince(tr, k, a, i);
      } else if e.Entered? && e.k == k {
        assert forall i: nat :: InCellSince(tr, k, a, i) ==> i == n;
        assert StayOf(front, k).Staying? && e.cell == a ==> InCellSince(tr, k, a, n);
      } else {
        forall i: nat ensures InCellSince(tr, k, a, i) <==> InCellSince(front, k, a, i) {
          if i < n {
            assert tr[..i] == front[..i];
          }
        }
      }
    }
  }

  lemma NoteKeepsCell(s: Stay, e: Sight)
    ensures s.Staying? ==> NextNote(s, e).Staying? && NextNote(s, e).cell == if e.Entered? then Some(e.cell) else s.cell
  {
    hide WorthNoting;
  }

  /** Staff and linked say whether a badge, or a shopper identity, was noted since the stay began. */
  lemma {:induction false} FlagsTell(tr: seq<Sight>, k: TrackKey, p: nat)
    requires StayOf(tr, k).Staying? && BeginsAt(tr, k, p)
    ensures StayOf(tr, k).staff <==> exists i :: p < i < |tr| && tr[i] == BadgeSeen(k)
    ensures StayOf(tr, k).linked <==> exists i :: p < i < |tr| && tr[i] == Recognized(k)
  {
    var n := |tr| - 1;
    var front, e := tr[..n], tr[n];
    NoteFlags(StayOf(front, k), e);
    hide NextNote;
    if p == n {
      AbsentBefore(tr, k);
    } else {
      BeginsStill(tr, k, p);
      GoneTells(front, k);
      FlagsTell(front, k, p);
      assert forall i :: p < i < n ==> front[i] == tr[i];
    }
  }

  lemma NoteFlags(s: Stay, e: Sight)
    ensures s.Staying? ==> var n := NextNote(s, e);
      n.Staying? && (n.staff <==> s.staff || e.BadgeSeen?) && (n.linked <==> s.linked || e.Recognized?)
  {
    hide WorthNoting;
  }

  lemma AbsentBefore(tr: seq<Sight>, k: TrackKey)
    requires tr != [] && BeginsAt(tr, k, |tr| - 1)
    ensures StayOf(tr[..|tr| - 1], k).Gone?
  {
    var front := tr[..|tr| - 1];
    forall i | 0 <= i < |front| && SeenAs(front[i], k) ensures exists m :: i < m < |front| && LeftAs(front[m], k) {
      assert SeenAs(tr[i], k);
      var m :| i < m < |front| && LeftAs(tr[m], k);
      assert LeftAs(front[m], k);
    }
    GoneTells(front, k);
  }

  lemma BeginsStill(tr: seq<Sight>, k: TrackKey, p: nat)
    requires BeginsAt(tr, k, p) && p < |tr| - 1
    ensures BeginsAt(tr[..|tr| - 1], k, p) && !Absent(tr[..|tr| - 1], k)
  {
    var front := tr[..|tr| - 1];
    forall i | 0 <= i < p && SeenAs(front[i], k) ensures exists m :: i < m < p && LeftAs(front[m], k) {
      assert SeenAs(tr[i], k);
      var m :| i < m < p && LeftAs(tr[m], k);
      assert LeftAs(front[m], k);
    }
    assert SeenAs(front[p], k);
  }

  // ---- what the stays add up to -----------------------------------------------------------------------

  /** Whole milliseconds, cut. */
  function WholeMs(first: real, last: real): (ms: int)
    ensures first <= last ==> 0 <= ms && ms as real <= 1000.0 * (last - first) < ms as real + 1.0
  {
    (1000.0 * (last - first)).Floor
  }

  /** The sighting ends a stay that counts under b: no badge, no shopper identity, begun in b's store and hour. */
  ghost predicate EndsUnder(tr: seq<Sight>, e: Sight, b: Key) {
    e.Left? && var s := StayOf(tr, e.k);
      s.Staying? && !s.staff && !s.linked && Bucket(s.store, e.k.0, s.hour) == b
  }

  /** How many stays have ended under b, and their milliseconds. */
  ghost function StaysEnded(tr: seq<Sight>, b: Key): nat {
    if tr == [] then 0
    else
      var front, e := tr[..|tr| - 1], tr[|tr| - 1];
      StaysEnded(front, b) + if EndsUnder(front, e, b) then 1 else 0
  }

  ghost function TimeEnded(tr: seq<Sight>, b: Key): int {
    if tr == [] then 0
    else
      var front, e := tr[..|tr| - 1], tr[|tr| - 1];
      TimeEnded(front, b)
      + if EndsUnder(front, e, b) then WholeMs(StayOf(front, e.k).first, StayOf(front, e.k).last) else 0
  }

  /** Rows and columns at most two apart on the twelve by twelve grid. */
  predicate Near(a: nat, b: nat) {
    -2 <= a / 12 - b / 12 <= 2 && -2 <= a % 12 - b % 12 <= 2
  }

  /** The sighting is a step from a to b, two near cells, noted in that store and hour. */
  ghost predicate StepsOver(tr: seq<Sight>, e: Sight, store: int, camera: string, hour: int, a: nat, b: nat) {
    && e.Entered? && e.store == store && e.k.0 == camera && e.hour == hour && e.cell == b
    && StayOf(tr, e.k).Staying? && StayOf(tr, e.k).cell == Some(a) && a != b && Near(a, b)
  }

  ghost function StepsTaken(tr: seq<Sight>, store: int, camera: string, hour: int, a: nat, b: nat): nat {
    if tr == [] then 0
    else
      var front := tr[..|tr| - 1];
      StepsTaken(front, store, camera, hour, a, b)
      + if StepsOver(front, tr[|tr| - 1], store, camera, hour, a, b) then 1 else 0
  }

  /** When k was last classified. */
  function LastClassified(tr: seq<Sight>, k: TrackKey): Option<real> {
    if tr == [] then None
    else
      var e := tr[|tr| - 1];
      if e.Classified? && e.k == k then Some(e.at) else LastClassified(tr[..|tr| - 1], k)
  }

  /** k was classified, and no prune since came 45 s or more after the last time. */
  predicate StillKnown(tr: seq<Sight>, k: TrackKey) {
    tr != [] &&
    var front, e := tr[..|tr| - 1], tr[|tr| - 1];
    if e.Classified? && e.k == k then true
    else if e.Swept? then
      StillKnown(front, k) && LastClassified(front, k).Some? && e.at - LastClassified(front, k).value < 45.0
    else StillKnown(front, k)
  }

  /** Classifications of tracks not known at the time. */
  function Newcomers(tr: seq<Sight>, store: int, camera: string, hour: int, gender: string, age: string): nat {
    if tr == [] then 0
    else
      var front, e := tr[..|tr| - 1], tr[|tr| - 1];
      Newcomers(front, store, camera, hour, gender, age)
      + if e.Classified? && !StillKnown(front, e.k) && e.store == store && e.k.0 == camera && e.hour == hour
           && e.gender == gender && e.age == age
        then 1 else 0
  }

  /** The time of the last prune. */
  function LastSwept(tr: seq<Sight>, start: real): real {
    if tr == [] then start
    else if tr[|tr| - 1].Swept? then tr[|tr| - 1].at
    else LastSwept(tr[..|tr| - 1], start)
  }

  /** What one stretch of a finished stay is stored as: simplified, if three points are left. */
  function StretchRow(k: TrackKey, s: Stay, stretch: seq<Point>): seq<PathRow>
    requires s.Staying?
  {
    var kept := Rdp.Simplify(stretch, 0.003);
    if |kept| < 3 then [] else [PathRow(s.store, k.0, s.hour, s.last - s.first, kept, s.gender, s.age)]
  }

  function StretchRows(k: TrackKey, s: Stay, stretches: seq<seq<Point>>): seq<PathRow>
    requires s.Staying?
  {
    if stretches == [] then []
    else
      StretchRows(k, s, stretches[..|stretches| - 1]) + StretchRow(k, s, stretches[|stretches| - 1])
  }

  /** The rows of a stay that ends: none for staff or short walks, else one per stretch between the walls. */
  function RowsOfStay(k: TrackKey, s: Stay, walls: map<int, seq<Wall>>): seq<PathRow> {
    if s.Gone? || s.staff || |s.path| < 3 then []
    else
      var here := if s.store in walls then walls[s.store] else [];
      BoundsIncreasing(s.path, here);
      StretchRows(k, s, Saved(s.path, Bounds(s.path, here)))
  }

  ghost function RowsEnded(tr: seq<Sight>): seq<PathRow> {
    if tr == [] then []
    else
      var front, e := tr[..|tr| - 1], tr[|tr| - 1];
      RowsEnded(front) + if e.Left? then RowsOfStay(e.k, StayOf(front, e.k), e.wallsOf) else []
  }
}
