/** Visitor numbers of stored walks (repository/analytics_repo.py): `YYYYMMDD-NNN`,
    continued from the number that text order puts last. */
module VisitorIds {
  import opened Options
  import opened Decimal
  import opened Sorting

  datatype Walk = Walk(camera: string, startedAt: real, points: seq<(real, real)>,
                       gender: Option<string>, ageBand: Option<string>)

  datatype StoredPath = StoredPath(store: string, walk: Walk, visitorId: Option<string>)

  function Id(day: string, number: nat): string {
    day + "-" + Pad(number, 3)
  }

  predicate StartsWith(s: string, prefix: string) {
    |prefix| <= |s| && s[..|prefix|] == prefix
  }

  lemma StartsExactly(s: string, prefix: string)
    ensures StartsWith(s, prefix) <==> exists rest :: s == prefix + rest
  {
    if StartsWith(s, prefix) {
      assert s == prefix + s[|prefix|..];
    }
  }

  predicate OfDay(row: StoredPath, store: string, day: string) {
    row.store == store && row.visitorId.Some? && StartsWith(row.visitorId.value, day + "-")
  }

  /** The visitor ids stored for (store, day), in the order they were inserted. */
  function Stored(rows: seq<StoredPath>, store: string, day: string): seq<string> {
    if rows == [] then []
    else
      var row := rows[|rows| - 1];
      Stored(rows[..|rows| - 1], store, day) + (if OfDay(row, store, day) then [row.visitorId.value] else [])
  }

  /** The id a descending text sort puts first. */
  function LastText(ids: seq<string>): (r: string)
    requires ids != []
    ensures r in ids && forall x :: x in ids ==> TextLe(x, r)
  {
    var last := ids[|ids| - 1];
    TextLeReflexive(last);
    if |ids| == 1 then last
    else
      var best := LastText(ids[..|ids| - 1]);
      TextLeTotal(best, last);
      BestOfFront(ids, best);
      if TextLe(best, last) then last else best
  }

  lemma BestOfFront(ids: seq<string>, best: string)
    requires |ids| > 1 && forall x :: x in ids[..|ids| - 1] ==> TextLe(x, best)
    ensures forall x :: x in ids ==> x == ids[|ids| - 1] || TextLe(x, best)
    ensures TextLe(best, ids[|ids| - 1]) ==> forall x :: x in ids ==> x == ids[|ids| - 1] || TextLe(x, ids[|ids| - 1])
  {
    var front, last := ids[..|ids| - 1], ids[|ids| - 1];
    assert ids == front + [last];
    forall x | x in front && TextLe(best, last) ensures TextLe(x, last) {
      TextLeTransitive(x, best, last);
    }
  }

  function AfterLastDash(s: string): string {
    if s == "" || s[|s| - 1] == '-' then "" else AfterLastDash(s[..|s| - 1]) + [s[|s| - 1]]
  }

  /** One more than the number at the end of the text-largest id; 1 when there is none to read. */
  function NextNumber(ids: seq<string>): nat {
    if ids == [] then 1
    else
      var tail := AfterLastDash(LastText(ids));
      if tail != "" && AllDigits(tail) then Value(tail) + 1 else 1
  }

  function NextVisitorSeq(rows: seq<StoredPath>, store: string, day: string): nat {
    NextNumber(Stored(rows, store, day))
  }

  // ---- What a batch inserts ----

  /** How many of the walks fall on `day`. */
  function DayCount(walks: seq<Walk>, dayOf: real -> string, day: string): nat {
    if walks == [] then 0
    else DayCount(walks[..|walks| - 1], dayOf, day) + (if dayOf(walks[|walks| - 1].startedAt) == day then 1 else 0)
  }

  /** Each walk is numbered after what was stored for its day and after the batch's earlier walks of that day. */
  function NumberRows(rows: seq<StoredPath>, store: string, dayOf: real -> string, walks: seq<Walk>): seq<StoredPath> {
    if walks == [] then []
    else
      var front, w := walks[..|walks| - 1], walks[|walks| - 1];
      var day := dayOf(w.startedAt);
      NumberRows(rows, store, dayOf, front)
      + [StoredPath(store, w, Some(Id(day, NextVisitorSeq(rows, store, day) + DayCount(front, dayOf, day))))]
  }

  const ByStart := (w: Walk) => w.startedAt

  function Inserted(rows: seq<StoredPath>, store: string, dayOf: real -> string, walks: seq<Walk>): seq<StoredPath> {
    rows + NumberRows(rows, store, dayOf, StableSort(walks, ByStart))
  }

  /** The dictionary of a batch in progress: the next number of every day met so far. */
  ghost predicate Continues(nextSeq: map<string, nat>, rows: seq<StoredPath>, store: string, dayOf: real -> string,
      walks: seq<Walk>) {
    forall d :: if d in nextSeq then nextSeq[d] == NextVisitorSeq(rows, store, d) + DayCount(walks, dayOf, d)
                else DayCount(walks, dayOf, d) == 0
  }

  /** A day met for the first time starts from the stored rows. */
  lemma DayOpens(nextSeq: map<string, nat>, rows: seq<StoredPath>, store: string, dayOf: real -> string,
      walks: seq<Walk>, day: string)
    requires Continues(nextSeq, rows, store, dayOf, walks) && day !in nextSeq
    ensures Continues(nextSeq[day := NextVisitorSeq(rows, store, day)], rows, store, dayOf, walks)
  {
    hide NextVisitorSeq, DayCount;
  }

  /** Taking a number and writing back its successor accounts for one more walk. */
  lemma DayAdvances(nextSeq: map<string, nat>, rows: seq<StoredPath>, store: string, dayOf: real -> string,
      walks: seq<Walk>)
    requires walks != [] && Continues(nextSeq, rows, store, dayOf, walks[..|walks| - 1])
    requires dayOf(walks[|walks| - 1].startedAt) in nextSeq
    ensures var day := dayOf(walks[|walks| - 1].startedAt);
      && nextSeq[day] == NextVisitorSeq(rows, store, day) + DayCount(walks[..|walks| - 1], dayOf, day)
      && Continues(nextSeq[day := nextSeq[day] + 1], rows, store, dayOf, walks)
  {
    hide NextVisitorSeq;
  }

  lemma NothingNumbered(rows: seq<StoredPath>, store: string, dayOf: real -> string, walks: seq<Walk>)
    requires walks == []
    ensures Continues(map[], rows, store, dayOf, walks) && NumberRows(rows, store, dayOf, walks) == []
  {
  }

  /** The numbering loop over one batch in time order. */
  method AssignNumbers(rows: seq<StoredPath>, store: string, dayOf: real -> string, ordered: seq<Walk>)
    returns (values: seq<StoredPath>)
    ensures values == NumberRows(rows, store, dayOf, ordered)
  {
    hide *;
    var nextSeq: map<string, nat> := map[];
    values := [];
    NothingNumbered(rows, store, dayOf, ordered[..0]);
    for i := 0 to |ordered|
      invariant values == NumberRows(rows, store, dayOf, ordered[..i])
      invariant Continues(nextSeq, rows, store, dayOf, ordered[..i])
    {
      ghost var done := ordered[..i + 1];
      assert done[..i] == ordered[..i];
      var w := ordered[i];
      var day := dayOf(w.startedAt);
      if day !in nextSeq {
        DayOpens(nextSeq, rows, store, dayOf, ordered[..i], day);
        nextSeq := nextSeq[day := NextVisitorSeq(rows, store, day)];
      }
      DayAdvances(nextSeq, rows, store, dayOf, done);
      LastWalk(rows, store, dayOf, done);
      var number := nextSeq[day];
      nextSeq := nextSeq[day := number + 1];
      values := values + [StoredPath(store, w, Some(Id(day, number)))];
    }
    assert ordered[..|ordered|] == ordered;
  }

  class PathTable {
    var rows: seq<StoredPath>

    method InsertPaths(store: string, dayOf: real -> string, walks: seq<Walk>)
      modifies this
      ensures rows == Inserted(old(rows), store, dayOf, walks)
    {
      if walks == [] {
        return;
      }
      var ordered := StableSort(walks, ByStart);
      var values := AssignNumbers(rows, store, dayOf, ordered);
      rows := rows + values;
    }
  }

  // ---- Ids and days ----

  lemma {:induction false} TailAfterDash(p: string, t: string)
    requires '-' !in t
    ensures AfterLastDash(p + "-" + t) == t
  {
    var s := p + "-" + t;
    if t != "" {
      TailAfterDash(p, t[..|t| - 1]);
      assert s[..|s| - 1] == p + "-" + t[..|t| - 1];
    }
  }

  lemma IdTail(day: string, number: nat)
    ensures AfterLastDash(Id(day, number)) == Pad(number, 3)
    ensures AllDigits(Pad(number, 3)) && Value(Pad(number, 3)) == number && |Pad(number, 3)| >= 3
  {
    PadSpells(number, 3);
    TailAfterDash(day, Pad(number, 3));
  }

  lemma IdInjective(day: string, a: nat, b: nat)
    requires Id(day, a) == Id(day, b)
    ensures a == b
  {
    IdTail(day, a);
    IdTail(day, b);
  }

  /** Days are written with equally many characters, so an id starts with its own day only. */
  lemma IdOfDay(d: string, number: nat, day: string)
    requires |d| == |day|
    ensures StartsWith(Id(d, number), day + "-") <==> d == day
  {
    var id := Id(d, number);
    assert id[..|d|] == d && id[|d|] == '-';
    if StartsWith(id, day + "-") {
      assert id[..|day|] == (day + "-")[..|day|] == day;
    } else {
      assert id[..|d| + 1] == d + "-";
    }
  }

  // ---- The text-largest of 1..m ----

  /** m ids are continued correctly: at most 999 of them, or m reads nines up to its last digit. */
  predicate Safe(m: nat) {
    m <= 999 || (var text := Pad(m, 3); AllNine(text[..|text| - 1]))
  }

  /** The number text order puts last among 1..m. */
  function Top(m: nat): nat
    requires |Pad(m, 3)| >= 1
  {
    if Safe(m) then m else Nines(|Pad(m, 3)| - 1)
  }

  lemma WidthOf(n: nat)
    ensures n <= 999 ==> |Pad(n, 3)| == 3
    ensures n > 999 ==> |Pad(n, 3)| >= 4
    ensures AllDigits(Pad(n, 3)) && Value(Pad(n, 3)) == n && |Pad(n, 3)| >= 3
  {
    PadSpells(n, 3);
    assert Nines(3) == 999;
    if n <= 999 {
      PadNines(3, 3);
      PadGrows(n, 999, 3);
    } else {
      ValueBound(Pad(n, 3));
    }
  }

  lemma TopInRange(m: nat)
    requires m >= 1
    ensures |Pad(m, 3)| >= 3 && 1 <= Top(m) <= m
    ensures Top(m) == m <==> Safe(m)
  {
    WidthOf(m);
    if !Safe(m) {
      var n := |Pad(m, 3)| - 1;
      PadNines(n, 3);
      if Nines(n) >= m {
        PadGrows(m, Nines(n), 3);
        assert false;
      }
    }
  }

  lemma TopBeatsSafe(m: nat, k: nat)
    requires 1 <= k <= m && Safe(m)
    ensures TextLe(Pad(k, 3), Pad(m, 3))
  {
    WidthOf(m);
    WidthOf(k);
    PadGrows(k, m, 3);
    var pk, pm := Pad(k, 3), Pad(m, 3);
    if |pk| == |pm| {
      SameWidthOrder(k, m, 3);
    } else {
      var nines := pm[..|pm| - 1];
      forall i | 0 <= i < |pk| ensures pm[..|pk|][i] == '9' {
        assert pm[..|pk|][i] == nines[i];
      }
      NinesBeat(pk, pm);
    }
  }

  lemma LastDigitApart(n: nat)
    requires n > 999
    ensures Pad(n, 3) == Pad(n / 10, 2) + [Digit(n % 10)]
    ensures AllDigits(Pad(n / 10, 2)) && Value(Pad(n / 10, 2)) == n / 10
    ensures n / 10 <= Nines(|Pad(n, 3)| - 1)
    ensures n / 10 == Nines(|Pad(n, 3)| - 1) <==> AllNine(Pad(n / 10, 2))
  {
    PadSpells(n / 10, 2);
    ValueBound(Pad(n / 10, 2));
  }

  lemma {:induction false} UnderNines(s: string, n: nat)
    requires AllDigits(s) && |s| <= n && 3 <= n
    ensures TextLe(s, Pad(Nines(n), 3))
  {
    PadNines(n, 3);
    hide Pad, Nines, TextLe;
    var top := Pad(Nines(n), 3);
    assert AllNine(top[..|s|]);
    NinesBeat(s, top);
  }

  /** A number one digit longer still comes first when it does not itself begin with n nines. */
  lemma LongerUnderNines(k: nat, n: nat)
    requires k > 999 && |Pad(k, 3)| == n + 1 && k / 10 < Nines(n)
    ensures TextLe(Pad(k, 3), Pad(Nines(n), 3))
  {
    LastDigitApart(k);
    PadNines(n, 3);
    UnderNines(Pad(k / 10, 2), n);
    hide Pad, Nines, TextLe, Value;
    var front, top := Pad(k / 10, 2), Pad(Nines(n), 3);
    TextLeExtends(front, top, [Digit(k % 10)], "");
    assert top + "" == top;
  }

  lemma TopBeatsUnsafe(m: nat, k: nat)
    requires 1 <= k <= m && !Safe(m)
    ensures |Pad(m, 3)| >= 4 && TextLe(Pad(k, 3), Pad(Nines(|Pad(m, 3)| - 1), 3))
  {
    WidthOf(m);
    WidthOf(k);
    PadGrows(k, m, 3);
    LastDigitApart(m);
    var n := |Pad(m, 3)| - 1;
    assert Pad(m, 3)[..n] == Pad(m / 10, 2);
    hide Pad, Value, Nines, TextLe;
    if |Pad(k, 3)| <= n {
      UnderNines(Pad(k, 3), n);
    } else {
      LongerUnderNines(k, n);
    }
  }

  /** The ids from, from+1, …, count of them. */
  function Numbers(day: string, from: nat, count: nat): (r: seq<string>)
    ensures |r| == count && forall i :: 0 <= i < count ==> r[i] == Id(day, from + i)
  {
    seq(count, (i: nat) => Id(day, from + i))
  }

  lemma LastTextIs(ids: seq<string>, k: nat)
    requires k < |ids| && forall j :: 0 <= j < |ids| ==> TextLe(ids[j], ids[k])
    ensures LastText(ids) == ids[k]
  {
    TextLeTotal(LastText(ids), ids[k]);
  }

  lemma TopBeats(day: string, m: nat, k: nat)
    requires 1 <= k <= m
    ensures |Pad(m, 3)| >= 1 && TextLe(Id(day, k), Id(day, Top(m)))
  {
    TopInRange(m);
    hide TextLe, Pad, Nines;
    if Safe(m) {
      TopBeatsSafe(m, k);
    } else {
      TopBeatsUnsafe(m, k);
    }
    TextLeSamePrefix(day + "-", Pad(k, 3), Pad(Top(m), 3));
  }

  lemma NextOf(ids: seq<string>, day: string, k: nat)
    requires ids != [] && LastText(ids) == Id(day, k)
    ensures NextNumber(ids) == k + 1
  {
    IdTail(day, k);
    hide Pad, Id, LastText, AfterLastDash, Value;
  }

  /** Only the part of the text-largest id after its last dash is read; unless that is a number, numbering restarts. */
  lemma NextReads(ids: seq<string>, head: string, tail: string)
    requires ids != [] && LastText(ids) == head + "-" + tail && '-' !in tail
    ensures NextNumber(ids) == if tail != "" && AllDigits(tail) then Value(tail) + 1 else 1
  {
    TailAfterDash(head, tail);
    hide LastText, AfterLastDash, Value;
  }

  /** The ids up to m never come after the one numbered `top` in text. */
  ghost predicate TopsOut(day: string, m: nat, top: nat) {
    1 <= top <= m && forall k: nat :: 1 <= k <= m ==> TextLe(Id(day, k), Id(day, top))
  }

  lemma NextFrom(day: string, m: nat, top: nat)
    requires TopsOut(day, m, top)
    ensures NextNumber(Numbers(day, 1, m)) == top + 1
  {
    hide TextLe, Id, LastText, NextNumber;
    var ids := Numbers(day, 1, m);
    assert forall j :: 0 <= j < m ==> ids[j] == Id(day, 1 + j);
    LastTextIs(ids, top - 1);
    NextOf(ids, day, top);
  }

  /** With exactly 1..m stored, the next number is one more than Top(m). */
  lemma {:induction false} NextAfter(day: string, m: nat)
    requires m >= 1
    ensures |Pad(m, 3)| >= 1 && NextNumber(Numbers(day, 1, m)) == Top(m) + 1
  {
    TopInRange(m);
    hide Safe, Nines, Pad, TextLe, Id, Top, NextNumber, Numbers;
    forall k: nat | 1 <= k <= m ensures TextLe(Id(day, k), Id(day, Top(m))) {
      TopBeats(day, m, k);
    }
    NextFrom(day, m, Top(m));
  }

  /** Numbering goes on without a gap or a repeat exactly when m is safe; otherwise a stored id is issued again. */
  lemma NextExact(day: string, m: nat)
    ensures NextNumber(Numbers(day, 1, m)) == m + 1 <==> Safe(m)
    ensures !Safe(m) ==> Id(day, NextNumber(Numbers(day, 1, m))) in Numbers(day, 1, m)
  {
    hide *;
    if m == 0 {
      NothingStored(day);
    } else {
      NextAfter(day, m);
      TopInRange(m);
      if !Safe(m) {
        Reissued(day, m, Top(m));
      }
    }
  }

  lemma NothingStored(day: string)
    ensures NextNumber(Numbers(day, 1, 0)) == 1 && Safe(0)
  {
  }

  lemma Reissued(day: string, m: nat, top: nat)
    requires top < m
    ensures Id(day, top + 1) in Numbers(day, 1, m)
  {
    hide Id;
    assert Numbers(day, 1, m)[top] == Id(day, top + 1);
  }

  /** The bound is tight: with 1000 stored, text order reads 999 and number 1000 is issued twice. */
  lemma {:induction false} ThousandRepeats(day: string)
    ensures !Safe(1000) && NextNumber(Numbers(day, 1, 1000)) == 1000
  {
    WidthOf(1000);
    LastDigitApart(1000);
    PadNines(3, 3);
    assert Nines(3) == 999;
    PadGrows(1000, 9999, 3);
    PadNines(4, 3);
    assert Nines(4) == 9999;
    assert Pad(1000, 3)[..3] == Pad(100, 2);
    NextAfter(day, 1000);
  }

  // ---- Batches ----

  /** The ids of (store, day) are 1..m in insertion order: no gap, no repeat. */
  ghost predicate Numbered(rows: seq<StoredPath>, store: string, day: string) {
    Stored(rows, store, day) == Numbers(day, 1, |Stored(rows, store, day)|)
  }

  lemma NumberedIsDistinct(rows: seq<StoredPath>, store: string, day: string, i: nat, j: nat)
    requires Numbered(rows, store, day) && i < j < |Stored(rows, store, day)|
    ensures Stored(rows, store, day)[i] != Stored(rows, store, day)[j]
  {
    hide Stored, Id;
    if Id(day, 1 + i) == Id(day, 1 + j) {
      IdInjective(day, 1 + i, 1 + j);
    }
  }

  lemma LastWalk(rows: seq<StoredPath>, store: string, dayOf: real -> string, walks: seq<Walk>)
    requires walks != []
    ensures var front, w := walks[..|walks| - 1], walks[|walks| - 1];
      var day := dayOf(w.startedAt);
      NumberRows(rows, store, dayOf, walks) == NumberRows(rows, store, dayOf, front)
        + [StoredPath(store, w, Some(Id(day, NextVisitorSeq(rows, store, day) + DayCount(front, dayOf, day))))]
  {
    hide NextVisitorSeq, Id, DayCount;
  }

  /** What a batch adds to one day: the numbers after NextVisitorSeq, as many as the batch has walks of that day. */
  lemma {:induction false} BatchAdds(rows: seq<StoredPath>, store: string, dayOf: real -> string, walks: seq<Walk>,
      day: string)
    requires forall w :: w in walks ==> |dayOf(w.startedAt)| == |day|
    ensures Stored(rows + NumberRows(rows, store, dayOf, walks), store, day)
         == Stored(rows, store, day) + Numbers(day, NextVisitorSeq(rows, store, day), DayCount(walks, dayOf, day))
  {
    hide NextVisitorSeq, Id, StartsWith, Stored;
    var all := rows + NumberRows(rows, store, dayOf, walks);
    var next := NextVisitorSeq(rows, store, day);
    if walks == [] {
      assert all == rows;
    } else {
      var front, w := walks[..|walks| - 1], walks[|walks| - 1];
      BatchAdds(rows, store, dayOf, front, day);
      LastWalk(rows, store, dayOf, walks);
      hide NumberRows;
      var d, c := dayOf(w.startedAt), DayCount(front, dayOf, day);
      var number := NextVisitorSeq(rows, store, d) + DayCount(front, dayOf, d);
      assert DayCount(walks, dayOf, day) == c + (if d == day then 1 else 0);
      hide DayCount;
      IdOfDay(d, number, day);
      var row := StoredPath(store, w, Some(Id(d, number)));
      AppendedRow(rows + NumberRows(rows, store, dayOf, front), row, all, store, day);
      assert Numbers(day, next, c + 1) == Numbers(day, next, c) + [Id(day, next + c)];
    }
  }

  lemma AppendedRow(rows: seq<StoredPath>, row: StoredPath, all: seq<StoredPath>, store: string, day: string)
    requires all == rows + [row]
    ensures Stored(all, store, day)
         == Stored(rows, store, day) + (if OfDay(row, store, day) then [row.visitorId.value] else [])
  {
    assert all[..|rows|] == rows;
  }

  lemma {:induction false} OtherStoreUntouched(rows: seq<StoredPath>, store: string, dayOf: real -> string,
      walks: seq<Walk>,
                                               other: string, day: string)
    requires other != store
    ensures Stored(rows + NumberRows(rows, store, dayOf, walks), other, day) == Stored(rows, other, day)
  {
    hide NextVisitorSeq, Id, StartsWith, Stored;
    var all := rows + NumberRows(rows, store, dayOf, walks);
    if walks == [] {
      assert all == rows;
    } else {
      var front := walks[..|walks| - 1];
      OtherStoreUntouched(rows, store, dayOf, front, other, day);
      LastWalk(rows, store, dayOf, walks);
      hide NumberRows;
      var numbered := NumberRows(rows, store, dayOf, front);
      AppendedRow(rows + numbered, NumberRows(rows, store, dayOf, walks)[|numbered|], all, other, day);
    }
  }

  /** A batch keeps a day's numbering exactly when it adds nothing to the day or the stored count is safe. */
  lemma BatchKeepsNumbering(rows: seq<StoredPath>, store: string, dayOf: real -> string, walks: seq<Walk>, day: string)
    requires Numbered(rows, store, day)
    requires forall w :: w in walks ==> |dayOf(w.startedAt)| == |day|
    ensures Numbered(Inserted(rows, store, dayOf, walks), store, day)
       <==> DayCount(StableSort(walks, ByStart), dayOf, day) == 0 || Safe(|Stored(rows, store, day)|)
  {
    var ordered := StableSort(walks, ByStart);
    forall w | w in ordered ensures |dayOf(w.startedAt)| == |day| {
      SortMembers(walks, ByStart, w);
    }
    BatchAdds(rows, store, dayOf, ordered, day);
    var m := |Stored(rows, store, day)|;
    NextExact(day, m);
    NumberedGrows(day, Stored(rows, store, day), NextVisitorSeq(rows, store, day), DayCount(ordered, dayOf, day));
  }

  /** 1..m followed by `count` numbers from `next` is again 1..k exactly when nothing is added or next is m + 1. */
  lemma NumberedGrows(day: string, before: seq<string>, next: nat, count: nat)
    requires before == Numbers(day, 1, |before|)
    ensures var after := before + Numbers(day, next, count);
      (after == Numbers(day, 1, |after|) <==> count == 0 || next == |before| + 1)
  {
    hide Id;
    var m, after := |before|, before + Numbers(day, next, count);
    if count == 0 || next == m + 1 {
      assert after == Numbers(day, 1, m + count);
    } else {
      assert after[m] == Id(day, next);
      if Id(day, next) == Id(day, m + 1) {
        IdInjective(day, next, m + 1);
      }
      assert Numbers(day, 1, |after|)[m] == Id(day, m + 1);
    }
  }

  /** Row k carries walk k, numbered after the batch's earlier walks of that day. */
  lemma {:induction false} RowOf(rows: seq<StoredPath>, store: string, dayOf: real -> string, walks: seq<Walk>, k: nat)
    requires k < |walks|
    ensures |NumberRows(rows, store, dayOf, walks)| == |walks|
    ensures var day := dayOf(walks[k].startedAt);
      NumberRows(rows, store, dayOf, walks)[k]
      == StoredPath(store, walks[k], Some(Id(day, NextVisitorSeq(rows, store, day) + DayCount(walks[..k], dayOf, day))))
  {
    hide NextVisitorSeq, Id;
    var front := walks[..|walks| - 1];
    LastWalk(rows, store, dayOf, walks);
    if k < |front| {
      RowOf(rows, store, dayOf, front, k);
      hide NumberRows, DayCount;
      assert front[..k] == walks[..k];
    } else {
      hide DayCount;
      NumberLength(rows, store, dayOf, front);
      assert walks[..k] == front;
    }
  }

  lemma {:induction false} NumberLength(rows: seq<StoredPath>, store: string, dayOf: real -> string, walks: seq<Walk>)
    ensures |NumberRows(rows, store, dayOf, walks)| == |walks|
  {
    hide NextVisitorSeq, Id, DayCount;
    if walks != [] {
      NumberLength(rows, store, dayOf, walks[..|walks| - 1]);
    }
  }

  lemma {:induction false} DayCountGrows(walks: seq<Walk>, dayOf: real -> string, i: nat, j: nat)
    requires i < j <= |walks|
    ensures var day := dayOf(walks[i].startedAt);
      DayCount(walks[..i], dayOf, day) < DayCount(walks[..j], dayOf, day)
  {
    assert walks[..j][..j - 1] == walks[..j - 1];
    if i < j - 1 {
      DayCountGrows(walks, dayOf, i, j - 1);
    }
  }

  /** Within a batch, of two walks of one day the later gets the larger number. */
  lemma NumbersFollowTime(rows: seq<StoredPath>, store: string, dayOf: real -> string, walks: seq<Walk>, i: nat, j: nat)
    requires i < j < |walks|
    requires var s := StableSort(walks, ByStart);
      |s| == |walks| && dayOf(s[i].startedAt) == dayOf(s[j].startedAt)
    ensures var s := StableSort(walks, ByStart);
      var values := NumberRows(rows, store, dayOf, s);
      var day := dayOf(s[i].startedAt);
      && |values| == |s| && values[i].walk == s[i] && values[j].walk == s[j]
      && s[i].startedAt <= s[j].startedAt
      && exists a: nat, b: nat ::
           a < b && values[i].visitorId == Some(Id(day, a)) && values[j].visitorId == Some(Id(day, b))
  {
    var s := StableSort(walks, ByStart);
    SortSorts(walks, ByStart);
    assert ByStart(s[i]) <= ByStart(s[j]);
    hide NextVisitorSeq, Id, NumberRows, StableSort, DayCount;
    var day := dayOf(s[i].startedAt);
    RowOf(rows, store, dayOf, s, i);
    RowOf(rows, store, dayOf, s, j);
    DayCountGrows(s, dayOf, i, j);
    var next := NextVisitorSeq(rows, store, day);
    assert next + DayCount(s[..i], dayOf, day) < next + DayCount(s[..j], dayOf, day);
  }

  // ---- Any series of batches ----

  /** One call: the store, its local-day function at that moment, and the finished walks. */
  datatype Batch = Batch(store: string, dayOf: real -> string, walks: seq<Walk>)

  function Run(rows: seq<StoredPath>, batches: seq<Batch>): seq<StoredPath> {
    if batches == [] then rows
    else
      var b := batches[|batches| - 1];
      Inserted(Run(rows, batches[..|batches| - 1]), b.store, b.dayOf, b.walks)
  }

  /** Every day a batch writes to is safe when the batch starts. */
  ghost predicate StartsSafe(rows: seq<StoredPath>, b: Batch) {
    forall w :: w in b.walks ==> Safe(|Stored(rows, b.store, b.dayOf(w.startedAt))|)
  }

  const DAY_LENGTH := 8

  ghost predicate DayTexts(b: Batch) {
    forall w :: w in b.walks ==> |b.dayOf(w.startedAt)| == DAY_LENGTH
  }

  lemma {:induction false} CountedDay(walks: seq<Walk>, dayOf: real -> string, day: string)
    requires DayCount(walks, dayOf, day) > 0
    ensures exists w :: w in walks && dayOf(w.startedAt) == day
  {
    var w := walks[|walks| - 1];
    assert w in walks;
    if dayOf(w.startedAt) != day {
      CountedDay(walks[..|walks| - 1], dayOf, day);
      var v :| v in walks[..|walks| - 1] && dayOf(v.startedAt) == day;
      assert v in walks;
    }
  }

  lemma StepStaysNumbered(rows: seq<StoredPath>, b: Batch, store: string, day: string)
    requires |day| == DAY_LENGTH && DayTexts(b) && StartsSafe(rows, b)
    requires Numbered(rows, store, day)
    ensures Numbered(Inserted(rows, b.store, b.dayOf, b.walks), store, day)
  {
    var ordered := StableSort(b.walks, ByStart);
    hide StableSort, Safe, Stored, NumberRows, DayCount;
    if b.store != store {
      OtherStoreUntouched(rows, b.store, b.dayOf, ordered, store, day);
    } else {
      BatchKeepsNumbering(rows, store, b.dayOf, b.walks, day);
      if DayCount(ordered, b.dayOf, day) > 0 {
        CountedDay(ordered, b.dayOf, day);
        var w :| w in ordered && b.dayOf(w.startedAt) == day;
        SortMembers(b.walks, ByStart, w);
      }
    }
  }

  /** From an empty table, any series of batches that each start safe leaves every (store, day) numbered 1..m. */
  lemma {:induction false} RunStaysNumbered(batches: seq<Batch>, store: string, day: string)
    requires |day| == DAY_LENGTH && forall i :: 0 <= i < |batches| ==> DayTexts(batches[i])
    requires forall i :: 0 <= i < |batches| ==> StartsSafe(Run([], batches[..i]), batches[i])
    ensures Numbered(Run([], batches), store, day)
  {
    hide Inserted, StartsSafe, DayTexts;
    if batches == [] {
      assert Stored([], store, day) == Numbers(day, 1, 0);
    } else {
      var n := |batches| - 1;
      var front, b := batches[..n], batches[n];
      forall i | 0 <= i < |front| ensures StartsSafe(Run([], front[..i]), front[i]) {
        assert front[..i] == batches[..i];
      }
      RunStaysNumbered(front, store, day);
      StepStaysNumbered(Run([], front), b, store, day);
    }
  }
}
