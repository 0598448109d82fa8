/** Severity debounce of alerts pushed by the node
    (services/threshold_handler.py, repository/alert_repo.py, services/alert_service.py). */
module AlertDebounce {
  import opened Options

  datatype Category = Browsing | CartPickup | PocketConceal | BagConceal | Other

  datatype Level = Ignore | Log | Notify | Review

  datatype Trigger = ManualUpload | LiveThreshold | EdgePcUpload

  /** Severity order, low to high. */
  const LEVEL_ORDER: seq<Level> := [Ignore, Log, Notify, Review]

  function Rank(level: Level): (r: nat)
    ensures r < |LEVEL_ORDER| && LEVEL_ORDER[r] == level
  {
    match level
    case Ignore => 0
    case Log => 1
    case Notify => 2
    case Review => 3
  }

  function DeriveAlertLevel(category: Category, confidence: real): Level {
    if category in {Browsing, CartPickup, Other} then Ignore
    else if category in {PocketConceal, BagConceal} then
      if confidence < 0.50 then Ignore
      else if confidence >= 0.85 then Review
      else if confidence >= 0.70 then Notify
      else Log
    else Ignore
  }

  /** Only concealment seen with at least 0.50 confidence is kept, and more confidence never lowers its level. */
  lemma LevelsFollowConfidence(category: Category, lower: real, higher: real)
    ensures DeriveAlertLevel(category, lower) != Ignore <==> category in {PocketConceal, BagConceal} && lower >= 0.50
    ensures lower <= higher ==> Rank(DeriveAlertLevel(category, lower)) <= Rank(DeriveAlertLevel(category, higher))
  {
  }

  /** The bands of confidence a concealment falls into. */
  lemma ConcealmentBands(category: Category, confidence: real)
    requires category in {PocketConceal, BagConceal}
    ensures DeriveAlertLevel(category, confidence) == Log <==> 0.50 <= confidence < 0.70
    ensures DeriveAlertLevel(category, confidence) == Notify <==> 0.70 <= confidence < 0.85
    ensures DeriveAlertLevel(category, confidence) == Review <==> 0.85 <= confidence
  {
  }

  datatype Alert = Alert(camera: int, person: Option<int>, trigger: Trigger, level: Level, createdAt: real)

  /** The query: a live alert of this person at one of the levels from `atOrAbove` up, no older than `within`. */
  predicate RecentLiveAlertExists(alerts: seq<Alert>, camera: int, person: int, within: real, atOrAbove: Level,
      now: real) {
    var wanted := LEVEL_ORDER[Rank(atOrAbove)..];
    exists a :: a in alerts && a.camera == camera && a.person == Some(person) && a.trigger == LiveThreshold
      && a.level in wanted && a.createdAt >= now - within
  }

  lemma WantedLevels(level: Level, atOrAbove: Level)
    ensures level in LEVEL_ORDER[Rank(atOrAbove)..] <==> Rank(atOrAbove) <= Rank(level)
  {
  }

  /** One pushed verdict. `camera` is None when the path resolves to no camera; `savable` says that the clip is small
      enough and that camera and store still exist when the alert is written. */
  datatype Push = Push(camera: Option<int>, person: Option<int>, category: Category, confidence: real, savable: bool)

  class AlertTable {
    var alerts: seq<Alert>

    /** checkedAt is the clock of the debounce query, stampedAt the one of the inserted row. */
    method CreateLiveAlert(push: Push, within: real, checkedAt: real, stampedAt: real) returns (created: Option<Alert>)
      modifies this
      ensures created == Verdict(old(alerts), push, within, checkedAt, stampedAt)
      ensures alerts == old(alerts) + (if created.Some? then [created.value] else [])
    {
      if push.camera.None? {
        return None;
      }
      var level := DeriveAlertLevel(push.category, push.confidence);
      if level == Ignore {
        return None;
      }
      if push.person.Some? {
        if RecentLiveAlertExists(alerts, push.camera.value, push.person.value, within, level, checkedAt) {
          return None;
        }
      }
      if !push.savable {
        return None;
      }
      var alert := Alert(push.camera.value, push.person, LiveThreshold, level, stampedAt);
      alerts := alerts + [alert];
      return Some(alert);
    }
  }

  /** A recent alert of this camera and person that already says as much. */
  ghost predicate Covered(alerts: seq<Alert>, camera: int, person: Option<int>, level: Level, since: real) {
    exists i :: 0 <= i < |alerts| && alerts[i].camera == camera && alerts[i].person == person
      && alerts[i].trigger == LiveThreshold && Rank(level) <= Rank(alerts[i].level) && alerts[i].createdAt >= since
  }

  /** What a push leads to, said with ranks instead of the list of levels. */
  ghost function Verdict(alerts: seq<Alert>, push: Push, within: real, checkedAt: real,
      stampedAt: real): Option<Alert> {
    var level := DeriveAlertLevel(push.category, push.confidence);
    if push.camera.None? || level == Ignore || !push.savable then None
    else if push.person.Some? && Covered(alerts, push.camera.value, push.person, level, checkedAt - within) then None
    else Some(Alert(push.camera.value, push.person, LiveThreshold, level, stampedAt))
  }

  // ---- Runs ----

  /** Alerts of other origins (uploads, the pull path) are stored beside the pushed ones. */
  datatype Event = Pushed(push: Push, checkedAt: real, stampedAt: real) | Stored(alert: Alert)

  function Start(e: Event): real {
    if e.Pushed? then e.checkedAt else e.alert.createdAt
  }

  function End(e: Event): real {
    if e.Pushed? then e.stampedAt else e.alert.createdAt
  }

  /** Events are handled one at a time under a clock that never goes back. */
  ghost predicate InOrder(events: seq<Event>) {
    && (forall i :: 0 <= i < |events| ==> Start(events[i]) <= End(events[i]))
    && (forall i, j :: 0 <= i < j < |events| ==> End(events[i]) <= Start(events[j]))
  }

  /** The alerts table after the events, and those of its alerts that were pushed. */
  ghost function Table(events: seq<Event>, within: real): seq<Alert> {
    if events == [] then []
    else
      var before := Table(events[..|events| - 1], within);
      before + Added(before, events[|events| - 1], within)
  }

  ghost function Added(alerts: seq<Alert>, e: Event, within: real): seq<Alert> {
    match e
    case Pushed(push, checkedAt, stampedAt) =>
      var created := Verdict(alerts, push, within, checkedAt, stampedAt);
      if created.Some? then [created.value] else []
    case Stored(alert) => [alert]
  }

  ghost function PushedAlerts(events: seq<Event>, within: real): seq<Alert> {
    if events == [] then []
    else
      var front, e := events[..|events| - 1], events[|events| - 1];
      PushedAlerts(front, within) + (if e.Pushed? then Added(Table(front, within), e, within) else [])
  }

  /** A live alert of the push's camera and person, from `since` on, saying at least as much as its confidence does. */
  predicate Tells(a: Alert, push: Push, since: real) {
    && a.trigger == LiveThreshold && push.camera == Some(a.camera) && a.person == push.person && a.createdAt >= since
    && a.level != Ignore && (push.confidence >= 0.70 ==> a.level in {Notify, Review})
    && (push.confidence >= 0.85 ==> a.level == Review)
  }

  ghost predicate Told(alerts: seq<Alert>, push: Push, since: real) {
    push.person.Some? && exists a :: a in alerts && Tells(a, push, since)
  }

  lemma CoveredIsTold(alerts: seq<Alert>, push: Push, since: real)
    requires push.camera.Some? && push.person.Some?
    requires push.category in {PocketConceal, BagConceal} && push.confidence >= 0.50
    ensures Told(alerts, push, since) <==>
      Covered(alerts, push.camera.value, push.person, DeriveAlertLevel(push.category, push.confidence), since)
  {
    var level := DeriveAlertLevel(push.category, push.confidence);
    forall i | 0 <= i < |alerts|
      ensures alerts[i] in alerts
      ensures Tells(alerts[i], push, since) <==>
        && alerts[i].camera == push.camera.value && alerts[i].person == push.person
        && alerts[i].trigger == LiveThreshold && Rank(level) <= Rank(alerts[i].level) && alerts[i].createdAt >= since
    {
    }
    hide Tells, Rank;
  }

  /** A push after a run is stored exactly for a concealment of 0.50 or more on a known camera, unless the clip cannot
      be saved or a live alert of this camera and person, from within the cooldown, already says as much. */
  lemma StoredExactly(events: seq<Event>, push: Push, checkedAt: real, stampedAt: real, within: real)
    ensures var before := PushedAlerts(events, within);
      var after := PushedAlerts(events + [Pushed(push, checkedAt, stampedAt)], within);
      if && push.camera.Some? && push.category in {PocketConceal, BagConceal} && push.confidence >= 0.50
         && push.savable && !Told(Table(events, within), push, checkedAt - within)
      then
        var level := if push.confidence >= 0.85 then Review else if push.confidence >= 0.70 then Notify else Log;
        after == before + [Alert(push.camera.value, push.person, LiveThreshold, level, stampedAt)]
      else after == before
  {
    var all := events + [Pushed(push, checkedAt, stampedAt)];
    assert all[..|all| - 1] == events;
    if && push.camera.Some? && push.person.Some?
       && push.category in {PocketConceal, BagConceal} && push.confidence >= 0.50 {
      CoveredIsTold(Table(events, within), push, checkedAt - within);
    }
    hide Covered, Table, Tells;
  }

  lemma {:induction false} PushedInTable(events: seq<Event>, within: real)
    requires InOrder(events)
    ensures forall a :: a in PushedAlerts(events, within) ==>
      a in Table(events, within) && a.trigger == LiveThreshold && a.level != Ignore
    ensures forall a :: a in PushedAlerts(events, within) ==> a.createdAt <= End(events[|events| - 1])
  {
    if events != [] {
      var front := events[..|events| - 1];
      assert InOrder(front);
      PushedInTable(front, within);
    }
  }

  /** The same camera and the same tracked person. */
  predicate SamePerson(a: Alert, b: Alert) {
    a.camera == b.camera && a.person == b.person && a.person.Some?
  }

  /** Of two pushed alerts of one person no further apart than the cooldown, the later is strictly more severe. */
  lemma {:induction false} SeverityClimbs(events: seq<Event>, within: real, i: nat, j: nat)
    requires InOrder(events)
    requires var s := PushedAlerts(events, within);
      i < j < |s| && SamePerson(s[i], s[j]) && s[j].createdAt - s[i].createdAt <= within
    ensures var s := PushedAlerts(events, within);
      s[i].createdAt <= s[j].createdAt && Rank(s[i].level) < Rank(s[j].level)
  {
    var front, e := events[..|events| - 1], events[|events| - 1];
    var earlier, table := PushedAlerts(front, within), Table(front, within);
    assert InOrder(front);
    if j < |earlier| {
      SeverityClimbs(front, within, i, j);
    } else {
      PushedInTable(front, within);
      var s := PushedAlerts(events, within);
      assert s[i] == earlier[i] && s[i] in table;
      var k :| 0 <= k < |table| && table[k] == s[i];
      assert End(front[|front| - 1]) <= Start(e);
    }
  }

  /** So no four pushed alerts of one person fall within one cooldown: log, notify and review are all there is. */
  lemma AtMostThree(events: seq<Event>, within: real, a: nat, b: nat, c: nat, d: nat)
    requires InOrder(events)
    requires var s := PushedAlerts(events, within);
      && a < b < c < d < |s|
      && SamePerson(s[a], s[b]) && SamePerson(s[a], s[c]) && SamePerson(s[a], s[d])
    ensures var s := PushedAlerts(events, within); s[d].createdAt - s[a].createdAt > within
  {
    var s := PushedAlerts(events, within);
    PushedInTable(events, within);
    assert s[a] in s;
    if s[d].createdAt - s[a].createdAt <= within {
      PushedInOrder(events, within, b, d);
      PushedInOrder(events, within, c, d);
      PushedInOrder(events, within, a, b);
      PushedInOrder(events, within, b, c);
      SeverityClimbs(events, within, a, b);
      SeverityClimbs(events, within, b, c);
      SeverityClimbs(events, within, c, d);
    }
  }

  lemma {:induction false} PushedInOrder(events: seq<Event>, within: real, i: nat, j: nat)
    requires InOrder(events) && i < j < |PushedAlerts(events, within)|
    ensures PushedAlerts(events, within)[i].createdAt <= PushedAlerts(events, within)[j].createdAt
  {
    var front := events[..|events| - 1];
    assert InOrder(front);
    var earlier := PushedAlerts(front, within);
    if j < |earlier| {
      PushedInOrder(front, within, i, j);
    } else {
      PushedInTable(front, within);
      assert earlier[i] in earlier;
      assert End(front[|front| - 1]) <= Start(events[|events| - 1]);
    }
  }

  /** The three do fit: a log, a notify and a review may all come at one moment. */
  lemma ThreeFit(camera: int, person: int, at: real, within: real)
    requires within >= 0.0
    ensures var rise := [0.60, 0.75, 0.90];
      var events := seq(3, (i: int) requires 0 <= i < 3 =>
        Pushed(Push(Some(camera), Some(person), BagConceal, rise[i], true), at, at));
      InOrder(events) && |PushedAlerts(events, within)| == 3
  {
    var rise := [0.60, 0.75, 0.90];
    var events := seq(3, (i: int) requires 0 <= i < 3 =>
      Pushed(Push(Some(camera), Some(person), BagConceal, rise[i], true), at, at));
    var first, second := events[..1], events[..2];
    assert first[..0] == [] && second[..1] == first && events[..2] == second;
    assert Table([], within) == [];
    assert Table(first, within) == [Alert(camera, Some(person), LiveThreshold, Log, at)];
    assert |PushedAlerts(first, within)| == 1;
    assert Table(second, within) == Table(first, within) + [Alert(camera, Some(person), LiveThreshold, Notify, at)];
    assert |PushedAlerts(second, within)| == 2;
  }
}
