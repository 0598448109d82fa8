/**
 The offline watchdog: which nodes and cameras are announced as down or recovered
 (`detect_transitions`, `detect_camera_transitions`).
 */
module Watchdog {
  import opened Options

  datatype Camera = Camera(id: string, status: string, fps: Option<real>)

  /** `cams` is None when the telemetry is missing, malformed or too old to list cameras. */
  datatype Node = Node(id: int, lastSeen: Option<real>, created: real, cams: Option<seq<Camera>>)

  type CameraKey = (int, string)

  predicate IsOffline(n: Node, now: real, after: real) {
    now - (if n.lastSeen.Some? then n.lastSeen.value else n.created) >= after
  }

  predicate CameraDown(c: Camera) {
    c.status != "ok" || c.fps == Some(0.0)
  }

  // ---- nodes ------------------------------------------------------------------------------------

  datatype NodeTick = NodeTick(notified: set<int>, newlyOffline: seq<Node>, recovered: seq<Node>)

  function SeeNode(t: NodeTick, n: Node, offline: bool): NodeTick {
    if offline && n.id !in t.notified then t.(notified := t.notified + {n.id}, newlyOffline := t.newlyOffline + [n])
    else if !offline && n.id in t.notified then t.(notified := t.notified - {n.id}, recovered := t.recovered + [n])
    else t
  }

  function SeeNodes(notified: set<int>, nodes: seq<Node>, now: real, after: real): NodeTick {
    if nodes == [] then NodeTick(notified, [], [])
    else
      var n := nodes[|nodes| - 1];
      SeeNode(SeeNodes(notified, nodes[..|nodes| - 1], now, after), n, IsOffline(n, now, after))
  }

  function Ids(nodes: seq<Node>): set<int> {
    set i | 0 <= i < |nodes| :: nodes[i].id
  }

  /** The state a tick leaves behind: entries of vanished nodes are dropped. */
  function NotifiedAfter(notified: set<int>, nodes: seq<Node>, now: real, after: real): set<int> {
    SeeNodes(notified, nodes, now, after).notified * Ids(nodes)
  }

  /** Nodes that share an id also share their offline status; a primary key makes this so. */
  ghost predicate Consistent(nodes: seq<Node>, now: real, after: real) {
    forall i, j :: 0 <= i < |nodes| && 0 <= j < |nodes| && nodes[i].id == nodes[j].id ==>
      IsOffline(nodes[i], now, after) == IsOffline(nodes[j], now, after)
  }

  /** What the last node carrying an id says decides. */
  lemma {:induction false} LastNodeDecides(notified: set<int>, nodes: seq<Node>, now: real, after: real, j: nat)
    requires j < |nodes|
    requires forall i :: j < i < |nodes| ==> nodes[i].id != nodes[j].id
    ensures nodes[j].id in SeeNodes(notified, nodes, now, after).notified <==> IsOffline(nodes[j], now, after)
  {
    if j < |nodes| - 1 {
      LastNodeDecides(notified, nodes[..|nodes| - 1], now, after, j);
    }
  }

  /** A tick always ends with exactly the offline ids, whatever was notified before. */
  lemma NotifiedIsOffline(notified: set<int>, nodes: seq<Node>, now: real, after: real, id: int)
    requires Consistent(nodes, now, after)
    ensures id in NotifiedAfter(notified, nodes, now, after) <==>
              exists i :: 0 <= i < |nodes| && nodes[i].id == id && IsOffline(nodes[i], now, after)
  {
    if id in Ids(nodes) {
      var j := LastIndex(nodes, id);
      LastNodeDecides(notified, nodes, now, after, j);
    }
  }

  lemma LastIndex(nodes: seq<Node>, id: int) returns (j: nat)
    requires id in Ids(nodes)
    ensures j < |nodes| && nodes[j].id == id
    ensures forall i :: j < i < |nodes| ==> nodes[i].id != id
  {
    j := |nodes| - 1;
    while nodes[j].id != id
      invariant j < |nodes| && exists i :: 0 <= i <= j && nodes[i].id == id
      invariant forall i :: j < i < |nodes| ==> nodes[i].id != id
      decreases j
    {
      j := j - 1;
    }
  }

  /** A tick reports something only where the state set and the status disagree on the way. */
  lemma {:induction false} QuietTick(notified: set<int>, nodes: seq<Node>, now: real, after: real)
    ensures var t := SeeNodes(notified, nodes, now, after);
            (t.newlyOffline == [] && t.recovered == []) <==>
              forall i :: 0 <= i < |nodes| ==> (nodes[i].id in notified <==> IsOffline(nodes[i], now, after))
    ensures var t := SeeNodes(notified, nodes, now, after);
            t.newlyOffline == [] && t.recovered == [] ==> t.notified == notified
  {
    hide IsOffline;
    if nodes != [] {
      var front := nodes[..|nodes| - 1];
      QuietTick(notified, front, now, after);
      assert forall i :: 0 <= i < |front| ==> nodes[i] == front[i];
    }
  }

  /**
   One notification per outage: asking again with unchanged nodes reports nothing, exactly
   if nodes with the same id agree.
   */
  lemma AskingAgainIsQuiet(notified: set<int>, nodes: seq<Node>, now: real, after: real)
    ensures var again := SeeNodes(NotifiedAfter(notified, nodes, now, after), nodes, now, after);
            (again.newlyOffline == [] && again.recovered == []) <==> Consistent(nodes, now, after)
  {
    hide IsOffline, NotifiedAfter;
    var state := NotifiedAfter(notified, nodes, now, after);
    QuietTick(state, nodes, now, after);
    if Consistent(nodes, now, after) {
      forall i | 0 <= i < |nodes|
        ensures nodes[i].id in state <==> IsOffline(nodes[i], now, after)
      {
        NotifiedIsOffline(notified, nodes, now, after, nodes[i].id);
      }
    }
  }

  // ---- which nodes are reported -------------------------------------------------------------------

  ghost predicate OwnIds(nodes: seq<Node>) {
    forall i, j :: 0 <= i < j < |nodes| ==> nodes[i].id != nodes[j].id
  }

  /** No heartbeat, or none since it was paired, for `after` seconds. */
  predicate Silent(n: Node, now: real, after: real) {
    match n.lastSeen
    case Some(last) => now >= last + after
    case None => now >= n.created + after
  }

  predicate GoesOffline(notified: set<int>, n: Node, now: real, after: real) {
    Silent(n, now, after) && n.id !in notified
  }

  predicate ComesBack(notified: set<int>, n: Node, now: real, after: real) {
    !Silent(n, now, after) && n.id in notified
  }

  /** Those listed that go offline, in listing order, and those that come back. */
  function Going(notified: set<int>, nodes: seq<Node>, now: real, after: real): seq<Node> {
    if nodes == [] then []
    else
      var n := nodes[|nodes| - 1];
      Going(notified, nodes[..|nodes| - 1], now, after) + if GoesOffline(notified, n, now, after) then [n] else []
  }

  function Coming(notified: set<int>, nodes: seq<Node>, now: real, after: real): seq<Node> {
    if nodes == [] then []
    else
      var n := nodes[|nodes| - 1];
      Coming(notified, nodes[..|nodes| - 1], now, after) + if ComesBack(notified, n, now, after) then [n] else []
  }

  /** A node's own pass finds its id as it was before the tick. */
  lemma {:induction false} UnseenKept(notified: set<int>, nodes: seq<Node>, now: real, after: real, id: int)
    requires forall i :: 0 <= i < |nodes| ==> nodes[i].id != id
    ensures id in SeeNodes(notified, nodes, now, after).notified <==> id in notified
  {
    hide IsOffline;
    if nodes != [] {
      UnseenKept(notified, nodes[..|nodes| - 1], now, after, id);
    }
  }

  lemma {:induction false} ListsAre(notified: set<int>, nodes: seq<Node>, now: real, after: real)
    requires OwnIds(nodes)
    ensures var t := SeeNodes(notified, nodes, now, after);
      t.newlyOffline == Going(notified, nodes, now, after) && t.recovered == Coming(notified, nodes, now, after)
  {
    if nodes != [] {
      var front, n := nodes[..|nodes| - 1], nodes[|nodes| - 1];
      ListsAre(notified, front, now, after);
      UnseenKept(notified, front, now, after, n.id);
    }
  }

  lemma {:induction false} GoingHolds(notified: set<int>, nodes: seq<Node>, now: real, after: real, n: Node)
    ensures n in Going(notified, nodes, now, after) <==> n in nodes && GoesOffline(notified, n, now, after)
    ensures n in Coming(notified, nodes, now, after) <==> n in nodes && ComesBack(notified, n, now, after)
  {
    hide Silent;
    if nodes != [] {
      var front := nodes[..|nodes| - 1];
      GoingHolds(notified, front, now, after, n);
      assert nodes == front + [nodes[|nodes| - 1]];
    }
  }

  /**
   With ids of their own, a tick reports as offline exactly the listed nodes silent for `after` seconds whose ids were
   not notified, as recovered exactly those heard from whose ids were; each once, in listing order.
   */
  lemma NodesReported(notified: set<int>, nodes: seq<Node>, now: real, after: real, n: Node)
    requires OwnIds(nodes)
    ensures var t := SeeNodes(notified, nodes, now, after);
      && t.newlyOffline == Going(notified, nodes, now, after) && t.recovered == Coming(notified, nodes, now, after)
      && (n in t.newlyOffline <==> n in nodes && GoesOffline(notified, n, now, after))
      && (n in t.recovered <==> n in nodes && ComesBack(notified, n, now, after))
  {
    ListsAre(notified, nodes, now, after);
    GoingHolds(notified, nodes, now, after, n);
    hide SeeNodes, Going, Coming, GoesOffline, ComesBack;
  }

  lemma SilentIsOffline(n: Node, now: real, after: real)
    ensures IsOffline(n, now, after) <==> Silent(n, now, after)
  {
  }

  /** Ticks over nodes: the set each leaves, and the pass that made it. */
  function NodeRun(ticks: seq<Tick>, after: real): set<int> {
    if ticks == [] then {}
    else
      var t := ticks[|ticks| - 1];
      NotifiedAfter(NodeRun(ticks[..|ticks| - 1], after), t.nodes, t.now, after)
  }

  function NodePass(ticks: seq<Tick>, after: real, i: nat): NodeTick
    requires i < |ticks|
  {
    SeeNodes(NodeRun(ticks[..i], after), ticks[i].nodes, ticks[i].now, after)
  }

  /** id is listed in tick i, and silent there. */
  ghost predicate SilentAt(ticks: seq<Tick>, after: real, i: nat, id: int) {
    i < |ticks| && exists j ::
      0 <= j < |ticks[i].nodes| && ticks[i].nodes[j].id == id && Silent(ticks[i].nodes[j], ticks[i].now, after)
  }

  /** After any run of ticks the notified ids are those silent in the last. */
  lemma RunNotifies(ticks: seq<Tick>, after: real, id: int)
    requires ticks != [] && OwnIds(ticks[|ticks| - 1].nodes)
    ensures id in NodeRun(ticks, after) <==> SilentAt(ticks, after, |ticks| - 1, id)
  {
    var t := ticks[|ticks| - 1];
    forall j | 0 <= j < |t.nodes| ensures IsOffline(t.nodes[j], t.now, after) <==> Silent(t.nodes[j], t.now, after) {
      SilentIsOffline(t.nodes[j], t.now, after);
    }
    hide IsOffline, Silent;
    NotifiedIsOffline(NodeRun(ticks[..|ticks| - 1], after), t.nodes, t.now, after, id);
  }

  /**
   Over any run: a node is reported offline in tick i if and only if it is listed and silent there and its id was not
   listed and silent in the tick before; and recovered if and only if it is listed and heard from, and its id was.
   */
  lemma NoticesExactly(ticks: seq<Tick>, after: real, i: nat, n: Node)
    requires (forall m :: 0 <= m < |ticks| ==> OwnIds(ticks[m].nodes)) && i < |ticks|
    ensures var was := i > 0 && SilentAt(ticks, after, i - 1, n.id);
      && (n in NodePass(ticks, after, i).newlyOffline
          <==> n in ticks[i].nodes && Silent(n, ticks[i].now, after) && !was)
      && (n in NodePass(ticks, after, i).recovered
          <==> n in ticks[i].nodes && !Silent(n, ticks[i].now, after) && was)
  {
    var before := NodeRun(ticks[..i], after);
    NodesReported(before, ticks[i].nodes, ticks[i].now, after, n);
    hide SeeNodes, Silent;
    if i > 0 {
      RunNotifies(ticks[..i], after, n.id);
      assert ticks[..i][i - 1] == ticks[i - 1];
      assert SilentAt(ticks[..i], after, i - 1, n.id) <==> SilentAt(ticks, after, i - 1, n.id);
    }
  }

  function IdCount(nodes: seq<Node>, id: int): nat {
    if nodes == [] then 0 else IdCount(nodes[..|nodes| - 1], id) + if nodes[|nodes| - 1].id == id then 1 else 0
  }

  /** How many offline notices, and how many recovery notices, were sent for the id. */
  function OfflineNotices(ticks: seq<Tick>, after: real, id: int): nat {
    if ticks == [] then 0
    else OfflineNotices(ticks[..|ticks| - 1], after, id) + IdCount(NodePass(ticks, after, |ticks| - 1).newlyOffline, id)
  }

  function RecoveryNotices(ticks: seq<Tick>, after: real, id: int): nat {
    if ticks == [] then 0
    else RecoveryNotices(ticks[..|ticks| - 1], after, id) + IdCount(NodePass(ticks, after, |ticks| - 1).recovered, id)
  }

  ghost predicate Listed(nodes: seq<Node>, id: int) {
    exists j :: 0 <= j < |nodes| && nodes[j].id == id
  }

  /** Of the lists only the id's own node counts. */
  lemma {:induction false} OwnNotice(notified: set<int>, nodes: seq<Node>, now: real, after: real, j: nat)
    requires OwnIds(nodes) && j < |nodes|
    ensures IdCount(Going(notified, nodes, now, after), nodes[j].id)
      == if GoesOffline(notified, nodes[j], now, after) then 1 else 0
    ensures IdCount(Coming(notified, nodes, now, after), nodes[j].id)
      == if ComesBack(notified, nodes[j], now, after) then 1 else 0
  {
    hide Silent;
    var front, n, id := nodes[..|nodes| - 1], nodes[|nodes| - 1], nodes[j].id;
    if j < |front| {
      OwnNotice(notified, front, now, after, j);
    } else {
      NoNotice(notified, front, now, after, id);
    }
    CountMaybe(Going(notified, front, now, after), n, GoesOffline(notified, n, now, after), id);
    CountMaybe(Coming(notified, front, now, after), n, ComesBack(notified, n, now, after), id);
  }

  lemma CountMaybe(s: seq<Node>, n: Node, b: bool, id: int)
    ensures IdCount(s + if b then [n] else [], id) == IdCount(s, id) + if b && n.id == id then 1 else 0
  {
    assert (s + [n])[..|s|] == s && s + [] == s;
  }

  lemma {:induction false} NoNotice(notified: set<int>, nodes: seq<Node>, now: real, after: real, id: int)
    requires forall i :: 0 <= i < |nodes| ==> nodes[i].id != id
    ensures IdCount(Going(notified, nodes, now, after), id) == 0
    ensures IdCount(Coming(notified, nodes, now, after), id) == 0
  {
    hide Silent;
    if nodes != [] {
      var front, n := nodes[..|nodes| - 1], nodes[|nodes| - 1];
      NoNotice(notified, front, now, after, id);
      CountMaybe(Going(notified, front, now, after), n, GoesOffline(notified, n, now, after), id);
      CountMaybe(Coming(notified, front, now, after), n, ComesBack(notified, n, now, after), id);
    }
  }

  /**
   The notices of an id that stays listed alternate, beginning with offline: after every tick one more outage than
   recoveries has been reported if it is silent, and as many if not.
   */
  lemma {:induction false} NoticesAlternate(ticks: seq<Tick>, after: real, id: int)
    requires forall m :: 0 <= m < |ticks| ==> OwnIds(ticks[m].nodes) && Listed(ticks[m].nodes, id)
    ensures OfflineNotices(ticks, after, id)
      == RecoveryNotices(ticks, after, id) + if id in NodeRun(ticks, after) then 1 else 0
  {
    if ticks != [] {
      var front, t := ticks[..|ticks| - 1], ticks[|ticks| - 1];
      NoticesAlternate(front, after, id);
      var j :| 0 <= j < |t.nodes| && t.nodes[j].id == id;
      var before := NodeRun(front, after);
      RunNotifies(ticks, after, id);
      ListsAre(before, t.nodes, t.now, after);
      OwnNotice(before, t.nodes, t.now, after, j);
      hide SeeNodes, Going, Coming, IdCount, NotifiedAfter, Silent;
      assert SilentAt(ticks, after, |ticks| - 1, id) <==> Silent(t.nodes[j], t.now, after) by {
        assert forall i :: 0 <= i < |t.nodes| && t.nodes[i].id == id ==> i == j;
      }
    }
  }

  // ---- cameras ----------------------------------------------------------------------------------

  datatype CameraTick = CameraTick(
    candidate: set<CameraKey>, notified: set<CameraKey>, seen: set<CameraKey>,
    down: seq<CameraKey>, recovered: seq<CameraKey>)

  function SeeCamera(t: CameraTick, k: CameraKey, isDown: bool): CameraTick {
    var t1 := t.(seen := t.seen + {k});
    if isDown then
      if k in t1.notified then t1
      else if k in t1.candidate then
        t1.(candidate := t1.candidate - {k}, notified := t1.notified + {k}, down := t1.down + [k])
      else t1.(candidate := t1.candidate + {k})
    else
      var t2 := t1.(candidate := t1.candidate - {k});
      if k in t2.notified then t2.(notified := t2.notified - {k}, recovered := t2.recovered + [k]) else t2
  }

  function SeeCameras(t: CameraTick, id: int, cams: seq<Camera>): CameraTick {
    if cams == [] then t
    else
      var c := cams[|cams| - 1];
      SeeCamera(SeeCameras(t, id, cams[..|cams| - 1]), (id, c.id), CameraDown(c))
  }

  function CamerasOf(n: Node): seq<Camera> {
    if n.cams.Some? then n.cams.value else []
  }

  function SeeNodeCameras(t: CameraTick, n: Node, offline: bool): CameraTick {
    if offline then t.(seen := t.seen + set k | k in t.candidate + t.notified && k.0 == n.id)
    else SeeCameras(t, n.id, CamerasOf(n))
  }

  function SeeAllCameras(candidate: set<CameraKey>, notified: set<CameraKey>, nodes: seq<Node>, now: real,
      after: real): CameraTick {
    if nodes == [] then CameraTick(candidate, notified, {}, [], [])
    else
      var n := nodes[|nodes| - 1];
      SeeNodeCameras(SeeAllCameras(candidate, notified, nodes[..|nodes| - 1], now, after), n, IsOffline(n, now, after))
  }

  /** The state a tick leaves behind: cameras not seen are dropped without a word. */
  function CameraState(t: CameraTick): (set<CameraKey>, set<CameraKey>) {
    (t.candidate * t.seen, t.notified * t.seen)
  }

  // ---- the automaton of one camera ----------------------------------------------------------------

  datatype Phase = Up | Candidate | Notified

  /** What one tick shows of one camera. */
  datatype Obs = Frozen | Absent | Down | Okay

  function Next(p: Phase, o: Obs): Phase {
    match o
    case Frozen => p
    case Absent => Up
    case Okay => Up
    case Down => if p == Up then Candidate else Notified
  }

  predicate Announces(p: Phase, o: Obs) {
    p == Candidate && o == Down
  }

  predicate Recovers(p: Phase, o: Obs) {
    p == Notified && o == Okay
  }

  function PhaseOf(candidate: set<CameraKey>, notified: set<CameraKey>, k: CameraKey): Phase {
    if k in notified then Notified else if k in candidate then Candidate else Up
  }

  /** Every observation of k one tick makes, in order; with distinct ids there is at most one. */
  function CamObs(cams: seq<Camera>, name: string): seq<Obs> {
    if cams == [] then []
    else
      var c := cams[|cams| - 1];
      CamObs(cams[..|cams| - 1], name) + if c.id == name then [if CameraDown(c) then Down else Okay] else []
  }

  function NodeObs(n: Node, offline: bool, k: CameraKey): seq<Obs> {
    if n.id != k.0 then [] else if offline then [Frozen] else CamObs(CamerasOf(n), k.1)
  }

  function AllObs(nodes: seq<Node>, now: real, after: real, k: CameraKey): seq<Obs> {
    if nodes == [] then []
    else
      var n := nodes[|nodes| - 1];
      AllObs(nodes[..|nodes| - 1], now, after, k) + NodeObs(n, IsOffline(n, now, after), k)
  }

  function Walk(p: Phase, os: seq<Obs>): Phase {
    if os == [] then p else Next(Walk(p, os[..|os| - 1]), os[|os| - 1])
  }

  function Announced(p: Phase, os: seq<Obs>): nat {
    if os == [] then 0
    else Announced(p, os[..|os| - 1]) + if Announces(Walk(p, os[..|os| - 1]), os[|os| - 1]) then 1 else 0
  }

  function Recovered(p: Phase, os: seq<Obs>): nat {
    if os == [] then 0
    else Recovered(p, os[..|os| - 1]) + if Recovers(Walk(p, os[..|os| - 1]), os[|os| - 1]) then 1 else 0
  }

  lemma {:induction false} WalkConcat(p: Phase, a: seq<Obs>, b: seq<Obs>)
    ensures Walk(p, a + b) == Walk(Walk(p, a), b)
    ensures Announced(p, a + b) == Announced(p, a) + Announced(Walk(p, a), b)
    ensures Recovered(p, a + b) == Recovered(p, a) + Recovered(Walk(p, a), b)
  {
    if b == [] {
      assert a + b == a;
    } else {
      WalkConcat(p, a, b[..|b| - 1]);
      assert (a + b)[..|a + b| - 1] == a + b[..|b| - 1];
    }
  }

  function CountOf(ks: seq<CameraKey>, k: CameraKey): nat {
    if ks == [] then 0 else CountOf(ks[..|ks| - 1], k) + if ks[|ks| - 1] == k then 1 else 0
  }

  /** t is where the automaton of k is after `os`, started in phase p with nothing reported. */
  ghost predicate Follows(t: CameraTick, k: CameraKey, p: Phase, os: seq<Obs>) {
    && t.candidate !! t.notified
    && PhaseOf(t.candidate, t.notified, k) == Walk(p, os)
    && CountOf(t.down, k) == Announced(p, os)
    && CountOf(t.recovered, k) == Recovered(p, os)
    && (os == [] ==> k !in t.seen)
    && (os != [] ==> k in t.seen || Walk(p, os) == Up)
  }

  lemma CountSnoc(ks: seq<CameraKey>, x: CameraKey, k: CameraKey)
    ensures CountOf(ks + [x], k) == CountOf(ks, k) + if x == k then 1 else 0
  {
  }

  lemma SeeOwnFollows(t: CameraTick, isDown: bool, k: CameraKey, p: Phase, os: seq<Obs>)
    requires Follows(t, k, p, os)
    ensures Follows(SeeCamera(t, k, isDown), k, p, os + [if isDown then Down else Okay])
  {
    CountSnoc(t.down, k, k);
    CountSnoc(t.recovered, k, k);
    hide CountOf, Walk, Announced, Recovered;
    var o := if isDown then Down else Okay;
    WalkConcat(p, os, [o]);
    OneObs(Walk(p, os), o);
  }

  lemma SeeOtherFollows(t: CameraTick, k': CameraKey, isDown: bool, k: CameraKey, p: Phase, os: seq<Obs>)
    requires Follows(t, k, p, os) && k' != k
    ensures Follows(SeeCamera(t, k', isDown), k, p, os)
  {
    CountSnoc(t.down, k', k);
    CountSnoc(t.recovered, k', k);
    hide CountOf, Walk, Announced, Recovered;
  }

  lemma {:induction false} SeeCamerasFollow(t: CameraTick, id: int, cams: seq<Camera>, k: CameraKey, p: Phase,
      os: seq<Obs>)
    requires Follows(t, k, p, os)
    ensures Follows(SeeCameras(t, id, cams), k, p, os + if id == k.0 then CamObs(cams, k.1) else [])
  {
    hide Follows, CameraDown, SeeCamera;
    if cams == [] {
      assert os + [] == os;
    } else {
      var front, c := cams[..|cams| - 1], cams[|cams| - 1];
      SeeCamerasFollow(t, id, front, k, p, os);
      var os1 := os + if id == k.0 then CamObs(front, k.1) else [];
      if id == k.0 && c.id == k.1 {
        assert (id, c.id) == k;
        SeeOwnFollows(SeeCameras(t, id, front), CameraDown(c), k, p, os1);
        assert os1 + [if CameraDown(c) then Down else Okay] == os + CamObs(cams, k.1);
      } else {
        SeeOtherFollows(SeeCameras(t, id, front), (id, c.id), CameraDown(c), k, p, os1);
        assert os1 == os + if id == k.0 then CamObs(cams, k.1) else [];
      }
    }
  }

  lemma FrozenFollows(t: CameraTick, n: Node, k: CameraKey, p: Phase, os: seq<Obs>)
    requires Follows(t, k, p, os)
    ensures Follows(SeeNodeCameras(t, n, true), k, p, os + if n.id == k.0 then [Frozen] else [])
  {
    if n.id == k.0 {
      assert (os + [Frozen])[..|os|] == os;
    } else {
      assert os + [] == os;
    }
  }

  /** Main result, for any telemetry: a tick moves each camera as its own automaton does. */
  lemma {:induction false} TickFollows(candidate: set<CameraKey>, notified: set<CameraKey>, nodes: seq<Node>,
      now: real, after: real, k: CameraKey)
    requires candidate !! notified
    ensures Follows(SeeAllCameras(candidate, notified, nodes, now, after), k, PhaseOf(candidate, notified, k),
      AllObs(nodes, now, after, k))
  {
    var p := PhaseOf(candidate, notified, k);
    if nodes != [] {
      hide Follows, IsOffline, PhaseOf;
      var front, n := nodes[..|nodes| - 1], nodes[|nodes| - 1];
      TickFollows(candidate, notified, front, now, after, k);
      var t, os := SeeAllCameras(candidate, notified, front, now, after), AllObs(front, now, after, k);
      if IsOffline(n, now, after) {
        FrozenFollows(t, n, k, p, os);
      } else {
        SeeCamerasFollow(t, n.id, CamerasOf(n), k, p, os);
      }
    }
  }

  // ---- with distinct ids ---------------------------------------------------------------------------

  ghost predicate DistinctIds(nodes: seq<Node>) {
    && (forall i, j :: 0 <= i < j < |nodes| ==> nodes[i].id != nodes[j].id)
    && (forall i, a, b :: 0 <= i < |nodes| && 0 <= a < b < |CamerasOf(nodes[i])| ==>
      CamerasOf(nodes[i])[a].id != CamerasOf(nodes[i])[b].id)
  }

  /** What a tick over distinct ids shows of camera k. */
  function Observed(nodes: seq<Node>, now: real, after: real, k: CameraKey): Obs {
    var os := AllObs(nodes, now, after, k);
    if os == [] then Absent else os[|os| - 1]
  }

  /** A stream works if its node says "ok" and does not report zero frames a second with it. */
  predicate Working(c: Camera) {
    c.status == "ok" && (c.fps.None? || c.fps.value != 0.0)
  }

  ghost predicate NamesDiffer(cams: seq<Camera>) {
    forall a, b :: 0 <= a < b < |cams| ==> cams[a].id != cams[b].id
  }

  lemma {:induction false} NotListed(cams: seq<Camera>, name: string)
    requires forall a :: 0 <= a < |cams| ==> cams[a].id != name
    ensures CamObs(cams, name) == []
  {
    if cams != [] {
      NotListed(cams[..|cams| - 1], name);
    }
  }

  lemma {:induction false} OwnObs(cams: seq<Camera>, j: nat)
    requires NamesDiffer(cams) && j < |cams|
    ensures CamObs(cams, cams[j].id) == [if Working(cams[j]) then Okay else Down]
  {
    var front := cams[..|cams| - 1];
    if j < |front| {
      OwnObs(front, j);
    } else {
      NotListed(front, cams[j].id);
    }
  }

  lemma {:induction false} OtherNodes(nodes: seq<Node>, now: real, after: real, k: CameraKey)
    requires forall i :: 0 <= i < |nodes| ==> nodes[i].id != k.0
    ensures AllObs(nodes, now, after, k) == []
  {
    hide IsOffline;
    if nodes != [] {
      OtherNodes(nodes[..|nodes| - 1], now, after, k);
    }
  }

  lemma {:induction false} OwnNode(nodes: seq<Node>, now: real, after: real, i: nat, name: string)
    requires (forall a, b :: 0 <= a < b < |nodes| ==> nodes[a].id != nodes[b].id) && i < |nodes|
    ensures AllObs(nodes, now, after, (nodes[i].id, name))
      == NodeObs(nodes[i], IsOffline(nodes[i], now, after), (nodes[i].id, name))
  {
    hide IsOffline, CamObs;
    var front := nodes[..|nodes| - 1];
    if i < |front| {
      OwnNode(front, now, after, i, name);
    } else {
      OtherNodes(front, now, after, (nodes[i].id, name));
    }
  }

  /** The camera in place j of what the node tells has that name. */
  ghost predicate Names(n: Node, j: int, name: string) {
    n.cams.Some? && 0 <= j < |n.cams.value| && n.cams.value[j].id == name
  }

  /** The node is heard from and lists the camera in place j. */
  ghost predicate TellsOf(n: Node, now: real, after: real, j: int, k: CameraKey) {
    n.id == k.0 && !Silent(n, now, after) && Names(n, j, k.1)
  }

  /** The node is listed, and either silent or lists the camera. */
  ghost predicate ListedAt(nodes: seq<Node>, now: real, after: real, k: CameraKey) {
    exists i :: 0 <= i < |nodes| && nodes[i].id == k.0
      && (Silent(nodes[i], now, after) || exists j :: Names(nodes[i], j, k.1))
  }

  /** What a node shows of a camera of its own. */
  lemma NodeTells(n: Node, now: real, after: real, k: CameraKey)
    requires n.id == k.0 && NamesDiffer(CamerasOf(n))
    ensures var os := NodeObs(n, IsOffline(n, now, after), k);
      && (Silent(n, now, after) ==> os == [Frozen])
      && (!Silent(n, now, after) && (forall j :: !Names(n, j, k.1)) ==> os == [])
      && (forall j :: Names(n, j, k.1) && !Silent(n, now, after) ==>
           os == [if Working(n.cams.value[j]) then Okay else Down])
  {
    SilentIsOffline(n, now, after);
    var cams := CamerasOf(n);
    hide IsOffline, Silent, Working, CamObs;
    if j: nat :| j < |cams| && cams[j].id == k.1 {
      OwnObs(cams, j);
      assert Names(n, j, k.1) && forall a :: Names(n, a, k.1) ==> a == j;
    } else {
      NotListed(cams, k.1);
    }
  }

  lemma OneNode(nodes: seq<Node>, now: real, after: real, k: CameraKey, i: nat)
    requires DistinctIds(nodes) && i < |nodes| && nodes[i].id == k.0
    ensures NamesDiffer(CamerasOf(nodes[i])) && forall m :: 0 <= m < |nodes| && nodes[m].id == k.0 ==> m == i
  {
    assert forall a, b :: 0 <= a < b < |CamerasOf(nodes[i])| ==>
      CamerasOf(nodes[i])[a].id != CamerasOf(nodes[i])[b].id;
    hide CamerasOf;
  }

  /**
   What a tick shows of a camera: frozen while its node is silent; otherwise okay or down as its node tells of it;
   absent if the node does not list it, or no such node is listed.
   */
  lemma ObservedIs(nodes: seq<Node>, now: real, after: real, k: CameraKey)
    requires DistinctIds(nodes)
    ensures forall i :: 0 <= i < |nodes| && nodes[i].id == k.0 ==> (Silent(nodes[i], now, after) ==>
      Observed(nodes, now, after, k) == Frozen)
    ensures forall i, j :: 0 <= i < |nodes| && TellsOf(nodes[i], now, after, j, k) ==>
      Observed(nodes, now, after, k) == if Working(nodes[i].cams.value[j]) then Okay else Down
    ensures Observed(nodes, now, after, k) == Absent <==> !ListedAt(nodes, now, after, k)
  {
    hide AllObs, NodeObs, CamerasOf, NamesDiffer, DistinctIds, Silent, Working, IsOffline, Names;
    if i: nat :| i < |nodes| && nodes[i].id == k.0 {
      OneNode(nodes, now, after, k, i);
      OwnNodeOf(nodes, now, after, i, k);
      NodeTells(nodes[i], now, after, k);
    } else {
      OtherNodes(nodes, now, after, k);
    }
  }

  lemma OwnNodeOf(nodes: seq<Node>, now: real, after: real, i: nat, k: CameraKey)
    requires DistinctIds(nodes) && i < |nodes| && nodes[i].id == k.0
    ensures AllObs(nodes, now, after, k) == NodeObs(nodes[i], IsOffline(nodes[i], now, after), k)
  {
    hide AllObs, NodeObs, IsOffline;
    OwnNode(nodes, now, after, i, k.1);
  }

  lemma {:induction false} CamObsShort(cams: seq<Camera>, name: string)
    requires forall a, b :: 0 <= a < b < |cams| ==> cams[a].id != cams[b].id
    ensures |CamObs(cams, name)| <= 1
    ensures CamObs(cams, name) != [] ==> exists a :: 0 <= a < |cams| && cams[a].id == name
  {
    hide CameraDown;
    if cams != [] {
      CamObsShort(cams[..|cams| - 1], name);
    }
  }

  lemma {:induction false} AllObsShort(nodes: seq<Node>, now: real, after: real, k: CameraKey)
    requires DistinctIds(nodes)
    ensures |AllObs(nodes, now, after, k)| <= 1
    ensures AllObs(nodes, now, after, k) != [] ==> exists i :: 0 <= i < |nodes| && nodes[i].id == k.0
  {
    hide IsOffline;
    if nodes != [] {
      var front, n := nodes[..|nodes| - 1], nodes[|nodes| - 1];
      assert forall i :: 0 <= i < |front| ==> nodes[i] == front[i];
      AllObsShort(front, now, after, k);
      CamObsShort(CamerasOf(n), k.1);
    }
  }

  lemma OneObs(p: Phase, o: Obs)
    ensures Walk(p, [o]) == Next(p, o)
    ensures Announced(p, [o]) == if Announces(p, o) then 1 else 0
    ensures Recovered(p, [o]) == if Recovers(p, o) then 1 else 0
  {
  }

  /** Main result: one step of the three-state automaton per camera and tick, with its announcements. */
  lemma TickIsAutomaton(candidate: set<CameraKey>, notified: set<CameraKey>, nodes: seq<Node>, now: real, after: real,
      k: CameraKey)
    requires candidate !! notified && DistinctIds(nodes)
    ensures var t := SeeAllCameras(candidate, notified, nodes, now, after);
            var (candidate', notified') := CameraState(t);
            var p, o := PhaseOf(candidate, notified, k), Observed(nodes, now, after, k);
            && candidate' !! notified'
            && PhaseOf(candidate', notified', k) == Next(p, o)
            && CountOf(t.down, k) == (if Announces(p, o) then 1 else 0)
            && CountOf(t.recovered, k) == (if Recovers(p, o) then 1 else 0)
  {
    TickFollows(candidate, notified, nodes, now, after, k);
    AllObsShort(nodes, now, after, k);
    hide SeeAllCameras, AllObs, CountOf;
    var os, p := AllObs(nodes, now, after, k), PhaseOf(candidate, notified, k);
    if os != [] {
      OneObs(p, os[0]);
      assert os == [os[0]];
    }
  }

  /** One pass of the watchdog loop. */
  datatype Tick = Tick(nodes: seq<Node>, now: real)

  function RunTicks(ticks: seq<Tick>, after: real): (set<CameraKey>, set<CameraKey>) {
    if ticks == [] then ({}, {})
    else
      var (candidate, notified) := RunTicks(ticks[..|ticks| - 1], after);
      var t := ticks[|ticks| - 1];
      CameraState(SeeAllCameras(candidate, notified, t.nodes, t.now, after))
  }

  function History(ticks: seq<Tick>, after: real, k: CameraKey): seq<Obs> {
    seq(|ticks|, i requires 0 <= i < |ticks| => Observed(ticks[i].nodes, ticks[i].now, after, k))
  }

  /** Over any run of ticks a camera's phase is its automaton's, and no camera is in both sets. */
  lemma {:induction false} RunIsAutomaton(ticks: seq<Tick>, after: real, k: CameraKey)
    requires forall i :: 0 <= i < |ticks| ==> DistinctIds(ticks[i].nodes)
    ensures var (candidate, notified) := RunTicks(ticks, after);
            && candidate !! notified
            && PhaseOf(candidate, notified, k) == Walk(Up, History(ticks, after, k))
  {
    hide DistinctIds, Observed, PhaseOf, CameraState, SeeAllCameras;
    if ticks == [] {
      assert PhaseOf({}, {}, k) == Up by { NoPhase(k); }
    } else {
      var front, t := ticks[..|ticks| - 1], ticks[|ticks| - 1];
      RunIsAutomaton(front, after, k);
      var (candidate, notified) := RunTicks(front, after);
      TickIsAutomaton(candidate, notified, t.nodes, t.now, after, k);
      assert History(ticks, after, k)[..|front|] == History(front, after, k);
    }
  }

  lemma NoPhase(k: CameraKey)
    ensures PhaseOf({}, {}, k) == Up
  {
  }

  // ---- runs of the automaton -------------------------------------------------------------------------

  /** A camera is announced only after two down checks with nothing but frozen checks between. */
  lemma {:induction false} AnnounceNeedsTwo(os: seq<Obs>)
    requires os != [] && Announces(Walk(Up, os[..|os| - 1]), os[|os| - 1])
    ensures exists i :: 0 <= i < |os| - 1 && os[i] == Down && forall m :: i < m < |os| - 1 ==> os[m] == Frozen
  {
    CandidateSince(os[..|os| - 1]);
  }

  lemma {:induction false} CandidateSince(os: seq<Obs>)
    requires Walk(Up, os) == Candidate
    ensures exists i :: 0 <= i < |os| && os[i] == Down && forall m :: i < m < |os| ==> os[m] == Frozen
  {
    if os[|os| - 1] == Frozen {
      CandidateSince(os[..|os| - 1]);
    }
  }

  /** Between two announcements of one camera it recovered, with a notice, or vanished. */
  lemma {:induction false} Alternation(os: seq<Obs>, i: nat)
    requires i + 1 < |os|
    requires Announces(Walk(Up, os[..i]), os[i])
    requires Announces(Walk(Up, os[..|os| - 1]), os[|os| - 1])
    ensures exists m :: i < m < |os| - 1 && (os[m] == Absent || Recovers(Walk(Up, os[..m]), os[m]))
  {
    assert os[..i + 1][..i] == os[..i];
    assert Walk(Up, os[..i + 1]) == Notified;
    LeavesNotified(os, i + 1, |os| - 1);
  }

  lemma {:induction false} LeavesNotified(os: seq<Obs>, lo: nat, hi: nat)
    requires lo <= hi < |os|
    requires Walk(Up, os[..lo]) == Notified && Walk(Up, os[..hi]) != Notified
    ensures exists m :: lo <= m < hi && (os[m] == Absent || Recovers(Walk(Up, os[..m]), os[m]))
    decreases hi - lo
  {
    assert os[..lo + 1][..lo] == os[..lo];
    if Walk(Up, os[..lo + 1]) == Notified {
      LeavesNotified(os, lo + 1, hi);
    } else {
      assert os[lo] == Absent || Recovers(Walk(Up, os[..lo]), os[lo]);
    }
  }

  /** Announcements never run ahead of recoveries by more than one unless a camera vanishes in between. */
  lemma {:induction false} OneOutageAtATime(os: seq<Obs>)
    requires forall i :: 0 <= i < |os| ==> os[i] != Absent
    ensures Announced(Up, os) == Recovered(Up, os) + if Walk(Up, os) == Notified then 1 else 0
  {
    if os != [] {
      OneOutageAtATime(os[..|os| - 1]);
    }
  }

  // ---- what the program sends -------------------------------------------------------------------------

  /** The pass over tick i, with the notices it sends. */
  function PassOf(ticks: seq<Tick>, after: real, i: nat): CameraTick
    requires i < |ticks|
  {
    var (candidate, notified) := RunTicks(ticks[..i], after);
    SeeAllCameras(candidate, notified, ticks[i].nodes, ticks[i].now, after)
  }

  ghost predicate AllDistinct(ticks: seq<Tick>) {
    forall i :: 0 <= i < |ticks| ==> DistinctIds(ticks[i].nodes)
  }

  /** A pass sends a camera's notices exactly when its automaton announces or recovers, once. */
  lemma PassSends(ticks: seq<Tick>, after: real, k: CameraKey, i: nat)
    requires AllDistinct(ticks) && i < |ticks|
    ensures var os, pass := History(ticks, after, k), PassOf(ticks, after, i);
      && CountOf(pass.down, k) == (if Announces(Walk(Up, os[..i]), os[i]) then 1 else 0)
      && CountOf(pass.recovered, k) == (if Recovers(Walk(Up, os[..i]), os[i]) then 1 else 0)
  {
    hide DistinctIds, Observed, SeeAllCameras, CountOf;
    var part := ticks[..i];
    RunIsAutomaton(part, after, k);
    var (candidate, notified) := RunTicks(part, after);
    assert History(ticks, after, k)[..i] == History(part, after, k);
    TickIsAutomaton(candidate, notified, ticks[i].nodes, ticks[i].now, after, k);
  }

  /** Over any run: a camera is announced once, when it is down now and was before, with only frozen ticks between. */
  lemma SentNeedsTwo(ticks: seq<Tick>, after: real, k: CameraKey, i: nat)
    requires AllDistinct(ticks) && i < |ticks| && CountOf(PassOf(ticks, after, i).down, k) > 0
    ensures CountOf(PassOf(ticks, after, i).down, k) == 1 && History(ticks, after, k)[i] == Down
    ensures TwoDowns(History(ticks, after, k), i)
  {
    PassSends(ticks, after, k, i);
    var os := History(ticks, after, k);
    assert |os| == |ticks|;
    hide PassOf, CountOf, Observed, Walk, AllDistinct, History, TwoDowns;
    AnnouncedAt(os, i);
  }

  /** Down at i, and before that with only frozen ticks between. */
  ghost predicate TwoDowns(os: seq<Obs>, i: nat) {
    i < |os| && os[i] == Down && exists j :: 0 <= j < i && os[j] == Down && forall m :: j < m < i ==> os[m] == Frozen
  }

  lemma AnnouncedAt(os: seq<Obs>, i: nat)
    requires i < |os| && Announces(Walk(Up, os[..i]), os[i])
    ensures os[i] == Down && TwoDowns(os, i)
  {
    hide Walk;
    var part := os[..i + 1];
    assert part[..i] == os[..i];
    AnnounceNeedsTwo(part);
    var j :| 0 <= j < i && part[j] == Down && forall m :: j < m < i ==> part[m] == Frozen;
    assert os[j] == Down && forall m :: j < m < i ==> os[m] == part[m];
  }

  /** Over any run: between two announcements of a camera it vanished, or its recovery was sent. */
  lemma SentAlternates(ticks: seq<Tick>, after: real, k: CameraKey, i: nat, j: nat) returns (m: nat)
    requires AllDistinct(ticks) && i < j < |ticks|
    requires CountOf(PassOf(ticks, after, i).down, k) > 0 && CountOf(PassOf(ticks, after, j).down, k) > 0
    ensures i < m < j
    ensures History(ticks, after, k)[m] == Absent || CountOf(PassOf(ticks, after, m).recovered, k) == 1
  {
    SentIsAnnounced(ticks, after, k, i);
    SentIsAnnounced(ticks, after, k, j);
    m := BetweenOutages(History(ticks, after, k), i, j);
    hide Walk, AllDistinct, Observed, CountOf, PassOf;
    PassSends(ticks, after, k, m);
  }

  lemma SentIsAnnounced(ticks: seq<Tick>, after: real, k: CameraKey, i: nat)
    requires AllDistinct(ticks) && i < |ticks| && CountOf(PassOf(ticks, after, i).down, k) > 0
    ensures var os := History(ticks, after, k); Announces(Walk(Up, os[..i]), os[i])
  {
    PassSends(ticks, after, k, i);
  }

  lemma BetweenOutages(os: seq<Obs>, i: nat, j: nat) returns (m: nat)
    requires i < j < |os| && Announces(Walk(Up, os[..i]), os[i]) && Announces(Walk(Up, os[..j]), os[j])
    ensures i < m < j && (os[m] == Absent || Recovers(Walk(Up, os[..m]), os[m]))
  {
    hide Walk;
    var part := os[..j + 1];
    assert part[..i] == os[..i] && part[..j] == os[..j];
    Alternation(part, i);
    m :| i < m < j && (part[m] == Absent || Recovers(Walk(Up, part[..m]), part[m]));
    assert part[..m] == os[..m];
  }

  function SentDown(ticks: seq<Tick>, after: real, k: CameraKey): nat {
    if ticks == [] then 0
    else SentDown(ticks[..|ticks| - 1], after, k) + CountOf(PassOf(ticks, after, |ticks| - 1).down, k)
  }

  function SentRecovered(ticks: seq<Tick>, after: real, k: CameraKey): nat {
    if ticks == [] then 0
    else SentRecovered(ticks[..|ticks| - 1], after, k) + CountOf(PassOf(ticks, after, |ticks| - 1).recovered, k)
  }

  /** Over any run where the camera never vanishes: outages sent minus recoveries is one while it is out, or zero. */
  lemma {:induction false} SentBalance(ticks: seq<Tick>, after: real, k: CameraKey)
    requires AllDistinct(ticks) && forall i :: 0 <= i < |ticks| ==> History(ticks, after, k)[i] != Absent
    ensures SentDown(ticks, after, k)
      == SentRecovered(ticks, after, k) + if k in RunTicks(ticks, after).1 then 1 else 0
  {
    SentCounts(ticks, after, k);
    RunIsAutomaton(ticks, after, k);
    hide SentDown, SentRecovered, History, DistinctIds;
    OneOutageAtATime(History(ticks, after, k));
  }

  lemma {:induction false} SentCounts(ticks: seq<Tick>, after: real, k: CameraKey)
    requires AllDistinct(ticks)
    ensures SentDown(ticks, after, k) == Announced(Up, History(ticks, after, k))
    ensures SentRecovered(ticks, after, k) == Recovered(Up, History(ticks, after, k))
  {
    hide PassOf, CountOf, Observed, Walk, Announces, Recovers, DistinctIds, History;
    HistoryOf(ticks, after, k);
    if ticks != [] {
      var front := ticks[..|ticks| - 1];
      SentCounts(front, after, k);
      PassSends(ticks, after, k, |front|);
    }
  }

  lemma HistoryOf(ticks: seq<Tick>, after: real, k: CameraKey)
    ensures |History(ticks, after, k)| == |ticks|
    ensures ticks != [] ==> var n := |ticks| - 1; History(ticks, after, k)[..n] == History(ticks[..n], after, k)
  {
    hide Observed;
  }

  // ---- the object ------------------------------------------------------------------------------------

  class NodeWatchdog {
    var notifiedOffline: set<int>
    var candidateDown: set<CameraKey>
    var notifiedDown: set<CameraKey>

    constructor ()
      ensures notifiedOffline == {} && candidateDown == {} && notifiedDown == {}
    {
      notifiedOffline, candidateDown, notifiedDown := {}, {}, {};
    }

    method DetectTransitions(nodes: seq<Node>, now: real, after: real)
      returns (newlyOffline: seq<Node>, recovered: seq<Node>)
      modifies `notifiedOffline
      ensures notifiedOffline == NotifiedAfter(old(notifiedOffline), nodes, now, after)
      ensures newlyOffline == SeeNodes(old(notifiedOffline), nodes, now, after).newlyOffline
      ensures recovered == SeeNodes(old(notifiedOffline), nodes, now, after).recovered
    {
      newlyOffline, recovered := [], [];
      var seenIds := {};
      for i := 0 to |nodes|
        invariant SeeNodes(old(notifiedOffline), nodes[..i], now, after) ==
          NodeTick(notifiedOffline, newlyOffline, recovered)
        invariant seenIds == set j | 0 <= j < i :: nodes[j].id
      {
        assert nodes[..i + 1][..i] == nodes[..i];
        var node := nodes[i];
        seenIds := seenIds + {node.id};
        var offline := IsOffline(node, now, after);
        if offline && node.id !in notifiedOffline {
          notifiedOffline := notifiedOffline + {node.id};
          newlyOffline := newlyOffline + [node];
        } else if !offline && node.id in notifiedOffline {
          notifiedOffline := notifiedOffline - {node.id};
          recovered := recovered + [node];
        }
      }
      assert nodes[..|nodes|] == nodes;
      notifiedOffline := notifiedOffline * seenIds;
    }

    method CheckCamera(t: CameraTick, k: CameraKey, isDown: bool) returns (t': CameraTick)
      requires t.candidate == candidateDown && t.notified == notifiedDown
      modifies `candidateDown, `notifiedDown
      ensures t' == SeeCamera(t, k, isDown)
      ensures t'.candidate == candidateDown && t'.notified == notifiedDown
    {
      var down, recovered := t.down, t.recovered;
      if isDown {
        if k in notifiedDown {
        } else if k in candidateDown {
          candidateDown := candidateDown - {k};
          notifiedDown := notifiedDown + {k};
          down := down + [k];
        } else {
          candidateDown := candidateDown + {k};
        }
      } else {
        candidateDown := candidateDown - {k};
        if k in notifiedDown {
          notifiedDown := notifiedDown - {k};
          recovered := recovered + [k];
        }
      }
      t' := CameraTick(candidateDown, notifiedDown, t.seen + {k}, down, recovered);
    }

    method CheckNode(t: CameraTick, n: Node, offline: bool) returns (t': CameraTick)
      requires t.candidate == candidateDown && t.notified == notifiedDown
      modifies `candidateDown, `notifiedDown
      ensures t' == SeeNodeCameras(t, n, offline)
      ensures t'.candidate == candidateDown && t'.notified == notifiedDown
    {
      t' := t;
      if offline {
        t' := t.(seen := t.seen + set k | k in candidateDown + notifiedDown && k.0 == n.id);
        return;
      }
      hide SeeCamera, CameraDown;
      var cams := if n.cams.Some? then n.cams.value else [];
      for i := 0 to |cams|
        invariant t' == SeeCameras(t, n.id, cams[..i])
        invariant t'.candidate == candidateDown && t'.notified == notifiedDown
      {
        assert cams[..i + 1][..i] == cams[..i];
        t' := CheckCamera(t', (n.id, cams[i].id), CameraDown(cams[i]));
      }
      assert cams[..|cams|] == cams;
    }

    method DetectCameraTransitions(nodes: seq<Node>, now: real, after: real)
      returns (newlyDown: seq<CameraKey>, recovered: seq<CameraKey>)
      modifies `candidateDown, `notifiedDown
      ensures var t := SeeAllCameras(old(candidateDown), old(notifiedDown), nodes, now, after);
              && (candidateDown, notifiedDown) == CameraState(t)
              && newlyDown == t.down && recovered == t.recovered
    {
      hide SeeNodeCameras, IsOffline;
      var t := CameraTick(candidateDown, notifiedDown, {}, [], []);
      for i := 0 to |nodes|
        invariant t == SeeAllCameras(old(candidateDown), old(notifiedDown), nodes[..i], now, after)
        invariant t.candidate == candidateDown && t.notified == notifiedDown
      {
        assert nodes[..i + 1][..i] == nodes[..i];
        t := CheckNode(t, nodes[i], IsOffline(nodes[i], now, after));
      }
      assert nodes[..|nodes|] == nodes;
      candidateDown := candidateDown * t.seen;
      notifiedDown := notifiedDown * t.seen;
      newlyDown, recovered := t.down, t.recovered;
    }
  }
}
