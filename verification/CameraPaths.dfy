/** Unique stream paths of cameras (repository/camera_repo.py). */
module CameraPaths {
  import opened Options
  import opened Decimal

  /** The i-th fallback name: `preferred_i`. */
  function Candidate(preferred: string, i: nat): string {
    preferred + "_" + Pad(i, 0)
  }

  lemma CandidatesDiffer(preferred: string, i: nat, j: nat)
    ensures Candidate(preferred, i) == Candidate(preferred, j) <==> i == j
    ensures Candidate(preferred, i) != preferred
  {
    var a, b := Candidate(preferred, i), Candidate(preferred, j);
    if a == b {
      assert Pad(i, 0) == a[|preferred| + 1..] == b[|preferred| + 1..] == Pad(j, 0);
      PadInjective(i, j, 0);
    }
    assert |a| > |preferred|;
  }

  /** The names tried before candidate i. */
  function Tried(preferred: string, i: nat): set<string>
    requires i >= 2
  {
    if i == 2 then {preferred} else Tried(preferred, i - 1) + {Candidate(preferred, i - 1)}
  }

  /** No name is tried twice, so i - 1 of them are behind candidate i. */
  lemma {:induction false} TriedCount(preferred: string, i: nat)
    requires i >= 2
    ensures |Tried(preferred, i)| == i - 1
    ensures forall j: nat :: i <= j ==> Candidate(preferred, j) !in Tried(preferred, i)
  {
    forall j: nat | i <= j
      ensures Candidate(preferred, j) != preferred && Candidate(preferred, j) != Candidate(preferred, i - 1)
    {
      CandidatesDiffer(preferred, j, i - 1);
    }
    if i > 2 {
      TriedCount(preferred, i - 1);
    }
  }

  lemma CardinalityGrows(a: set<string>, b: set<string>)
    requires a <= b
    ensures |a| <= |b|
  {
    assert b == a + (b - a);
  }

  /** `path` is the preferred name, or its fallback with the smallest free suffix. */
  ghost predicate Allocates(taken: set<string>, preferred: string, path: string) {
    && path !in taken
    && (preferred !in taken ==> path == preferred)
    && (preferred in taken ==> exists i: nat :: FirstFreeSuffix(taken, preferred, i) && path == Candidate(preferred, i))
  }

  /** Among |taken| + 1 names one is free, so the suffix never exceeds |taken| + 1. */
  ghost predicate FirstFreeSuffix(taken: set<string>, preferred: string, i: nat) {
    && 2 <= i <= |taken| + 1
    && Candidate(preferred, i) !in taken
    && forall j: nat :: 2 <= j < i ==> Candidate(preferred, j) in taken
  }

  method AllocateMediamtxPath(taken: set<string>, preferred: string) returns (path: string)
    ensures Allocates(taken, preferred, path)
  {
    if preferred !in taken {
      return preferred;
    }
    var i: nat := 2;
    TriedFits(taken, preferred, i);
    while true
      invariant 2 <= i <= |taken| + 1
      invariant Tried(preferred, i) <= taken
      invariant forall j: nat :: 2 <= j < i ==> Candidate(preferred, j) in taken
      decreases |taken| + 2 - i
    {
      var candidate := Candidate(preferred, i);
      if candidate !in taken {
        assert FirstFreeSuffix(taken, preferred, i);
        return candidate;
      }
      i := i + 1;
      TriedFits(taken, preferred, i);
    }
  }

  /** The pigeonhole bound: taken names have room for everything tried so far. */
  lemma TriedFits(taken: set<string>, preferred: string, i: nat)
    requires 2 <= i && Tried(preferred, i) <= taken
    ensures i <= |taken| + 1
  {
    TriedCount(preferred, i);
    CardinalityGrows(Tried(preferred, i), taken);
  }

  /** The taken names determine the result. */
  lemma AllocationUnique(taken: set<string>, preferred: string, p: string, q: string)
    requires Allocates(taken, preferred, p) && Allocates(taken, preferred, q)
    ensures p == q
  {
  }

  // ---- The table ----

  type Paths = seq<Option<string>>

  function Taken(paths: Paths): set<string> {
    set p | p in paths && p.Some? :: p.value
  }

  /** No two cameras share a path; a camera may have none. */
  ghost predicate PathsDistinct(paths: Paths) {
    forall i, j :: 0 <= i < j < |paths| && paths[i].Some? ==> paths[i] != paths[j]
  }

  function Wanted(path: Option<string>, slug: string): string {
    if path.Some? && path.value != "" then path.value else slug
  }

  class Camera {
    var mediamtxPath: Option<string>

    constructor (path: string)
      ensures mediamtxPath == Some(path)
    {
      mediamtxPath := Some(path);
    }
  }

  class CameraRepo {
    var cameras: seq<Camera>

    ghost predicate Valid()
      reads this
    {
      forall i, j :: 0 <= i < j < |cameras| ==> cameras[i] != cameras[j]
    }

    /** What the select over mediamtx_path returns. */
    function CurrentPaths(): (r: Paths)
      reads this, cameras
      ensures |r| == |cameras| && forall i :: 0 <= i < |r| ==> r[i] == cameras[i].mediamtxPath
    {
      seq(|cameras|, i requires 0 <= i < |cameras| reads this, cameras => cameras[i].mediamtxPath)
    }

    constructor ()
      ensures Valid() && CurrentPaths() == []
    {
      cameras := [];
    }

    /** `slug` is the slug of the camera's name, used when no path is given or the given one is empty. */
    method CreateCamera(storeInOrg: bool, path: Option<string>, slug: string) returns (cam: Camera?)
      requires Valid()
      modifies this
      ensures Valid() && (cam == null <==> !storeInOrg)
      ensures cam == null ==> CurrentPaths() == old(CurrentPaths())
      ensures cam != null ==> fresh(cam) && cameras == old(cameras) + [cam]
      ensures cam != null ==>
        Step(old(CurrentPaths()), Create(if path == None || path == Some("") then slug else path.value), CurrentPaths())
    {
      if !storeInOrg {
        return null;
      }
      var before := CurrentPaths();
      var chosen := AllocateMediamtxPath(Taken(before), Wanted(path, slug));
      cam := new Camera(chosen);
      cameras := cameras + [cam];
      assert CurrentPaths() == before + [Some(chosen)];
    }

    method UpdateCamera(k: nat, path: Option<string>)
      requires Valid() && k < |cameras|
      modifies cameras[k]
      ensures Step(old(CurrentPaths()), Update(k, path), CurrentPaths())
    {
      var before := CurrentPaths();
      if path.Some? && path != cameras[k].mediamtxPath {
        var chosen := AllocateMediamtxPath(Taken(before), path.value);
        cameras[k].mediamtxPath := Some(chosen);
        assert CurrentPaths() == before[k := Some(chosen)];
      } else {
        assert CurrentPaths() == before;
      }
    }

    method DeleteCamera(k: nat)
      requires Valid() && k < |cameras|
      modifies this
      ensures Valid() && cameras == old(cameras)[..k] + old(cameras)[k + 1..]
      ensures Step(old(CurrentPaths()), Delete(k), CurrentPaths())
    {
      var before := CurrentPaths();
      cameras := cameras[..k] + cameras[k + 1..];
      assert CurrentPaths() == before[..k] + before[k + 1..];
    }
  }

  // ---- Any serial run ----

  datatype Op = Create(wanted: string) | Update(k: nat, path: Option<string>) | Delete(k: nat)

  ghost predicate Step(paths: Paths, op: Op, next: Paths) {
    match op
    case Create(wanted) =>
      exists p :: Allocates(Taken(paths), wanted, p) && next == paths + [Some(p)]
    case Update(k, path) =>
      && k < |paths|
      && (if path.Some? && path != paths[k]
          then exists p :: Allocates(Taken(paths), path.value, p) && next == paths[k := Some(p)]
          else next == paths)
    case Delete(k) => k < |paths| && next == paths[..k] + paths[k + 1..]
  }

  lemma StepKeepsDistinct(paths: Paths, op: Op, next: Paths)
    requires PathsDistinct(paths) && Step(paths, op, next)
    ensures PathsDistinct(next)
  {
  }

  /** States of a run: each follows from the one before by one operation. */
  ghost predicate Trace(states: seq<Paths>, ops: seq<Op>) {
    |states| == |ops| + 1 && forall i :: 0 <= i < |ops| ==> Step(states[i], ops[i], states[i + 1])
  }

  /** From distinct paths, every state of every serial run has distinct paths. */
  lemma {:induction false} RunKeepsDistinct(states: seq<Paths>, ops: seq<Op>, n: nat)
    requires Trace(states, ops) && n < |states| && PathsDistinct(states[0])
    ensures PathsDistinct(states[n])
  {
    if n > 0 {
      RunKeepsDistinct(states, ops, n - 1);
      StepKeepsDistinct(states[n - 1], ops[n - 1], states[n]);
    }
  }

  /** An update changes a camera's path exactly when it asks for another one: the camera's own name counts as taken. */
  lemma UpdateMovesExactly(paths: Paths, k: nat, path: Option<string>, next: Paths)
    requires k < |paths| && Step(paths, Update(k, path), next)
    ensures next[k] == paths[k] <==> path == None || path == paths[k]
  {
  }

  /** So asking again for a name somebody else holds moves the camera each time: `a_2` becomes `a_3`. */
  lemma AskingAgainMoves(next: Paths)
    requires Step([Some("a"), Some("a_2")], Update(1, Some("a")), next)
    ensures next[1] == Some("a_3")
  {
    var paths: Paths := [Some("a"), Some("a_2")];
    var taken := Taken(paths);
    assert paths[0] in paths && paths[1] in paths;
    assert Candidate("a", 2) == "a_2" && Candidate("a", 3) == "a_3";
    assert taken == {"a", "a_2"};
    var p :| Allocates(taken, "a", p) && next == paths[1 := Some(p)];
    var i: nat :| FirstFreeSuffix(taken, "a", i) && p == Candidate("a", i);
    assert i == 3;
  }
}
