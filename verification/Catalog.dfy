/** Upgrading a stored behavior catalog to the current release (api/v1/behaviors.py). */
module Catalog {
  import opened Options

  datatype Texts = Texts(name: string, description: string)

  /** One built-in criterion as the release defines it. */
  datatype Meta = Meta(key: string, texts: Texts, weight: real, category: string, level: int, hasDetector: bool)

  /** A stored criterion. None stands for a field the stored dictionary lacks; a missing `builtin` reads as false. */
  datatype Dim = Dim(key: string, texts: Texts, weight: real, active: Option<bool>, category: Option<string>,
                     level: Option<int>, hasDetector: Option<bool>, params: Option<map<string, real>>, builtin: bool)

  /** What one release of the program ships: built-ins, their tuning defaults, engine knobs and thresholds. */
  datatype Release = Release(meta: seq<Meta>, detectorParams: map<string, map<string, real>>,
                             engine: map<string, real>, thresholds: map<string, real>)

  /** The stored row. */
  datatype Config = Config(dims: seq<Dim>, thresholds: map<string, real>, engine: map<string, real>)

  function BuiltinKeys(rel: Release): set<string> {
    set m | m in rel.meta :: m.key
  }

  /** Built-in keys are distinct and the default thresholds have the v2 cut. */
  ghost predicate Sound(rel: Release) {
    && (forall i, j :: 0 <= i < j < |rel.meta| ==> rel.meta[i].key != rel.meta[j].key)
    && "high_max" in rel.thresholds
  }

  function DefaultParams(rel: Release, key: string): map<string, real> {
    if key in rel.detectorParams then rel.detectorParams[key] else map[]
  }

  function SeedOne(rel: Release, m: Meta): Dim {
    Dim(m.key, m.texts, m.weight, Some(m.hasDetector), Some(m.category), Some(m.level), Some(m.hasDetector),
        Some(DefaultParams(rel, m.key)), true)
  }

  function SeedDimensions(rel: Release): seq<Dim> {
    seq(|rel.meta|, i requires 0 <= i < |rel.meta| => SeedOne(rel, rel.meta[i]))
  }

  /** The lookup by key; of entries with one key the last wins. */
  function ByKey(dims: seq<Dim>, key: string): Option<Dim> {
    if dims == [] then None
    else if dims[|dims| - 1].key == key then Some(dims[|dims| - 1])
    else ByKey(dims[..|dims| - 1], key)
  }

  predicate IsV2(rel: Release, c: Config) {
    && "high_max" in c.thresholds
    && (forall m :: m in rel.meta ==> ByKey(c.dims, m.key).Some?)
    && (forall d :: d in c.dims && d.builtin ==> d.hasDetector.Some?)
  }

  // ---- What the upgrade does, entry by entry ----

  predicate Retired(rel: Release, d: Dim) {
    d.builtin && d.key !in BuiltinKeys(rel)
  }

  function Kept(rel: Release, dims: seq<Dim>): seq<Dim> {
    if dims == [] then []
    else Kept(rel, dims[..|dims| - 1]) + (if Retired(rel, dims[|dims| - 1]) then [] else [dims[|dims| - 1]])
  }

  predicate IsCustom(rel: Release, d: Dim) {
    !d.builtin && d.key !in BuiltinKeys(rel)
  }

  function Custom(rel: Release, dims: seq<Dim>): seq<Dim> {
    if dims == [] then []
    else Custom(rel, dims[..|dims| - 1]) + (if IsCustom(rel, dims[|dims| - 1]) then [dims[|dims| - 1]] else [])
  }

  /** A built-in without tuning parameters gains the default ones. */
  function Backfilled(rel: Release, d: Dim): Dim {
    if d.builtin && d.params.None? then d.(params := Some(DefaultParams(rel, d.key))) else d
  }

  function BackfillAll(rel: Release, dims: seq<Dim>): (r: seq<Dim>)
    ensures |r| == |dims| && forall i :: 0 <= i < |r| ==> r[i] == Backfilled(rel, dims[i])
  {
    seq(|dims|, i requires 0 <= i < |dims| => Backfilled(rel, dims[i]))
  }

  /** A re-seeded built-in keeps the stored on/off switch. */
  function Toggled(dims: seq<Dim>, seed: Dim): Dim {
    var stored := ByKey(dims, seed.key);
    if stored.Some? && stored.value.active.Some? then seed.(active := stored.value.active) else seed
  }

  function Reseeded(rel: Release, dims: seq<Dim>): (r: seq<Dim>)
    ensures |r| == |rel.meta| && forall i :: 0 <= i < |r| ==> r[i] == Toggled(dims, SeedOne(rel, rel.meta[i]))
  {
    seq(|rel.meta|, i requires 0 <= i < |rel.meta| => Toggled(dims, SeedOne(rel, rel.meta[i])))
  }

  function Reconciled(rel: Release, c: Config): Config {
    if IsV2(rel, c) then Config(BackfillAll(rel, Kept(rel, c.dims)), c.thresholds, rel.engine + c.engine)
    else Config(Reseeded(rel, c.dims) + Custom(rel, c.dims), rel.thresholds, rel.engine)
  }

  // ---- The upgrade ----

  /** Seeds for the built-ins among the first n that the stored row does not have. */
  function MissingSeeds(rel: Release, stored: seq<Dim>, n: nat): seq<Dim>
    requires n <= |rel.meta|
  {
    if n == 0 then []
    else
      var m := rel.meta[n - 1];
      MissingSeeds(rel, stored, n - 1) + (if ByKey(stored, m.key).None? then [SeedOne(rel, m)] else [])
  }

  /** The append loop of the v2 path … */
  method AppendMissing(rel: Release, stored: seq<Dim>, kept: seq<Dim>) returns (dims: seq<Dim>)
    ensures dims == kept + MissingSeeds(rel, stored, |rel.meta|)
  {
    dims := kept;
    hide SeedOne, ByKey;
    for i := 0 to |rel.meta|
      invariant dims == kept + MissingSeeds(rel, stored, i)
    {
      if ByKey(stored, rel.meta[i].key).None? {
        dims := dims + [SeedOne(rel, rel.meta[i])];
      }
    }
  }

  /** … never finds anything to append, because a row without one of the built-ins is not on that path. */
  lemma {:induction false} NothingToAppend(rel: Release, c: Config, n: nat)
    requires IsV2(rel, c) && n <= |rel.meta|
    ensures MissingSeeds(rel, c.dims, n) == []
  {
    if n > 0 {
      NothingToAppend(rel, c, n - 1);
      assert rel.meta[n - 1] in rel.meta;
    }
  }

  /** Gives each stored built-in that lacks them its default tuning parameters, in place. */
  method BackfillParams(rel: Release, dims: seq<Dim>) returns (r: seq<Dim>, added: bool)
    ensures r == BackfillAll(rel, dims)
    ensures added <==> r != dims
  {
    r, added := dims, false;
    hide DefaultParams;
    for i := 0 to |dims|
      invariant |r| == |dims|
      invariant forall k :: 0 <= k < i ==> r[k] == Backfilled(rel, dims[k])
      invariant forall k :: i <= k < |dims| ==> r[k] == dims[k]
      invariant added <==> exists k :: 0 <= k < i && dims[k].builtin && dims[k].params.None?
    {
      if r[i].builtin && r[i].params.None? {
        r := r[i := r[i].(params := Some(DefaultParams(rel, r[i].key)))];
        added := true;
      }
    }
    BackfillFixes(rel, dims);
  }

  /** Everything but the knobs in `todo` has been looked at. */
  ghost predicate Filling<K, V>(filled: map<K, V>, defaults: map<K, V>, engine: map<K, V>, todo: set<K>) {
    && filled.Keys == engine.Keys + (defaults.Keys - todo)
    && forall k :: k in filled ==> filled[k] == if k in engine then engine[k] else defaults[k]
  }

  lemma FillingStep<K, V>(filled: map<K, V>, defaults: map<K, V>, engine: map<K, V>, todo: set<K>, k: K)
    requires todo <= defaults.Keys && k in todo && Filling(filled, defaults, engine, todo)
    ensures Filling(if k in filled then filled else filled[k := defaults[k]], defaults, engine, todo - {k})
    ensures k in filled <==> k in engine
  {
  }

  lemma FillingDone<K, V>(filled: map<K, V>, defaults: map<K, V>, engine: map<K, V>)
    requires Filling(filled, defaults, engine, {})
    ensures filled == defaults + engine
    ensures filled == engine <==> defaults.Keys <= engine.Keys
  {
  }

  /** Gives the row every engine knob it does not have; stored values stay. */
  method FillEngine<K(==), V(!new)>(defaults: map<K, V>, engine: map<K, V>) returns (filled: map<K, V>, added: bool)
    ensures filled == defaults + engine
    ensures added <==> filled != engine
  {
    filled, added := engine, false;
    var todo := defaults.Keys;
    while todo != {}
      invariant todo <= defaults.Keys && Filling(filled, defaults, engine, todo)
      invariant added <==> exists k :: k in defaults.Keys - todo && k !in engine
      decreases |todo|
    {
      var k :| k in todo;
      FillingStep(filled, defaults, engine, todo, k);
      hide Filling;
      todo := todo - {k};
      if k !in filled {
        filled := filled[k := defaults[k]];
        added := true;
      }
    }
    FillingDone(filled, defaults, engine);
  }

  /** The freshly seeded built-ins with the stored switches put back, in place. */
  method RestoreToggles(rel: Release, dims: seq<Dim>) returns (builtins: seq<Dim>)
    ensures builtins == Reseeded(rel, dims)
  {
    builtins := SeedDimensions(rel);
    hide SeedOne, ByKey;
    for i := 0 to |builtins|
      invariant |builtins| == |rel.meta|
      invariant forall k :: 0 <= k < i ==> builtins[k] == Toggled(dims, SeedOne(rel, rel.meta[k]))
      invariant forall k :: i <= k < |builtins| ==> builtins[k] == SeedOne(rel, rel.meta[k])
    {
      var stored := ByKey(dims, builtins[i].key);
      if stored.Some? && stored.value.active.Some? {
        builtins := builtins[i := builtins[i].(active := stored.value.active)];
      }
    }
  }

  /** The v2 path: prune, append, backfill, fill, noting each change. */
  method UpgradeV2(rel: Release, c: Config) returns (r: Config, changed: bool)
    requires IsV2(rel, c)
    ensures r == Config(BackfillAll(rel, Kept(rel, c.dims)), c.thresholds, rel.engine + c.engine)
    ensures changed <==> r != c
  {
    changed := false;
    var dims, kept := c.dims, Kept(rel, c.dims);
    KeptAll(rel, c.dims);
    NothingToAppend(rel, c, |rel.meta|);
    hide IsV2, Kept, Retired, MissingSeeds, BackfillAll;
    assert |kept| == |dims| ==> kept == dims;
    if |kept| != |dims| {
      dims := kept;
      changed := true;
    }
    var appended := AppendMissing(rel, c.dims, dims);
    var backfilled, added := BackfillParams(rel, appended);
    var filled, grown := FillEngine(rel.engine, c.engine);
    changed := changed || |appended| != |dims| || added || grown;
    r := Config(backfilled, c.thresholds, filled);
  }

  class BehaviorConfig {
    var dims: seq<Dim>
    var thresholds: map<string, real>
    var engine: map<string, real>

    function Value(): Config
      reads this
    {
      Config(dims, thresholds, engine)
    }

    /** The flag is exact: it says whether the stored row is any different now. */
    method ReconcileV2(rel: Release) returns (changed: bool)
      requires Sound(rel)
      modifies this
      ensures Value() == Reconciled(rel, old(Value()))
      ensures changed <==> Value() != old(Value())
    {
      ghost var before := Value();
      if IsV2(rel, Value()) {
        var upgraded;
        upgraded, changed := UpgradeV2(rel, Value());
        dims, engine := upgraded.dims, upgraded.engine;
      } else {
        ReseedSettled(rel, before);
        var builtins := RestoreToggles(rel, dims);
        hide IsV2, Custom, Reseeded;
        dims := builtins + Custom(rel, dims);
        thresholds, engine := rel.thresholds, rel.engine;
        changed := true;
      }
    }
  }

  // ---- Filters ----

  lemma {:induction false} KeptMembers(rel: Release, dims: seq<Dim>)
    ensures forall d :: d in Kept(rel, dims) <==> d in dims && !Retired(rel, d)
  {
    hide Retired;
    if dims != [] {
      var front, last := dims[..|dims| - 1], dims[|dims| - 1];
      KeptMembers(rel, front);
      assert dims == front + [last];
    }
  }

  lemma {:induction false} KeptSize(rel: Release, dims: seq<Dim>)
    ensures |Kept(rel, dims)| <= |dims|
    ensures |Kept(rel, dims)| == |dims| ==> Kept(rel, dims) == dims
  {
    hide Retired;
    if dims != [] {
      KeptSize(rel, dims[..|dims| - 1]);
    }
  }

  lemma {:induction false} NoneRetired(rel: Release, dims: seq<Dim>)
    requires forall d :: d in dims ==> !Retired(rel, d)
    ensures Kept(rel, dims) == dims
  {
    hide Retired;
    if dims != [] {
      NoneRetired(rel, dims[..|dims| - 1]);
    }
  }

  lemma KeptAll(rel: Release, dims: seq<Dim>)
    ensures |Kept(rel, dims)| == |dims| <==> forall d :: d in dims ==> !Retired(rel, d)
    ensures |Kept(rel, dims)| == |dims| ==> Kept(rel, dims) == dims
    ensures forall d :: d in Kept(rel, dims) <==> d in dims && !Retired(rel, d)
  {
    KeptMembers(rel, dims);
    KeptSize(rel, dims);
    hide Retired, Kept;
    if forall d :: d in dims ==> !Retired(rel, d) {
      NoneRetired(rel, dims);
    }
  }

  lemma {:induction false} ByKeyFinds(dims: seq<Dim>, key: string)
    ensures ByKey(dims, key).Some? <==> exists d :: d in dims && d.key == key
    ensures ByKey(dims, key).Some? ==> ByKey(dims, key).value in dims && ByKey(dims, key).value.key == key
  {
    if dims != [] {
      var front, last := dims[..|dims| - 1], dims[|dims| - 1];
      ByKeyFinds(front, key);
      assert dims == front + [last];
      assert last in dims;
    }
  }

  // ---- Fixed points ----

  /** Nothing is left to upgrade. */
  ghost predicate Settled(rel: Release, c: Config) {
    && IsV2(rel, c)
    && (forall d :: d in c.dims ==> !Retired(rel, d) && (d.builtin ==> d.params.Some?))
    && rel.engine.Keys <= c.engine.Keys
  }

  lemma BackfillFixes(rel: Release, dims: seq<Dim>)
    ensures BackfillAll(rel, dims) == dims <==> forall d :: d in dims && d.builtin ==> d.params.Some?
  {
  }

  lemma EngineFixes(defaults: map<string, real>, engine: map<string, real>)
    ensures defaults + engine == engine <==> defaults.Keys <= engine.Keys
  {
  }

  /** The upgrade leaves a row alone exactly when nothing is left to upgrade. */
  lemma SettledExactly(rel: Release, c: Config)
    requires Sound(rel)
    ensures Reconciled(rel, c) == c <==> Settled(rel, c)
  {
    if IsV2(rel, c) {
      KeptAll(rel, c.dims);
      BackfillFixes(rel, Kept(rel, c.dims));
      EngineFixes(rel.engine, c.engine);
    } else {
      ResultSettled(rel, c);
    }
  }

  /** What it returns is settled, whatever it was given. */
  lemma ResultSettled(rel: Release, c: Config)
    requires Sound(rel)
    ensures Settled(rel, Reconciled(rel, c))
  {
    if IsV2(rel, c) {
      V2ResultSettled(rel, c);
    } else {
      ReseedSettled(rel, c);
    }
  }

  lemma V2ResultSettled(rel: Release, c: Config)
    requires IsV2(rel, c)
    ensures Settled(rel, Reconciled(rel, c))
  {
    var kept := Kept(rel, c.dims);
    var dims := BackfillAll(rel, kept);
    KeptAll(rel, c.dims);
    hide Kept, DefaultParams;
    forall d | d in dims ensures !Retired(rel, d) && (d.builtin ==> d.params.Some? && d.hasDetector.Some?) {
      var i :| 0 <= i < |dims| && dims[i] == d;
      assert kept[i] in kept;
    }
    forall m | m in rel.meta ensures ByKey(dims, m.key).Some? {
      ByKeyFinds(c.dims, m.key);
      var d := ByKey(c.dims, m.key).value;
      assert d in kept;
      var i :| 0 <= i < |kept| && kept[i] == d;
      assert dims[i].key == m.key && dims[i] in dims;
      ByKeyFinds(dims, m.key);
    }
  }

  lemma ReseedSettled(rel: Release, c: Config)
    requires Sound(rel)
    ensures Settled(rel, Config(Reseeded(rel, c.dims) + Custom(rel, c.dims), rel.thresholds, rel.engine))
  {
    var builtins, custom := Reseeded(rel, c.dims), Custom(rel, c.dims);
    var dims := builtins + custom;
    CustomOnly(rel, c.dims);
    hide Custom, DefaultParams, ByKey;
    forall d | d in dims ensures !Retired(rel, d) && (d.builtin ==> d.params.Some? && d.hasDetector.Some?) {
      if d in builtins {
        var i :| 0 <= i < |builtins| && builtins[i] == d;
        assert d.key == rel.meta[i].key && rel.meta[i] in rel.meta;
      }
    }
    forall m | m in rel.meta ensures ByKey(dims, m.key).Some? {
      var i :| 0 <= i < |rel.meta| && rel.meta[i] == m;
      assert builtins[i].key == m.key && builtins[i] in dims;
      ByKeyFinds(dims, m.key);
    }
  }

  lemma {:induction false} CustomOnly(rel: Release, dims: seq<Dim>)
    ensures forall d :: d in Custom(rel, dims) <==> d in dims && IsCustom(rel, d)
  {
    hide IsCustom;
    if dims != [] {
      var front, last := dims[..|dims| - 1], dims[|dims| - 1];
      CustomOnly(rel, front);
      assert dims == front + [last];
    }
  }

  /** Upgrading twice is upgrading once. */
  lemma Idempotent(rel: Release, c: Config)
    requires Sound(rel)
    ensures Reconciled(rel, Reconciled(rel, c)) == Reconciled(rel, c)
  {
    ResultSettled(rel, c);
    SettledExactly(rel, Reconciled(rel, c));
  }

  // ---- The shipped release ----

  const KEYS: seq<string> := [
    "looking_around", "loitering", "repeated_shelf_visit", "rapid_movement",
    "item_pickup", "wrist_to_torso", "body_block", "crouch", "bag_interaction", "pocket_interaction",
    "group_distraction", "coordinated_activity", "concealment_sequence", "exit_after_concealment"]

  const WEIGHTS: seq<real> := [2.0, 3.0, 3.0, 2.0, 10.0, 12.0, 5.0, 2.0, 15.0, 12.0, 20.0, 15.0, 30.0, 50.0]

  /** Severity levels 1 to 4 group the criteria; only the two multi-person criteria of level 3 have no detector. */
  function LevelOf(i: nat): int {
    if i < 4 then 1 else if i < 10 then 2 else if i < 12 then 3 else 4
  }

  function CategoryOf(level: int): string {
    if level == 1 then "suspicious"
    else if level == 2 then "concealment"
    else if level == 3 then "organized"
    else "critical"
  }

  /** The display texts are a parameter. */
  function Shipped(texts: string -> Texts): Release {
    Release(
      seq(14, i requires 0 <= i < 14 =>
        Meta(KEYS[i], texts(KEYS[i]), WEIGHTS[i], CategoryOf(LevelOf(i)), LevelOf(i), LevelOf(i) != 3)),
      map["looking_around" := map["offset_frac" := 0.15],
          "body_block" := map["collapse_frac" := 0.55, "ema_alpha" := 0.1],
          "crouch" := map["frac" := 0.15, "hold_floor" := 5.0],
          "wrist_to_torso" := map["frac" := 0.15, "cadence" := 8.0],
          "pocket_interaction" := map["radius_frac" := 0.12],
          "rapid_movement" := map["frac" := 0.08],
          "loitering" := map["seconds" := 30.0]],
      map["smooth_frames" := 3.0, "decay_idle" := 0.98, "decay_holding" := 0.999,
          "sequence_window_sec" := 60.0, "loiter_radius_frac" := 0.25, "stale_track_sec" := 5.0],
      map["green_max" := 10.0, "yellow_max" := 25.0, "high_max" := 50.0])
  }

  lemma ShippedIsSound(texts: string -> Texts)
    ensures Sound(Shipped(texts))
  {
    var rel := Shipped(texts);
    assert forall i, j :: 0 <= i < j < 14 ==> KEYS[i] != KEYS[j];
    assert forall i :: 0 <= i < 14 ==> rel.meta[i].key == KEYS[i];
  }

  /** A freshly seeded row has nothing to upgrade. */
  lemma SeededIsSettled(rel: Release)
    requires Sound(rel)
    ensures Settled(rel, Config(SeedDimensions(rel), rel.thresholds, rel.engine))
  {
    var empty := Config([], map[], map[]);
    ReseedSettled(rel, empty);
    assert Reseeded(rel, []) + Custom(rel, []) == SeedDimensions(rel);
  }

  /**
   A seed holds what the release says of its criterion: on, and marked as such, if and only if it has a detector, and
   with its tuning defaults, if it has any.
   */
  lemma SeedsHold(rel: Release, i: nat)
    requires i < |rel.meta|
    ensures |SeedDimensions(rel)| == |rel.meta|
    ensures var m, d := rel.meta[i], SeedDimensions(rel)[i];
      && d.key == m.key && d.texts == m.texts && d.weight == m.weight && d.builtin
      && d.category == Some(m.category) && d.level == Some(m.level)
      && d.active == Some(m.hasDetector) && d.hasDetector == Some(m.hasDetector)
      && d.params.Some?
      && d.params.value.Keys == (if m.key in rel.detectorParams then rel.detectorParams[m.key].Keys else {})
      && forall name :: name in d.params.value ==> d.params.value[name] == rel.detectorParams[m.key][name]
  {
  }

  // ---- What the operator keeps ----

  lemma {:induction false} CustomAppend(rel: Release, a: seq<Dim>, b: seq<Dim>)
    ensures Custom(rel, a + b) == Custom(rel, a) + Custom(rel, b)
  {
    hide IsCustom;
    if b == [] {
      assert a + b == a;
    } else {
      CustomAppend(rel, a, b[..|b| - 1]);
      assert (a + b)[..|a + b| - 1] == a + b[..|b| - 1];
    }
  }

  lemma {:induction false} CustomOfNone(rel: Release, dims: seq<Dim>)
    requires forall d :: d in dims ==> !IsCustom(rel, d)
    ensures Custom(rel, dims) == []
  {
    if dims != [] {
      CustomOfNone(rel, dims[..|dims| - 1]);
    }
  }

  lemma {:induction false} CustomOfCustom(rel: Release, dims: seq<Dim>)
    requires forall d :: d in dims ==> IsCustom(rel, d)
    ensures Custom(rel, dims) == dims
  {
    hide IsCustom;
    if dims != [] {
      CustomOfCustom(rel, dims[..|dims| - 1]);
    }
  }

  lemma KeptSnoc(rel: Release, dims: seq<Dim>)
    requires dims != []
    ensures var front, last := dims[..|dims| - 1], dims[|dims| - 1];
      var all := BackfillAll(rel, Kept(rel, front));
      BackfillAll(rel, Kept(rel, dims)) == if Retired(rel, last) then all else all + [Backfilled(rel, last)]
  {
  }

  /** Dropping retired built-ins and backfilling parameters does not touch custom criteria. */
  lemma {:induction false} CustomOfKept(rel: Release, dims: seq<Dim>)
    ensures Custom(rel, BackfillAll(rel, Kept(rel, dims))) == Custom(rel, dims)
  {
    if dims == [] {
      assert BackfillAll(rel, Kept(rel, dims)) == [];
    } else {
      var front, last := dims[..|dims| - 1], dims[|dims| - 1];
      CustomOfKept(rel, front);
      KeptSnoc(rel, dims);
      var all := BackfillAll(rel, Kept(rel, front));
      assert dims == front + [last];
      CustomSnoc(rel, all, Backfilled(rel, last));
      CustomSnoc(rel, front, last);
      hide Custom, Kept, BackfillAll, DefaultParams;
    }
  }

  lemma CustomSnoc(rel: Release, dims: seq<Dim>, d: Dim)
    ensures Custom(rel, dims + [d]) == Custom(rel, dims) + (if IsCustom(rel, d) then [d] else [])
  {
  }

  /** Operator-added criteria survive on both paths, unchanged and in order. */
  lemma CustomSurvives(rel: Release, c: Config)
    requires Sound(rel)
    ensures Custom(rel, Reconciled(rel, c).dims) == Custom(rel, c.dims)
  {
    if IsV2(rel, c) {
      CustomOfKept(rel, c.dims);
    } else {
      var builtins, custom := Reseeded(rel, c.dims), Custom(rel, c.dims);
      CustomOnly(rel, c.dims);
      CustomOfCustom(rel, custom);
      hide DefaultParams, ByKey;
      forall d | d in builtins ensures !IsCustom(rel, d) {
        var i :| 0 <= i < |builtins| && builtins[i] == d;
        assert d.builtin;
      }
      CustomOfNone(rel, builtins);
      CustomAppend(rel, builtins, custom);
    }
  }

  /** On the v2 path every entry that is not a retired built-in survives, at most gaining parameters it lacked. */
  lemma EditsSurvive(rel: Release, c: Config, d: Dim)
    requires IsV2(rel, c) && d in c.dims && !Retired(rel, d)
    ensures exists e :: e in Reconciled(rel, c).dims && e.(params := d.params) == d && (e == d || d.params.None?)
  {
    var kept := Kept(rel, c.dims);
    KeptAll(rel, c.dims);
    hide DefaultParams, Kept;
    assert d in kept;
    var i :| 0 <= i < |kept| && kept[i] == d;
    var dims := Reconciled(rel, c).dims;
    assert dims[i] in dims && dims[i] == Backfilled(rel, d);
  }

  lemma {:induction false} ByKeyOfKept(rel: Release, dims: seq<Dim>, key: string)
    requires key in BuiltinKeys(rel)
    ensures var found := ByKey(BackfillAll(rel, Kept(rel, dims)), key);
      found == if ByKey(dims, key).Some? then Some(Backfilled(rel, ByKey(dims, key).value)) else None
  {
    if dims == [] {
      assert Kept(rel, dims) == [];
    } else {
      var front, last := dims[..|dims| - 1], dims[|dims| - 1];
      ByKeyOfKept(rel, front, key);
      KeptSnoc(rel, dims);
      BackfilledKey(rel, last);
      assert dims == front + [last];
      var all, kept := BackfillAll(rel, Kept(rel, front)), Retired(rel, last);
      assert kept ==> last.key != key;
      hide Kept, BackfillAll, Backfilled, Retired, BuiltinKeys, ByKey;
      ByKeySnoc(front, last, key);
      ByKeySnoc(all, Backfilled(rel, last), key);
    }
  }

  lemma BackfilledKey(rel: Release, d: Dim)
    ensures Backfilled(rel, d).key == d.key
  {
  }

  lemma ByKeySnoc(dims: seq<Dim>, d: Dim, key: string)
    ensures ByKey(dims + [d], key) == if d.key == key then Some(d) else ByKey(dims, key)
  {
  }

  lemma {:induction false} ByKeyIs(dims: seq<Dim>, key: string, i: nat)
    requires i < |dims| && dims[i].key == key
    requires forall k :: i < k < |dims| ==> dims[k].key != key
    ensures ByKey(dims, key) == Some(dims[i])
  {
    if i < |dims| - 1 {
      ByKeyIs(dims[..|dims| - 1], key, i);
    }
  }

  /** On both paths a built-in's on/off switch is what the row said, the last entry of its key deciding. */
  lemma TogglesSurvive(rel: Release, c: Config, i: nat)
    requires Sound(rel) && i < |rel.meta|
    requires var stored := ByKey(c.dims, rel.meta[i].key); stored.Some? && stored.value.active.Some?
    ensures var key := rel.meta[i].key;
      var found := ByKey(Reconciled(rel, c).dims, key);
      found.Some? && found.value.active == ByKey(c.dims, key).value.active
  {
    var key := rel.meta[i].key;
    assert rel.meta[i] in rel.meta;
    if IsV2(rel, c) {
      ByKeyOfKept(rel, c.dims, key);
    } else {
      var builtins, custom := Reseeded(rel, c.dims), Custom(rel, c.dims);
      CustomOnly(rel, c.dims);
      hide DefaultParams, Custom;
      var dims := builtins + custom;
      forall k | i < k < |dims| ensures dims[k].key != key {
        if k >= |builtins| {
          assert dims[k] in custom;
        }
      }
      ByKeyIs(dims, key, i);
    }
  }

  /** Already v2 apart from built-ins the release has gained: it has the v2 cut and its built-ins are v2 entries. */
  ghost predicate SeededBefore(c: Config) {
    "high_max" in c.thresholds && forall d :: d in c.dims && d.builtin ==> d.hasDetector.Some?
  }

  /** Such a row keeps its edited thresholds exactly when no built-in is missing; one new built-in resets them all,
      though the upgrade is documented to add new built-ins and leave the rest. */
  lemma AdditiveExactly(rel: Release, c: Config)
    requires SeededBefore(c) && c.thresholds != rel.thresholds
    ensures Reconciled(rel, c).thresholds == c.thresholds <==> forall m :: m in rel.meta ==> ByKey(c.dims, m.key).Some?
  {
  }

  /** And with a built-in missing, every stored built-in's weight is reset to the release's. */
  lemma MissingBuiltinResetsWeights(rel: Release, c: Config, i: nat)
    requires Sound(rel) && i < |rel.meta|
    requires exists m :: m in rel.meta && ByKey(c.dims, m.key).None?
    ensures var found := ByKey(Reconciled(rel, c).dims, rel.meta[i].key);
      found.Some? && found.value.weight == rel.meta[i].weight
  {
    var builtins, custom := Reseeded(rel, c.dims), Custom(rel, c.dims);
    CustomOnly(rel, c.dims);
    hide DefaultParams, Custom;
    var dims, key := builtins + custom, rel.meta[i].key;
    assert rel.meta[i] in rel.meta;
    forall k | i < k < |dims| ensures dims[k].key != key {
      if k >= |builtins| {
        assert dims[k] in custom;
      }
    }
    ByKeyIs(dims, key, i);
  }

  /** A row of the first thirteen built-ins, with the high cut moved to 60 and the first weight to 9. */
  function EditedRow(rel: Release): Config
    requires |rel.meta| == 14
  {
    var dims := SeedDimensions(rel)[..13];
    Config(dims[0 := dims[0].(weight := 9.0)], rel.thresholds["high_max" := 60.0], rel.engine)
  }

  lemma EditedRowFacts(texts: string -> Texts)
    ensures var rel, c := Shipped(texts), EditedRow(Shipped(texts));
      && SeededBefore(c) && c.thresholds["high_max"] == 60.0 && c.dims[0].key == KEYS[0] && c.dims[0].weight == 9.0
      && rel.meta[0].key == KEYS[0] && rel.meta[0].weight == 2.0
      && rel.meta[13].key == KEYS[13] && ByKey(c.dims, KEYS[13]).None?
  {
    var rel := Shipped(texts);
    var c := EditedRow(rel);
    assert forall i :: 0 <= i < 13 ==> c.dims[i].key == rel.meta[i].key && rel.meta[i].key != rel.meta[13].key by {
      ShippedIsSound(texts);
    }
    ByKeyFinds(c.dims, rel.meta[13].key);
  }

  /** When the shipped release brings the fourteenth, that row loses both edits. */
  lemma NewBuiltinLosesEdits(texts: string -> Texts)
    ensures var rel := Shipped(texts);
      var c, r := EditedRow(rel), Reconciled(rel, EditedRow(rel));
      && SeededBefore(c) && c.thresholds["high_max"] == 60.0 && c.dims[0].key == KEYS[0] && c.dims[0].weight == 9.0
      && r.thresholds["high_max"] == 50.0
      && ByKey(r.dims, KEYS[0]).Some? && ByKey(r.dims, KEYS[0]).value.weight == 2.0
  {
    var rel := Shipped(texts);
    var c := EditedRow(rel);
    EditedRowFacts(texts);
    ShippedIsSound(texts);
    assert rel.thresholds["high_max"] == 50.0;
    hide Shipped, EditedRow, ByKey, SeedOne, Reseeded, Custom;
    assert rel.meta[13] in rel.meta;
    MissingBuiltinResetsWeights(rel, c, 0);
  }
}
