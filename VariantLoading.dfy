/**
  The viewer's variant loading (`loadVariants` in app/ModelViewer.js): for
  each of the seven motifs `motif-1` .. `motif-7`, in order, it loads the
  ten variant assets the manifest lists for that motif, one at a time,
  then picks the motif's initial active variant; at the end every motif's
  panel is closed.

  The GLTF loader is a parameter `load`: a path either yields a parsed
  scene or fails (`None`). A failure rejects the whole asynchronous load,
  so none of the three tables is ever published.
 */
module VariantLoading {
  import opened Wrappers
  import opened Text

  /** A parsed 3D asset. The model never looks inside one. */
  type Scene(!new)

  const MotifCount: nat := 7
  const VariantsPerMotif: nat := 10
  const BaseModelKey := "base_model"

  /** The key of motif `i`: "motif-" followed by `i` in decimal. */
  function MotifKey(i: nat): string {
    "motif-" + NatToDecimal(i)
  }

  lemma MotifKeyInjective(a: nat, b: nat)
    ensures MotifKey(a) == MotifKey(b) <==> a == b
  {
    PrefixedDecimalInjective("motif-", a, b);
  }

  /** A motif key is never the base model's key. */
  lemma MotifKeyIsNotBaseModel(i: nat)
    ensures MotifKey(i) != BaseModelKey
  {
    assert MotifKey(i)[0] == 'm' && BaseModelKey[0] == 'b';
  }

  /** `motif-1` .. `motif-7`, in the order the outer loop visits them. */
  function MotifKeys(): (keys: seq<string>)
    ensures |keys| == MotifCount
    ensures forall n :: 0 <= n < MotifCount ==> keys[n] == MotifKey(n + 1)
  {
    seq(MotifCount, n requires 0 <= n < MotifCount => MotifKey(n + 1))
  }

  lemma MotifKeysDistinct()
    ensures Distinct(MotifKeys())
  {
    var keys := MotifKeys();
    forall n | 0 <= n < |keys| ensures IndexOf(keys, keys[n]) == n {
      var first := IndexOf(keys, keys[n]);
      MotifKeyInjective(first + 1, n + 1);
    }
  }

  function KeySet(keys: seq<string>): set<string> {
    set m | m in keys
  }

  /** The contents of models.json that the variants depend on: its keys in
      file order and, for every key other than the base model's, a list of
      asset paths (without the `.glb` extension). The base model's own path
      feeds only the base-model load, which is not modelled. */
  datatype Manifest = Manifest(keys: seq<string>, lists: map<string, seq<string>>)

  /** The position of the first `x` in `s`, or `|s|` when there is none. */
  function IndexOf(s: seq<string>, x: string): (n: nat)
    ensures n <= |s|
    ensures n < |s| ==> s[n] == x
    ensures forall k :: 0 <= k < n ==> s[k] != x
  {
    if s == [] then 0
    else if s[0] == x then 0
    else 1 + IndexOf(s[1..], x)
  }

  /** No key occurs twice: each one's first occurrence is its own position. */
  predicate Distinct(s: seq<string>) {
    forall n :: 0 <= n < |s| ==> IndexOf(s, s[n]) == n
  }

  /** A sequence with a head is distinct exactly when its tail is and does
      not hold the head. */
  lemma DistinctCons(x: string, s: seq<string>)
    ensures Distinct([x] + s) <==> x !in s && Distinct(s)
  {
    var t := [x] + s;
    assert t[1..] == s;
    if Distinct(t) {
      forall n | 0 <= n < |s| ensures s[n] != x && IndexOf(s, s[n]) == n {
        assert IndexOf(t, t[n + 1]) == n + 1;
      }
    }
    if x !in s && Distinct(s) {
      forall n | 0 <= n < |t| ensures IndexOf(t, t[n]) == n {
        if n > 0 {
          assert t[n] == s[n - 1];
        }
      }
    }
  }

  /** The shape a parsed JSON object has: distinct keys, `base_model` among
      them, and a list for every other key. */
  predicate WellFormed(m: Manifest) {
    && Distinct(m.keys)
    && BaseModelKey in m.keys
    && (forall k :: k in m.lists ==> k in m.keys && k != BaseModelKey)
    && (forall k :: k in m.keys && k != BaseModelKey ==> k in m.lists)
  }

  /** The path of variant `j`: entry `j - 1` of the motif's list plus ".glb".
      Past the end of the list the entry is undefined, which concatenates
      as the text "undefined". */
  function VariantPath(list: seq<string>, j: nat): string
    requires 1 <= j
  {
    (if j - 1 < |list| then list[j - 1] else "undefined") + ".glb"
  }

  /** The ten paths the inner loop loads for one motif, in order. */
  function MotifPaths(list: seq<string>): (paths: seq<string>)
    ensures |paths| == VariantsPerMotif
    ensures forall n :: 0 <= n < VariantsPerMotif ==> paths[n] == VariantPath(list, n + 1)
    ensures forall n :: 0 <= n < VariantsPerMotif && n < |list| ==> paths[n] == list[n] + ".glb"
  {
    seq(VariantsPerMotif, n requires 0 <= n < VariantsPerMotif => VariantPath(list, n + 1))
  }

  /** The paths requested for the motifs `keys`, in order, stopping at the
      first motif the manifest does not list (indexing its missing list
      throws before anything is requested for it). */
  function PlanOver(lists: map<string, seq<string>>, keys: seq<string>): seq<string> {
    if keys == [] || keys[0] !in lists then []
    else MotifPaths(lists[keys[0]]) + PlanOver(lists, keys[1..])
  }

  /** Every path loadVariants asks the loader for, in request order. */
  function LoadPlan(lists: map<string, seq<string>>): seq<string> {
    PlanOver(lists, MotifKeys())
  }

  predicate AllMotifsListed(lists: map<string, seq<string>>) {
    forall i :: 1 <= i <= MotifCount ==> MotifKey(i) in lists
  }

  lemma {:induction false} PlanOverShape(lists: map<string, seq<string>>, keys: seq<string>)
    requires forall n :: 0 <= n < |keys| ==> keys[n] in lists
    ensures |PlanOver(lists, keys)| == VariantsPerMotif * |keys|
    ensures forall n, j :: 0 <= n < |keys| && 1 <= j <= VariantsPerMotif ==>
              PlanOver(lists, keys)[VariantsPerMotif * n + (j - 1)] == VariantPath(lists[keys[n]], j)
    decreases |keys|
  {
    if keys != [] {
      PlanOverShape(lists, keys[1..]);
      var head := MotifPaths(lists[keys[0]]);
      var tail := PlanOver(lists, keys[1..]);
      assert PlanOver(lists, keys) == head + tail;
      forall n, j | 0 <= n < |keys| && 1 <= j <= VariantsPerMotif
        ensures PlanOver(lists, keys)[VariantsPerMotif * n + (j - 1)] == VariantPath(lists[keys[n]], j)
      {
        if n > 0 {
          assert VariantsPerMotif * n + (j - 1) == VariantsPerMotif + (VariantsPerMotif * (n - 1) + (j - 1));
          assert keys[1..][n - 1] == keys[n];
        }
      }
    }
  }

  /** When the manifest lists all seven motifs, exactly 70 paths are
      requested, motif-major and variant-minor: the `j`-th variant of
      motif `i` is the `j`-th entry of the motif's list plus ".glb". */
  lemma LoadPlanShape(lists: map<string, seq<string>>)
    requires AllMotifsListed(lists)
    ensures |LoadPlan(lists)| == MotifCount * VariantsPerMotif
    ensures forall i, j :: 1 <= i <= MotifCount && 1 <= j <= VariantsPerMotif ==>
              LoadPlan(lists)[VariantsPerMotif * (i - 1) + (j - 1)] == VariantPath(lists[MotifKey(i)], j)
  {
    var keys := MotifKeys();
    PlanOverShape(lists, keys);
    forall i, j | 1 <= i <= MotifCount && 1 <= j <= VariantsPerMotif
      ensures LoadPlan(lists)[VariantsPerMotif * (i - 1) + (j - 1)] == VariantPath(lists[MotifKey(i)], j)
    {
      assert keys[i - 1] == MotifKey(i);
    }
  }

  /** A missing motif list stops the plan before that motif: only the
      motifs before it are requested. */
  lemma LoadPlanStopsAtMissingMotif(lists: map<string, seq<string>>, i: nat)
    requires 1 <= i <= MotifCount && MotifKey(i) !in lists
    requires forall k :: 1 <= k < i ==> MotifKey(k) in lists
    ensures |LoadPlan(lists)| == VariantsPerMotif * (i - 1)
    ensures LoadPlan(lists) == PlanOver(lists, MotifKeys()[..i - 1])
    ensures forall k, j :: 1 <= k < i && 1 <= j <= VariantsPerMotif ==>
              LoadPlan(lists)[VariantsPerMotif * (k - 1) + (j - 1)] == VariantPath(lists[MotifKey(k)], j)
  {
    var keys := MotifKeys();
    PlanOverLength(lists, keys, i - 1);
    PlanOverPrefix(lists, keys, i - 1);
    var before := keys[..i - 1];
    forall n | 0 <= n < |before| ensures before[n] in lists {
      assert before[n] == MotifKey(n + 1);
    }
    PlanOverShape(lists, before);
    forall k, j | 1 <= k < i && 1 <= j <= VariantsPerMotif
      ensures LoadPlan(lists)[VariantsPerMotif * (k - 1) + (j - 1)] == VariantPath(lists[MotifKey(k)], j)
    {
      assert before[k - 1] == MotifKey(k);
    }
  }

  /** The plan over `keys` is the plan over the keys before the first
      unlisted one. */
  lemma {:induction false} PlanOverPrefix(lists: map<string, seq<string>>, keys: seq<string>, stop: nat)
    requires stop < |keys| && keys[stop] !in lists
    requires forall n :: 0 <= n < stop ==> keys[n] in lists
    ensures PlanOver(lists, keys) == PlanOver(lists, keys[..stop])
    decreases stop
  {
    if stop > 0 {
      PlanOverPrefix(lists, keys[1..], stop - 1);
      assert keys[..stop][0] == keys[0];
      assert keys[..stop][1..] == keys[1..][..stop - 1];
    }
  }

  lemma {:induction false} PlanOverLength(lists: map<string, seq<string>>, keys: seq<string>, stop: nat)
    requires stop < |keys| && keys[stop] !in lists
    requires forall n :: 0 <= n < stop ==> keys[n] in lists
    ensures |PlanOver(lists, keys)| == VariantsPerMotif * stop
    decreases stop
  {
    if stop > 0 {
      PlanOverLength(lists, keys[1..], stop - 1);
    }
  }

  /** The loader produced `scenes`, one for each of `paths`, in order. */
  ghost predicate LoadedFrom(load: string -> Option<Scene>, paths: seq<string>, scenes: seq<Scene>) {
    && |scenes| == |paths|
    && forall n :: 0 <= n < |paths| ==> load(paths[n]) == Some(scenes[n])
  }

  lemma LoadedFromAllLoad(load: string -> Option<Scene>, paths: seq<string>, scenes: seq<Scene>)
    requires LoadedFrom(load, paths, scenes)
    ensures forall p :: p in paths ==> load(p).Some?
  {
    forall p | p in paths ensures load(p).Some? {
      var n :| 0 <= n < |paths| && paths[n] == p;
      assert load(paths[n]) == Some(scenes[n]);
    }
  }

  /** The per-motif tables the viewer keeps: the loaded scenes, the active
      variant index and whether the motif's panel is open. */
  datatype Tables = Tables(models: map<string, seq<Scene>>, actives: map<string, nat>, open: map<string, bool>)

  /** `(i - 1) % 10`: the variant motif `i` starts on. */
  function InitialActive(i: nat): (index: nat)
    requires 1 <= i
    ensures index < VariantsPerMotif
    ensures i <= VariantsPerMotif ==> index == i - 1
  {
    (i - 1) % VariantsPerMotif
  }

  /** What loadVariants publishes when every load succeeds. */
  ghost predicate InitialTables(t: Tables, lists: map<string, seq<string>>, load: string -> Option<Scene>) {
    && AllMotifsListed(lists)
    && t.models.Keys == KeySet(MotifKeys())
    && t.actives.Keys == KeySet(MotifKeys())
    && t.open.Keys == KeySet(MotifKeys())
    && forall n :: 0 <= n < MotifCount ==>
         && LoadedFrom(load, MotifPaths(lists[MotifKeys()[n]]), t.models[MotifKeys()[n]])
         && t.actives[MotifKeys()[n]] == InitialActive(n + 1)
         && !t.open[MotifKeys()[n]]
  }

  /** What the initial tables hold for motif `i`: ten scenes, the `j`-th
      loaded from the `j`-th variant path; the active index `(i - 1) % 10`,
      which is a position among those ten; and a closed panel. */
  lemma InitialMotif(t: Tables, lists: map<string, seq<string>>, load: string -> Option<Scene>, i: nat)
    requires InitialTables(t, lists, load) && 1 <= i <= MotifCount
    ensures MotifKey(i) in lists && MotifKey(i) in t.models && MotifKey(i) in t.actives && MotifKey(i) in t.open
    ensures |t.models[MotifKey(i)]| == VariantsPerMotif
    ensures forall j :: 1 <= j <= VariantsPerMotif ==>
              load(VariantPath(lists[MotifKey(i)], j)) == Some(t.models[MotifKey(i)][j - 1])
    ensures t.actives[MotifKey(i)] == i - 1 < VariantsPerMotif
    ensures !t.open[MotifKey(i)]
  {
    var keys := MotifKeys();
    var key := MotifKey(i);
    assert keys[i - 1] == key && key in KeySet(keys);
    var paths := MotifPaths(lists[key]);
    assert LoadedFrom(load, paths, t.models[key]);
    forall j | 1 <= j <= VariantsPerMotif ensures load(VariantPath(lists[key], j)) == Some(t.models[key][j - 1]) {
      assert paths[j - 1] == VariantPath(lists[key], j);
    }
  }

  datatype LoadError =
    | MissingMotif(key: string)  // the manifest has no list for the key: indexing it throws
    | LoadFailed(path: string)   // the loader rejected the path

  /** The inner loop of loadVariants: the ten variants of one motif, loaded
      in order until one fails. `requested` records the paths handed to the
      loader. */
  method LoadMotif(list: seq<string>, load: string -> Option<Scene>)
    returns (scenes: Option<seq<Scene>>, requested: seq<string>)
    ensures requested <= MotifPaths(list) && |requested| > 0
    ensures forall n :: 0 <= n < |requested| - 1 ==> load(requested[n]).Some?
    ensures scenes.Some? <==> load(requested[|requested| - 1]).Some?
    ensures scenes.Some? ==> requested == MotifPaths(list) && LoadedFrom(load, requested, scenes.value)
  {
    var paths := MotifPaths(list);
    var loaded: seq<Scene> := [];
    requested := [];
    var j := 1;
    while j <= VariantsPerMotif
      invariant 1 <= j <= VariantsPerMotif + 1
      invariant requested == paths[..j - 1]
      invariant LoadedFrom(load, requested, loaded)
    {
      var path := VariantPath(list, j);
      assert paths[..j] == paths[..j - 1] + [path];
      requested := requested + [path];
      var gltf := load(path);
      if gltf.None? {
        scenes := None;
        return;
      }
      loaded := loaded + [gltf.value];
      j := j + 1;
    }
    assert paths[..j - 1] == paths;
    scenes := Some(loaded);
  }

  /** The loader's side of the outer loop of loadVariants once the first
      `done` motifs of `keys` are loaded: those motifs are listed, their
      paths were requested in plan order, and every one of them loaded. */
  ghost predicate PlanUpTo(keys: seq<string>, lists: map<string, seq<string>>, load: string -> Option<Scene>,
                           done: nat, requested: seq<string>)
  {
    && done <= |keys|
    && (forall k :: 0 <= k < done ==> keys[k] in lists)
    && requested + PlanOver(lists, keys[done..]) == PlanOver(lists, keys)
    && (forall p :: p in requested ==> load(p).Some?)
  }

  /** The tables' side: they hold exactly the first `done` motifs, each with
      its loaded scenes and its initial active index. */
  ghost predicate TablesUpTo(keys: seq<string>, lists: map<string, seq<string>>, load: string -> Option<Scene>,
                             done: nat, loaded: map<string, seq<Scene>>, actives: map<string, nat>)
  {
    && done <= |keys|
    && (forall k :: 0 <= k < done ==> keys[k] in lists)
    && loaded.Keys == KeySet(keys[..done]) && actives.Keys == KeySet(keys[..done])
    && EntriesUpTo(keys, lists, load, done, loaded, actives)
  }

  ghost predicate EntriesUpTo(keys: seq<string>, lists: map<string, seq<string>>, load: string -> Option<Scene>,
                              done: nat, loaded: map<string, seq<Scene>>, actives: map<string, nat>)
    requires done <= |keys|
  {
    forall k :: 0 <= k < done && keys[k] in lists && keys[k] in loaded && keys[k] in actives ==>
      && LoadedFrom(load, MotifPaths(lists[keys[k]]), loaded[keys[k]])
      && actives[keys[k]] == InitialActive(k + 1)
  }

  /** The state of the outer loop of loadVariants once the first `done`
      motifs of `keys` are loaded. */
  ghost predicate LoadedUpTo(keys: seq<string>, lists: map<string, seq<string>>, load: string -> Option<Scene>,
                             done: nat, requested: seq<string>,
                             loaded: map<string, seq<Scene>>, actives: map<string, nat>)
  {
    PlanUpTo(keys, lists, load, done, requested) && TablesUpTo(keys, lists, load, done, loaded, actives)
  }

  /** One pass of the outer loop's body: motif `keys[i - 1]`. On failure
      the outcome is already in the form loadVariants reports it. */
  method LoadNextMotif(keys: seq<string>, lists: map<string, seq<string>>, load: string -> Option<Scene>,
                       i: nat, requested: seq<string>,
                       loaded: map<string, seq<Scene>>, actives: map<string, nat>)
    returns (failure: Option<LoadError>, requested': seq<string>,
             loaded': map<string, seq<Scene>>, actives': map<string, nat>)
    requires Distinct(keys) && 1 <= i <= |keys|
    requires LoadedUpTo(keys, lists, load, i - 1, requested, loaded, actives)
    ensures failure.None? ==> LoadedUpTo(keys, lists, load, i, requested', loaded', actives')
    ensures failure.Some? ==>
              && requested' <= PlanOver(lists, keys)
              && forall n :: 0 <= n < |requested'| - 1 ==> load(requested'[n]).Some?
    ensures failure.Some? && failure.value.MissingMotif? ==>
              && requested' == PlanOver(lists, keys)
              && (forall n :: 0 <= n < |requested'| ==> load(requested'[n]).Some?)
              && failure.value.key in keys && failure.value.key !in lists
              && forall k :: 0 <= k < IndexOf(keys, failure.value.key) ==> keys[k] in lists
    ensures failure.Some? && failure.value.LoadFailed? ==>
              && |requested'| > 0
              && failure.value.path == requested'[|requested'| - 1]
              && load(failure.value.path).None?
  {
    var motifKey := keys[i - 1];
    if motifKey !in lists {
      MissingPlan(keys, lists, load, i, requested);
      failure, requested', loaded', actives' := Some(MissingMotif(motifKey)), requested, loaded, actives;
      return;
    }
    var scenes, motifRequested := LoadMotif(lists[motifKey], load);
    requested' := requested + motifRequested;
    if scenes.None? {
      PartialPlan(keys, lists, load, i, requested, motifRequested);
      failure, loaded', actives' := Some(LoadFailed(motifRequested[|motifRequested| - 1])), loaded, actives;
      return;
    }
    failure := None;
    loaded' := loaded[motifKey := scenes.value];
    actives' := actives[motifKey := InitialActive(i)];
    LoadedFromAllLoad(load, motifRequested, scenes.value);
    PlanUpToStep(keys, lists, load, i, requested, motifRequested);
    TablesUpToStep(keys, lists, load, i, loaded, actives, scenes.value);
  }

  /** A missing motif ends the plan: everything before it was requested and
      loaded, and it is the first key of `keys` that is not listed. */
  lemma MissingPlan(keys: seq<string>, lists: map<string, seq<string>>, load: string -> Option<Scene>,
                    i: nat, requested: seq<string>)
    requires Distinct(keys) && 1 <= i <= |keys| && keys[i - 1] !in lists
    requires PlanUpTo(keys, lists, load, i - 1, requested)
    ensures requested == PlanOver(lists, keys)
    ensures forall n :: 0 <= n < |requested| ==> load(requested[n]).Some?
    ensures IndexOf(keys, keys[i - 1]) == i - 1
  {
    assert requested[..] == requested;
  }

  /** A motif whose loading stopped part-way leaves the requested paths a
      prefix of the plan, all loaded but the last. */
  lemma PartialPlan(keys: seq<string>, lists: map<string, seq<string>>, load: string -> Option<Scene>,
                    i: nat, requested: seq<string>, motifRequested: seq<string>)
    requires 1 <= i <= |keys| && keys[i - 1] in lists
    requires PlanUpTo(keys, lists, load, i - 1, requested)
    requires motifRequested <= MotifPaths(lists[keys[i - 1]]) && |motifRequested| > 0
    requires forall n :: 0 <= n < |motifRequested| - 1 ==> load(motifRequested[n]).Some?
    ensures requested + motifRequested <= PlanOver(lists, keys)
    ensures forall n :: 0 <= n < |requested + motifRequested| - 1 ==> load((requested + motifRequested)[n]).Some?
  {
    var all := requested + motifRequested;
    PlanOverStep(lists, keys, i);
    forall n | 0 <= n < |all| - 1 ensures load(all[n]).Some? {
      if n < |requested| {
        assert all[n] in requested;
      } else {
        assert all[n] == motifRequested[n - |requested|];
      }
    }
  }

  /** Loading motif `keys[i - 1]` completely extends the requested paths by
      that motif's paths. */
  lemma PlanUpToStep(keys: seq<string>, lists: map<string, seq<string>>, load: string -> Option<Scene>,
                     i: nat, requested: seq<string>, motifRequested: seq<string>)
    requires 1 <= i <= |keys| && keys[i - 1] in lists
    requires PlanUpTo(keys, lists, load, i - 1, requested)
    requires motifRequested == MotifPaths(lists[keys[i - 1]])
    requires forall p :: p in motifRequested ==> load(p).Some?
    ensures PlanUpTo(keys, lists, load, i, requested + motifRequested)
  {
    PlanOverStep(lists, keys, i);
    assert (requested + motifRequested) + PlanOver(lists, keys[i..])
           == requested + (motifRequested + PlanOver(lists, keys[i..]));
  }

  /** Loading motif `keys[i - 1]` completely adds it to both tables and
      leaves the earlier motifs' entries alone. */
  lemma TablesUpToStep(keys: seq<string>, lists: map<string, seq<string>>, load: string -> Option<Scene>,
                       i: nat, loaded: map<string, seq<Scene>>, actives: map<string, nat>, scenes: seq<Scene>)
    requires Distinct(keys) && 1 <= i <= |keys| && keys[i - 1] in lists
    requires TablesUpTo(keys, lists, load, i - 1, loaded, actives)
    requires LoadedFrom(load, MotifPaths(lists[keys[i - 1]]), scenes)
    ensures TablesUpTo(keys, lists, load, i, loaded[keys[i - 1] := scenes], actives[keys[i - 1] := InitialActive(i)])
  {
    var motifKey := keys[i - 1];
    assert keys[..i] == keys[..i - 1] + [motifKey];
    MapKeysSnoc(loaded, keys[..i - 1], motifKey, scenes);
    MapKeysSnoc(actives, keys[..i - 1], motifKey, InitialActive(i));
    EntriesUpToStep(keys, lists, load, i, loaded, actives, scenes);
  }

  lemma EntriesUpToStep(keys: seq<string>, lists: map<string, seq<string>>, load: string -> Option<Scene>,
                        i: nat, loaded: map<string, seq<Scene>>, actives: map<string, nat>, scenes: seq<Scene>)
    requires Distinct(keys) && 1 <= i <= |keys| && keys[i - 1] in lists
    requires EntriesUpTo(keys, lists, load, i - 1, loaded, actives)
    requires LoadedFrom(load, MotifPaths(lists[keys[i - 1]]), scenes)
    ensures EntriesUpTo(keys, lists, load, i, loaded[keys[i - 1] := scenes], actives[keys[i - 1] := InitialActive(i)])
  {
    var motifKey := keys[i - 1];
    var loaded', actives' := loaded[motifKey := scenes], actives[motifKey := InitialActive(i)];
    forall k | 0 <= k < i && keys[k] in lists && keys[k] in loaded' && keys[k] in actives'
      ensures LoadedFrom(load, MotifPaths(lists[keys[k]]), loaded'[keys[k]])
      ensures actives'[keys[k]] == InitialActive(k + 1)
    {
      if k < i - 1 {
        assert IndexOf(keys, keys[i - 1]) == i - 1;
        assert keys[k] != motifKey;
      }
    }
  }

  /** The plan from motif `i` on is motif `i`'s paths, then the rest. */
  lemma PlanOverStep(lists: map<string, seq<string>>, keys: seq<string>, i: nat)
    requires 1 <= i <= |keys| && keys[i - 1] in lists
    ensures PlanOver(lists, keys[i - 1..]) == MotifPaths(lists[keys[i - 1]]) + PlanOver(lists, keys[i..])
  {
    assert keys[i - 1..][1..] == keys[i..];
  }

  lemma KeySetSnoc(s: seq<string>, x: string)
    ensures KeySet(s + [x]) == KeySet(s) + {x}
  {
    assert forall m :: m in s + [x] <==> m in s || m == x;
  }

  lemma MapKeysSnoc<V>(m: map<string, V>, s: seq<string>, x: string, v: V)
    requires m.Keys == KeySet(s)
    ensures m[x := v].Keys == KeySet(s + [x])
  {
    KeySetSnoc(s, x);
  }

  /** The outer loop of loadVariants over the motif keys `keys` (in the
      source, `motif-1` .. `motif-7`): each motif's variants are loaded and
      its initial active index set before the next motif starts. */
  method LoadMotifs(keys: seq<string>, lists: map<string, seq<string>>, load: string -> Option<Scene>)
    returns (result: Result<(map<string, seq<Scene>>, map<string, nat>), LoadError>, requested: seq<string>)
    requires Distinct(keys)
    ensures requested <= PlanOver(lists, keys)
    ensures forall n :: 0 <= n < |requested| - 1 ==> load(requested[n]).Some?
    ensures result.Success? ==>
              && requested == PlanOver(lists, keys)
              && (forall n :: 0 <= n < |requested| ==> load(requested[n]).Some?)
              && result.value.0.Keys == KeySet(keys) && result.value.1.Keys == KeySet(keys)
              && forall n :: 0 <= n < |keys| ==>
                   && keys[n] in lists
                   && LoadedFrom(load, MotifPaths(lists[keys[n]]), result.value.0[keys[n]])
                   && result.value.1[keys[n]] == InitialActive(n + 1)
    ensures result.Failure? && result.error.MissingMotif? ==>
              && requested == PlanOver(lists, keys)
              && (forall n :: 0 <= n < |requested| ==> load(requested[n]).Some?)
              && result.error.key in keys && result.error.key !in lists
              && forall k :: 0 <= k < IndexOf(keys, result.error.key) ==> keys[k] in lists
    ensures result.Failure? && result.error.LoadFailed? ==>
              && |requested| > 0
              && result.error.path == requested[|requested| - 1]
              && load(result.error.path).None?
  {
    var loaded: map<string, seq<Scene>> := map[];
    var actives: map<string, nat> := map[];
    requested := [];
    var i := 1;
    while i <= |keys|
      invariant 1 <= i <= |keys| + 1
      invariant LoadedUpTo(keys, lists, load, i - 1, requested, loaded, actives)
    {
      var failure;
      failure, requested, loaded, actives := LoadNextMotif(keys, lists, load, i, requested, loaded, actives);
      if failure.Some? {
        result := Failure(failure.value);
        return;
      }
      i := i + 1;
    }
    LoadedAll(keys, lists, load, requested, loaded, actives);
    result := Success((loaded, actives));
  }

  /** Once every motif of `keys` is loaded, the plan is complete and both
      tables cover exactly `keys`. */
  lemma LoadedAll(keys: seq<string>, lists: map<string, seq<string>>, load: string -> Option<Scene>,
                  requested: seq<string>, loaded: map<string, seq<Scene>>, actives: map<string, nat>)
    requires LoadedUpTo(keys, lists, load, |keys|, requested, loaded, actives)
    ensures requested == PlanOver(lists, keys)
    ensures forall n :: 0 <= n < |requested| ==> load(requested[n]).Some?
    ensures loaded.Keys == KeySet(keys) && actives.Keys == KeySet(keys)
    ensures forall n :: 0 <= n < |keys| ==>
              && keys[n] in lists
              && LoadedFrom(load, MotifPaths(lists[keys[n]]), loaded[keys[n]])
              && actives[keys[n]] == InitialActive(n + 1)
  {
    assert keys[..|keys|] == keys && keys[|keys|..] == [];
    assert forall n :: 0 <= n < |requested| ==> requested[n] in requested;
    forall n | 0 <= n < |keys| ensures keys[n] in loaded && keys[n] in actives {
      assert keys[n] in KeySet(keys);
    }
  }

  /** loadVariants: the seven motifs' scenes and initial active indices,
      then every panel closed. `requested` records the paths handed to the
      loader, in order. */
  method LoadVariants(lists: map<string, seq<string>>, load: string -> Option<Scene>)
    returns (result: Result<Tables, LoadError>, requested: seq<string>)
    ensures requested <= LoadPlan(lists)
    ensures forall n :: 0 <= n < |requested| - 1 ==> load(requested[n]).Some?
    ensures result.Success? ==>
              && requested == LoadPlan(lists)
              && (forall n :: 0 <= n < |requested| ==> load(requested[n]).Some?)
              && InitialTables(result.value, lists, load)
    ensures result.Failure? && result.error.MissingMotif? ==>
              && requested == LoadPlan(lists)
              && (forall n :: 0 <= n < |requested| ==> load(requested[n]).Some?)
              && result.error.key !in lists
              && exists i :: 1 <= i <= MotifCount && result.error.key == MotifKey(i)
                             && forall k :: 1 <= k < i ==> MotifKey(k) in lists
    ensures result.Failure? && result.error.LoadFailed? ==>
              && |requested| > 0
              && result.error.path == requested[|requested| - 1]
              && load(result.error.path).None?
  {
    var keys := MotifKeys();
    MotifKeysDistinct();
    var tables;
    tables, requested := LoadMotifs(keys, lists, load);
    match tables
    case Failure(e) =>
      result := Failure(e);
      if e.MissingMotif? {
        var i := IndexOf(keys, e.key);
        assert forall k :: 1 <= k < i + 1 ==> MotifKey(k) == keys[k - 1];
      }
    case Success((loaded, actives)) =>
      forall i | 1 <= i <= MotifCount ensures MotifKey(i) in lists {
        assert keys[i - 1] == MotifKey(i);
      }
      var open := ClosedPanels();
      result := Success(Tables(loaded, actives, open));
  }

  /** `openState`: every motif's panel closed. */
  method ClosedPanels() returns (open: map<string, bool>)
    ensures open.Keys == KeySet(MotifKeys())
    ensures forall m :: m in open ==> !open[m]
  {
    var keys := MotifKeys();
    open := map[];
    var i := 1;
    while i <= MotifCount
      invariant 1 <= i <= MotifCount + 1
      invariant open.Keys == KeySet(keys[..i - 1])
      invariant forall m :: m in open ==> !open[m]
    {
      assert keys[..i] == keys[..i - 1] + [keys[i - 1]];
      open := open[MotifKey(i) := false];
      i := i + 1;
    }
    assert keys[..MotifCount] == keys;
  }
}
