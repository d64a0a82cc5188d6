/**
  What the viewer does with its tables once the variants are loaded
  (app/ModelViewer.js): the two state updaters `changeVariant` and
  `toggleMotif`, the colour lookups of the side panel, the side panel's
  list of motifs, and the choice of the one scene per motif that the
  canvas shows.

  React's state updaters are pure functions of the
  previous table here; the component's state after the load is the
  datatype `Viewer`, and a user's clicks are a sequence of `Event`s.
 */
module Selection {
  import opened Wrappers
  import opened Text
  import opened VariantLoading

  // ---------------------------------------------------------------------
  // The two updaters
  // ---------------------------------------------------------------------

  /** changeVariant: a copy of the table in which `motif` maps to `index`. */
  function ChangeVariant(actives: map<string, nat>, motif: string, index: nat): (r: map<string, nat>)
    ensures r.Keys == actives.Keys + {motif}
    ensures r[motif] == index
    ensures forall m :: m in actives && m != motif ==> r[m] == actives[m]
  {
    actives[motif := index]
  }

  /** toggleMotif: a copy of the table in which `motif`'s flag is negated.
      A motif with no flag yet reads as undefined, whose negation is true. */
  function ToggleMotif(open: map<string, bool>, motif: string): (r: map<string, bool>)
    ensures r.Keys == open.Keys + {motif}
    ensures r[motif] <==> !(motif in open && open[motif])
    ensures forall m :: m in open && m != motif ==> r[m] == open[m]
  {
    open[motif := !(motif in open && open[motif])]
  }

  /** Toggling a motif that has a flag twice restores the table. */
  lemma ToggleTwice(open: map<string, bool>, motif: string)
    requires motif in open
    ensures ToggleMotif(ToggleMotif(open, motif), motif) == open
  {
    var once := ToggleMotif(open, motif);
    var twice := ToggleMotif(once, motif);
    assert twice.Keys == open.Keys;
    forall m | m in open ensures twice[m] == open[m] {
      if m == motif {
        assert twice[m] == !once[m];
      }
    }
  }

  /** A motif without a flag first opens, and a second toggle closes it. */
  lemma ToggleTwiceWithoutFlag(open: map<string, bool>, motif: string)
    requires motif !in open
    ensures ToggleMotif(open, motif)[motif]
    ensures ToggleMotif(ToggleMotif(open, motif), motif) == open[motif := false]
  {
    var twice := ToggleMotif(ToggleMotif(open, motif), motif);
    assert twice.Keys == open.Keys + {motif};
    forall m | m in twice ensures twice[m] == open[motif := false][m] {
      if m == motif {
        assert !twice[m];
      }
    }
  }

  // ---------------------------------------------------------------------
  // Colours
  // ---------------------------------------------------------------------

  const ColorPrefix := "variante-"

  /** What the colour table's entries for missing or empty colours fall back to. */
  const FallbackColor := "#999"

  /** The colour-table key: "variante-" followed by the index plus one. The
      index is undefined for a motif with no active variant, and undefined
      plus one is NaN, which prints as "NaN". */
  function ColorKey(index: Option<nat>): (key: string)
    ensures |key| > |ColorPrefix| && key[..|ColorPrefix|] == ColorPrefix
    ensures index.Some? ==> AllDigits(key[|ColorPrefix|..]) && DecimalValue(key[|ColorPrefix|..]) == index.value + 1
    ensures index.None? ==> key[|ColorPrefix|..] == "NaN"
    ensures index.Some? ==> key[|ColorPrefix|] != '0'
  {
    match index
    case Some(k) =>
      var digits := NatToDecimal(k + 1);
      DecimalRoundTrip(k + 1);
      assert (ColorPrefix + digits)[|ColorPrefix|..] == digits;
      ColorPrefix + digits
    case None =>
      assert (ColorPrefix + "NaN")[|ColorPrefix|..] == "NaN";
      ColorPrefix + "NaN"
  }

  /** Different indices, and a missing index, read different entries of
      the colour table. */
  lemma ColorKeyInjective(a: Option<nat>, b: Option<nat>)
    ensures ColorKey(a) == ColorKey(b) <==> a == b
  {
    if ColorKey(a) == ColorKey(b) {
      var n := |ColorPrefix|;
      if a.Some? && b.Some? {
        assert ColorKey(a)[n..] == ColorKey(b)[n..];
      }
    }
  }

  /** The colour-table entry for `key`, or "#999" when the entry is falsy:
      a missing entry is undefined and the empty string is falsy; any other
      string, even one of spaces, is kept. */
  function ColorOf(colors: map<string, string>, key: string): (color: string)
    ensures color != ""
    ensures key in colors && colors[key] != "" ==> color == colors[key]
    ensures color != FallbackColor ==> key in colors && color == colors[key]
  {
    if key in colors && colors[key] != "" then colors[key] else FallbackColor
  }

  /** The colour of a motif's title dot: the entry of its active index. */
  function ActiveColor(colors: map<string, string>, actives: map<string, nat>, motif: string): string {
    ColorOf(colors, ColorKey(if motif in actives then Some(actives[motif]) else None))
  }

  /** The colour of the swatch for variant `index`. */
  function SwatchColor(colors: map<string, string>, index: nat): string {
    ColorOf(colors, ColorKey(Some(index)))
  }

  /** The title dot shows the colour-table entry of the active index when
      that entry is a non-empty string, and "#999" otherwise; a motif with no
      active index looks up the key "variante-NaN". */
  lemma ActiveColorLookup(colors: map<string, string>, actives: map<string, nat>, motif: string)
    ensures motif in actives ==> ActiveColor(colors, actives, motif) == SwatchColor(colors, actives[motif])
    ensures motif in actives ==>
              var key := ColorPrefix + NatToDecimal(actives[motif] + 1);
              ActiveColor(colors, actives, motif)
              == if key in colors && colors[key] != "" then colors[key] else FallbackColor
    ensures motif !in actives ==>
              ActiveColor(colors, actives, motif) == ColorOf(colors, "variante-NaN")
  {
    assert ColorPrefix + "NaN" == "variante-NaN";
  }

  // ---------------------------------------------------------------------
  // The swatches of an open motif
  // ---------------------------------------------------------------------

  datatype Swatch = Swatch(index: nat, color: string, active: bool)

  /** One swatch per entry of the motif's manifest list, marked active when
      the motif's active index is strictly equal to the swatch's position. */
  function Swatches(list: seq<string>, colors: map<string, string>, actives: map<string, nat>, motif: string)
    : (swatches: seq<Swatch>)
    ensures |swatches| == |list|
    ensures forall i :: 0 <= i < |swatches| ==>
              swatches[i].index == i && swatches[i].color == SwatchColor(colors, i)
    ensures forall i :: 0 <= i < |swatches| ==>
              (swatches[i].active <==> motif in actives && actives[motif] == i)
  {
    seq(|list|, i requires 0 <= i < |list| => Swatch(i, SwatchColor(colors, i), motif in actives && actives[motif] == i))
  }

  /** The positions of the active swatches. */
  function ActivePositions(swatches: seq<Swatch>): set<nat> {
    set i: nat | i < |swatches| && swatches[i].active
  }

  /** Exactly one swatch is marked when the active index is in range, and
      none otherwise; the marked swatch has the title dot's colour. */
  lemma OneActiveSwatch(list: seq<string>, colors: map<string, string>, actives: map<string, nat>, motif: string)
    ensures ActivePositions(Swatches(list, colors, actives, motif))
            == if motif in actives && actives[motif] < |list| then {actives[motif]} else {}
    ensures forall swatch :: swatch in Swatches(list, colors, actives, motif) && swatch.active ==>
              swatch.color == ActiveColor(colors, actives, motif)
  {
    var swatches := Swatches(list, colors, actives, motif);
    if motif in actives && actives[motif] < |list| {
      assert swatches[actives[motif]].active;
    }
  }

  // ---------------------------------------------------------------------
  // The side panel
  // ---------------------------------------------------------------------

  /** The motifs the side panel lists: the manifest's keys in order, except
      "base_model". */
  function PanelMotifs(keys: seq<string>): (motifs: seq<string>)
    ensures forall m :: m in motifs <==> m in keys && m != BaseModelKey
    ensures |motifs| <= |keys|
  {
    if keys == [] then []
    else if keys[0] == BaseModelKey then PanelMotifs(keys[1..])
    else [keys[0]] + PanelMotifs(keys[1..])
  }

  /** Every motif key the manifest has gets a block in the panel: the
      filter on "base_model" never drops a motif. */
  lemma MotifKeysInPanel(keys: seq<string>, i: nat)
    requires MotifKey(i) in keys
    ensures MotifKey(i) in PanelMotifs(keys)
  {
    MotifKeyIsNotBaseModel(i);
  }

  /** The panel of a well-formed manifest lists every motif list once and
      nothing else: one entry fewer than the manifest has keys. */
  lemma {:induction false} PanelMotifsOfDistinctKeys(keys: seq<string>)
    requires Distinct(keys)
    ensures Distinct(PanelMotifs(keys))
    ensures |PanelMotifs(keys)| == if BaseModelKey in keys then |keys| - 1 else |keys|
    decreases |keys|
  {
    if keys != [] {
      assert keys == [keys[0]] + keys[1..];
      DistinctCons(keys[0], keys[1..]);
      PanelMotifsOfDistinctKeys(keys[1..]);
      if keys[0] != BaseModelKey {
        DistinctCons(keys[0], PanelMotifs(keys[1..]));
      }
    }
  }

  /** Of two entries of `motifs`, the earlier one comes first in `keys`. */
  predicate InKeyOrder(motifs: seq<string>, keys: seq<string>) {
    forall a, b :: 0 <= a < b < |motifs| ==> IndexOf(keys, motifs[a]) < IndexOf(keys, motifs[b])
  }

  /** The panel keeps the manifest's key order. */
  lemma {:induction false} PanelMotifsInKeyOrder(keys: seq<string>)
    requires Distinct(keys)
    ensures InKeyOrder(PanelMotifs(keys), keys)
    decreases |keys|
  {
    if keys != [] {
      assert keys == [keys[0]] + keys[1..];
      DistinctCons(keys[0], keys[1..]);
      PanelMotifsInKeyOrder(keys[1..]);
      var tail := PanelMotifs(keys[1..]);
      if keys[0] == BaseModelKey {
        assert PanelMotifs(keys) == tail;
        SkippedHeadKeepsOrder(keys, tail);
      } else {
        assert PanelMotifs(keys) == [keys[0]] + tail;
        ListedHeadKeepsOrder(keys, tail);
      }
    }
  }

  /** Entries taken from past the head keep their order in the whole key list. */
  lemma SkippedHeadKeepsOrder(keys: seq<string>, tail: seq<string>)
    requires keys != [] && keys[0] !in keys[1..]
    requires forall m :: m in tail ==> m in keys[1..]
    requires InKeyOrder(tail, keys[1..])
    ensures InKeyOrder(tail, keys)
  {
    forall a, b | 0 <= a < b < |tail| ensures IndexOf(keys, tail[a]) < IndexOf(keys, tail[b]) {
      IndexOfPastHead(keys, tail[a]);
      IndexOfPastHead(keys, tail[b]);
    }
  }

  /** Putting the head key in front of entries taken from past it keeps the order. */
  lemma ListedHeadKeepsOrder(keys: seq<string>, tail: seq<string>)
    requires keys != [] && keys[0] !in keys[1..]
    requires forall m :: m in tail ==> m in keys[1..]
    requires InKeyOrder(tail, keys[1..])
    ensures InKeyOrder([keys[0]] + tail, keys)
  {
    var motifs := [keys[0]] + tail;
    SkippedHeadKeepsOrder(keys, tail);
    forall a, b | 0 <= a < b < |motifs| ensures IndexOf(keys, motifs[a]) < IndexOf(keys, motifs[b]) {
      assert motifs[b] == tail[b - 1];
      IndexOfPastHead(keys, tail[b - 1]);
      if a > 0 {
        assert motifs[a] == tail[a - 1];
      }
    }
  }

  lemma IndexOfPastHead(keys: seq<string>, x: string)
    requires keys != [] && x in keys[1..] && x != keys[0]
    ensures IndexOf(keys, x) == 1 + IndexOf(keys[1..], x)
  {
  }

  lemma PanelListsManifest(m: Manifest)
    requires WellFormed(m)
    ensures forall k :: k in PanelMotifs(m.keys) <==> k in m.lists
    ensures Distinct(PanelMotifs(m.keys)) && |PanelMotifs(m.keys)| == |m.keys| - 1
    ensures InKeyOrder(PanelMotifs(m.keys), m.keys)
  {
    PanelMotifsOfDistinctKeys(m.keys);
    PanelMotifsInKeyOrder(m.keys);
  }

  /** One block of the side panel: the motif's title with its colour dot
      and its arrow, and the swatches when the motif is open. */
  datatype PanelEntry = PanelEntry(motif: string, dot: string, expanded: bool, swatches: seq<Swatch>)

  function Entry(manifest: Manifest, colors: map<string, string>, t: Tables, motif: string): PanelEntry
    requires motif in manifest.lists
  {
    var expanded := motif in t.open && t.open[motif];
    PanelEntry(motif, ActiveColor(colors, t.actives, motif), expanded,
               if expanded then Swatches(manifest.lists[motif], colors, t.actives, motif) else [])
  }

  /** The side panel once the variants are loaded: one block per manifest
      key other than `base_model`, in key order. A block's swatches are
      there exactly when its flag is truthy. */
  function Panel(manifest: Manifest, colors: map<string, string>, t: Tables): (entries: seq<PanelEntry>)
    requires WellFormed(manifest)
    ensures |entries| == |PanelMotifs(manifest.keys)| == |manifest.keys| - 1
    ensures forall n :: 0 <= n < |entries| ==>
              && entries[n].motif == PanelMotifs(manifest.keys)[n]
              && entries[n].dot == ActiveColor(colors, t.actives, entries[n].motif)
              && (entries[n].expanded <==> entries[n].motif in t.open && t.open[entries[n].motif])
              && |entries[n].swatches| == if entries[n].expanded then |manifest.lists[entries[n].motif]| else 0
    ensures forall n :: 0 <= n < |entries| ==>
              && entries[n].motif in manifest.lists
              && entries[n].swatches
                 == if entries[n].expanded then Swatches(manifest.lists[entries[n].motif], colors, t.actives, entries[n].motif)
                    else []
  {
    var motifs := PanelMotifs(manifest.keys);
    PanelListsManifest(manifest);
    seq(|motifs|, n requires 0 <= n < |motifs| => Entry(manifest, colors, t, motifs[n]))
  }

  /** Right after loading no block of the panel is open, so no swatch is
      shown. */
  lemma PanelStartsClosed(manifest: Manifest, colors: map<string, string>, t: Tables, load: string -> Option<Scene>)
    requires WellFormed(manifest) && InitialTables(t, manifest.lists, load)
    ensures forall entry :: entry in Panel(manifest, colors, t) ==> !entry.expanded && entry.swatches == []
  {
    var keys := MotifKeys();
    forall m | m in t.open ensures !t.open[m] {
      assert m in KeySet(keys);
      var n :| 0 <= n < |keys| && keys[n] == m;
    }
  }

  // ---------------------------------------------------------------------
  // The canvas: one scene per motif
  // ---------------------------------------------------------------------

  /** The scenes the canvas places, motif by motif in the key order
      `order` of the scene table: a motif with a scene list and an active index shows the scene
      at that index, when there is one. */
  function RenderOver(order: seq<string>, models: map<string, seq<Scene>>, actives: map<string, nat>)
    : (shown: seq<(string, Scene)>)
    ensures forall n :: 0 <= n < |shown| ==> shown[n].0 in order
    ensures |shown| <= |order|
  {
    if order == [] then []
    else
      var m := order[0];
      var rest := RenderOver(order[1..], models, actives);
      if m in models && m in actives && actives[m] < |models[m]| then [(m, models[m][actives[m]])] + rest
      else rest
  }

  /** A motif of `order` is shown exactly when it has a scene list and an
      active index inside it, and then with the scene at that index. */
  lemma {:induction false} RenderOverShows(order: seq<string>, models: map<string, seq<Scene>>, actives: map<string, nat>)
    ensures forall m, s :: (m, s) in RenderOver(order, models, actives) <==>
              m in order && m in models && m in actives && actives[m] < |models[m]| && s == models[m][actives[m]]
    decreases |order|
  {
    if order != [] {
      RenderOverShows(order[1..], models, actives);
      assert order == [order[0]] + order[1..];
    }
  }

  /** The canvas's variant scenes: none while the variants are loading. */
  function Render(loadingVariants: bool, order: seq<string>, models: map<string, seq<Scene>>, actives: map<string, nat>)
    : (shown: seq<(string, Scene)>)
    ensures forall m, s :: (m, s) in shown <==>
              && !loadingVariants
              && m in order && m in models && m in actives && actives[m] < |models[m]|
              && s == models[m][actives[m]]
  {
    if loadingVariants then []
    else
      RenderOverShows(order, models, actives);
      RenderOver(order, models, actives)
  }

  /** No motif is shown twice. */
  predicate OnePerMotif(shown: seq<(string, Scene)>) {
    forall a, b :: 0 <= a < b < |shown| ==> shown[a].0 != shown[b].0
  }

  /** Every motif of `order` shows the scene at its active index, in order. */
  ghost predicate ShowsEach(shown: seq<(string, Scene)>, order: seq<string>, models: map<string, seq<Scene>>, actives: map<string, nat>)
    requires forall m :: m in order ==> m in models && m in actives && actives[m] < |models[m]|
  {
    && |shown| == |order|
    && forall n :: 0 <= n < |order| ==> shown[n] == (order[n], models[order[n]][actives[order[n]]])
  }

  /** No motif of `order` is shown twice. */
  lemma {:induction false} RenderOverOnePerMotif(order: seq<string>, models: map<string, seq<Scene>>, actives: map<string, nat>)
    requires Distinct(order)
    ensures OnePerMotif(RenderOver(order, models, actives))
    decreases |order|
  {
    if order != [] {
      assert order == [order[0]] + order[1..];
      DistinctCons(order[0], order[1..]);
      RenderOverOnePerMotif(order[1..], models, actives);
      var m := order[0];
      var rest := RenderOver(order[1..], models, actives);
      if m in models && m in actives && actives[m] < |models[m]| {
        var first := (m, models[m][actives[m]]);
        assert RenderOver(order, models, actives) == [first] + rest;
        PrependNewMotif(first, rest, order[1..]);
      }
    }
  }

  /** A scene for a motif that none of `rest`'s scenes belongs to keeps
      the motifs distinct. */
  lemma PrependNewMotif(first: (string, Scene), rest: seq<(string, Scene)>, others: seq<string>)
    requires OnePerMotif(rest) && first.0 !in others
    requires forall n :: 0 <= n < |rest| ==> rest[n].0 in others
    ensures OnePerMotif([first] + rest)
  {
    var shown := [first] + rest;
    forall a, b | 0 <= a < b < |shown| ensures shown[a].0 != shown[b].0 {
      assert shown[b] == rest[b - 1];
      if a > 0 {
        assert shown[a] == rest[a - 1];
      }
    }
  }

  /** When every motif of `order` has an index inside its scene list, the
      canvas shows exactly one scene for each, in order. */
  lemma {:induction false} RenderOverComplete(order: seq<string>, models: map<string, seq<Scene>>, actives: map<string, nat>)
    requires forall m :: m in order ==> m in models && m in actives && actives[m] < |models[m]|
    ensures ShowsEach(RenderOver(order, models, actives), order, models, actives)
    decreases |order|
  {
    if order != [] {
      RenderOverComplete(order[1..], models, actives);
      var shown := RenderOver(order, models, actives);
      forall n | 1 <= n < |order| ensures shown[n] == (order[n], models[order[n]][actives[order[n]]]) {
        assert order[1..][n - 1] == order[n];
      }
    }
  }

  // ---------------------------------------------------------------------
  // The viewer after loading, and what a user can do to it
  // ---------------------------------------------------------------------

  /** The component's state once `loadVariants` has published its tables. */
  datatype Viewer = Viewer(manifest: Manifest, colors: map<string, string>, tables: Tables)

  /** A click on a motif's title, or on one of its swatches. */
  datatype Event = Toggle(motif: string) | Click(motif: string, index: nat)

  /** The panel offers a title for every motif it lists, and the swatches
      of a motif whose flag is truthy, one per entry of its manifest list. */
  predicate Offered(v: Viewer, e: Event) {
    && e.motif in PanelMotifs(v.manifest.keys)
    && match e
       case Toggle(_) => true
       case Click(motif, index) =>
         && motif in v.tables.open && v.tables.open[motif]
         && motif in v.manifest.lists && index < |v.manifest.lists[motif]|
  }

  /** One event's updater. */
  function Step(v: Viewer, e: Event): (w: Viewer)
    ensures w.manifest == v.manifest && w.colors == v.colors && w.tables.models == v.tables.models
    ensures e.Toggle? ==> w.tables.actives == v.tables.actives
                          && w.tables.open == ToggleMotif(v.tables.open, e.motif)
    ensures e.Click? ==> w.tables.open == v.tables.open
                         && w.tables.actives == ChangeVariant(v.tables.actives, e.motif, e.index)
  {
    match e
    case Toggle(motif) => v.(tables := v.tables.(open := ToggleMotif(v.tables.open, motif)))
    case Click(motif, index) => v.(tables := v.tables.(actives := ChangeVariant(v.tables.actives, motif, index)))
  }

  /** A sequence of events in order; an event the panel does not offer at
      that moment (a swatch of a closed motif, say) cannot be clicked and
      changes nothing. */
  function Run(v: Viewer, events: seq<Event>): Viewer
    decreases |events|
  {
    if events == [] then v
    else Run(if Offered(v, events[0]) then Step(v, events[0]) else v, events[1..])
  }

  /** Every active index of a listed motif is a position in its list. */
  predicate InRange(v: Viewer) {
    forall m :: m in v.tables.actives && m in v.manifest.lists ==> v.tables.actives[m] < |v.manifest.lists[m]|
  }

  /** A swatch click keeps every listed motif's active index in range. */
  lemma StepKeepsInRange(v: Viewer, e: Event)
    requires InRange(v) && Offered(v, e)
    ensures InRange(Step(v, e))
  {
  }

  /** Clicks and toggles change neither the manifest, the colours nor the
      scenes, never drop an active index, and keep active indices in range. */
  lemma {:induction false} RunKeeps(v: Viewer, events: seq<Event>)
    ensures Run(v, events).manifest == v.manifest && Run(v, events).colors == v.colors
    ensures Run(v, events).tables.models == v.tables.models
    ensures v.tables.actives.Keys <= Run(v, events).tables.actives.Keys
    ensures InRange(v) ==> InRange(Run(v, events))
    decreases |events|
  {
    if events != [] {
      var next := if Offered(v, events[0]) then Step(v, events[0]) else v;
      if Offered(v, events[0]) && InRange(v) {
        StepKeepsInRange(v, events[0]);
      }
      RunKeeps(next, events[1..]);
    }
  }

  /** Clicking an offered swatch makes it the only marked swatch of its
      motif and gives the title dot its colour; every other motif's title
      dot is unchanged. */
  lemma ClickSelectsSwatch(v: Viewer, motif: string, index: nat)
    requires Offered(v, Click(motif, index))
    ensures ActiveColor(v.colors, Step(v, Click(motif, index)).tables.actives, motif) == SwatchColor(v.colors, index)
    ensures ActivePositions(Swatches(v.manifest.lists[motif], v.colors, Step(v, Click(motif, index)).tables.actives, motif))
            == {index}
    ensures forall other :: other != motif ==>
              ActiveColor(v.colors, Step(v, Click(motif, index)).tables.actives, other)
              == ActiveColor(v.colors, v.tables.actives, other)
  {
    var w := Step(v, Click(motif, index));
    OneActiveSwatch(v.manifest.lists[motif], v.colors, w.tables.actives, motif);
  }

  /** The state loadVariants publishes for a manifest whose motif lists
      name ten variants each, as the shipped manifest does. */
  ghost predicate Loaded(v: Viewer, load: string -> Option<Scene>) {
    && InitialTables(v.tables, v.manifest.lists, load)
    && forall m :: m in v.manifest.lists ==> |v.manifest.lists[m]| == VariantsPerMotif
  }

  /** Right after loading, every active index is in range and every panel
      is closed. */
  lemma LoadedInRange(v: Viewer, load: string -> Option<Scene>)
    requires Loaded(v, load)
    ensures InRange(v)
    ensures forall m :: m in v.tables.open ==> !v.tables.open[m]
  {
    var keys := MotifKeys();
    forall m | m in v.tables.actives && m in v.manifest.lists
      ensures v.tables.actives[m] < |v.manifest.lists[m]|
    {
      assert m in KeySet(keys);
      var n :| 0 <= n < |keys| && keys[n] == m;
    }
    forall m | m in v.tables.open ensures !v.tables.open[m] {
      assert m in KeySet(keys);
      var n :| 0 <= n < |keys| && keys[n] == m;
    }
  }

  /** The variant scenes on the canvas once loading is over, motif by
      motif in the order `loadVariants` inserted them into `models`. */
  function Picture(v: Viewer): seq<(string, Scene)> {
    Render(false, MotifKeys(), v.tables.models, v.tables.actives)
  }

  /** The canvas shows, for each of `motif-1` .. `motif-7` in turn, the
      scene at the motif's current active index. */
  ghost predicate ShowsCurrentVariants(w: Viewer) {
    && |Picture(w)| == MotifCount
    && forall n :: 0 <= n < MotifCount ==>
         && Picture(w)[n].0 == MotifKey(n + 1)
         && MotifKey(n + 1) in w.tables.models && MotifKey(n + 1) in w.tables.actives
         && w.tables.actives[MotifKey(n + 1)] < |w.tables.models[MotifKey(n + 1)]|
         && Picture(w)[n].1 == w.tables.models[MotifKey(n + 1)][w.tables.actives[MotifKey(n + 1)]]
  }

  /** Each of the seven motifs has an active index inside its scene list. */
  lemma AllShown(v: Viewer, load: string -> Option<Scene>)
    requires Loaded(v, load)
    ensures forall m :: m in MotifKeys() ==>
              m in v.tables.models && m in v.tables.actives && m in v.manifest.lists
              && |v.tables.models[m]| == |v.manifest.lists[m]|
              && v.tables.actives[m] < |v.tables.models[m]|
  {
    var keys := MotifKeys();
    forall m | m in keys
      ensures m in v.tables.models && m in v.tables.actives && m in v.manifest.lists
              && |v.tables.models[m]| == |v.manifest.lists[m]|
              && v.tables.actives[m] < |v.tables.models[m]|
    {
      var n :| 0 <= n < |keys| && keys[n] == m;
      InitialMotif(v.tables, v.manifest.lists, load, n + 1);
    }
  }

  /** The seven motifs stay on the canvas as long as their indices do. */
  lemma ShownWhileInRange(w: Viewer)
    requires forall m :: m in MotifKeys() ==>
               m in w.tables.models && m in w.tables.actives && w.tables.actives[m] < |w.tables.models[m]|
    ensures ShowsCurrentVariants(w)
  {
    var keys := MotifKeys();
    RenderOverComplete(keys, w.tables.models, w.tables.actives);
    var shown := Picture(w);
    assert shown == RenderOver(keys, w.tables.models, w.tables.actives);
    forall n | 0 <= n < MotifCount
      ensures MotifKey(n + 1) in w.tables.models && MotifKey(n + 1) in w.tables.actives
      ensures w.tables.actives[MotifKey(n + 1)] < |w.tables.models[MotifKey(n + 1)]|
      ensures shown[n].0 == MotifKey(n + 1)
      ensures shown[n].1 == w.tables.models[MotifKey(n + 1)][w.tables.actives[MotifKey(n + 1)]]
    {
      assert keys[n] == MotifKey(n + 1) && keys[n] in keys;
      assert shown[n] == (keys[n], w.tables.models[keys[n]][w.tables.actives[keys[n]]]);
    }
  }

  /** The first picture: motif `i` shows the scene loaded from entry
      `(i - 1) % 10` of its list. */
  lemma LoadedPicture(v: Viewer, load: string -> Option<Scene>)
    requires Loaded(v, load)
    ensures ShowsCurrentVariants(v)
    ensures forall n :: 0 <= n < MotifCount ==>
              load(v.manifest.lists[MotifKey(n + 1)][n] + ".glb") == Some(Picture(v)[n].1)
  {
    AllShown(v, load);
    ShownWhileInRange(v);
    forall n | 0 <= n < MotifCount
      ensures load(v.manifest.lists[MotifKey(n + 1)][n] + ".glb") == Some(Picture(v)[n].1)
    {
      InitialScene(v, load, n);
    }
  }

  lemma InitialScene(v: Viewer, load: string -> Option<Scene>, n: nat)
    requires Loaded(v, load) && ShowsCurrentVariants(v) && n < MotifCount
    ensures MotifKey(n + 1) in v.manifest.lists && n < |v.manifest.lists[MotifKey(n + 1)]|
    ensures load(v.manifest.lists[MotifKey(n + 1)][n] + ".glb") == Some(Picture(v)[n].1)
  {
    var m := MotifKey(n + 1);
    InitialMotif(v.tables, v.manifest.lists, load, n + 1);
    assert Picture(v)[n].1 == v.tables.models[m][n];
    assert VariantPath(v.manifest.lists[m], n + 1) == v.manifest.lists[m][n] + ".glb";
  }

  /** However the user clicks, every motif stays on the canvas with exactly
      one scene: the scene of its current active index. */
  lemma EveryMotifStaysShown(v: Viewer, load: string -> Option<Scene>, events: seq<Event>)
    requires Loaded(v, load)
    ensures ShowsCurrentVariants(Run(v, events))
  {
    LoadedInRange(v, load);
    AllShown(v, load);
    RunKeeps(v, events);
    var w := Run(v, events);
    forall m | m in MotifKeys()
      ensures m in w.tables.models && m in w.tables.actives && w.tables.actives[m] < |w.tables.models[m]|
    {
      assert m in v.tables.actives.Keys;
      assert w.tables.actives[m] < |w.manifest.lists[m]|;
    }
    ShownWhileInRange(w);
  }
}
