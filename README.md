# Bathroom configurator: a Dafny model of the viewer and the OS detection

The web application shows a 3D bathroom model. Seven decorative motifs
(`motif-1` .. `motif-7`) each come in ten colour variants. A side panel
lets the visitor open a motif and pick its variant. When the page loads,
it also reports the visitor's operating system for analytics.

This project models the logic behind that page, in five modules:

- `Wrappers` holds `Option` and `Result`.
- `Text` holds what the JavaScript does implicitly with strings:
  - the decimal rendering of a number inside a template literal;
  - the substring test of a regular expression made of one literal word,
    with and without the `i` flag.
- `VariantLoading` holds the asynchronous `loadVariants` of the viewer.
  - It is written as two nested loops, as in the source. The inner loop
    is `LoadMotif` and the outer loop is `LoadMotifs`.
  - Each loop is proved against specification functions: `MotifPaths`
    for the ten paths of one motif, and `PlanOver`/`LoadPlan` for the
    whole request sequence.
  - Both loops stop at the first rejected load or missing motif list.
    On success, the viewer's tables hold the loaded scenes, the initial
    active indices and closed panels (`InitialTables`).
- `Selection` holds what the viewer does with those tables:
  - the two state updaters `changeVariant` and `toggleMotif`;
  - the colour lookups of the title dot and of the swatches;
  - the panel's list of motifs;
  - the choice of one scene per motif on the canvas.

  A visitor's clicks are a sequence of events (`Run`). The main results:
  - every active index of a listed motif stays inside its list;
  - every one of the seven motifs stays on the canvas with exactly one
    scene, the scene of its current variant.
- `OsDetection` holds `detectOS` of the page. It is proved equal to an
  independent first-match rule table. Lemmas then state the priority of
  each rule as an if-and-only-if.

The GLTF loader is a function parameter `load` from a path to
`Option<Scene>`. `None` stands for a rejected load. The JSON manifest is
a `Manifest`: its key order, plus a map from each motif key to its list
of asset names. The colour table is a map from strings to strings.

The model keeps these JavaScript behaviours:
- A manifest list with fewer than ten entries makes the loader ask for
  "undefined.glb".
- A missing flag toggles to `true`.
- A motif with no active index looks up the colour key "variante-NaN".

The last two hold for motif keys that do not name a member every
JavaScript object inherits; see "## Left out".
- An empty colour string falls back to "#999" just like a missing one.

## Model

| member | source | states |
|---|---|---|
| VariantLoading.MotifKeysDistinct | app/ModelViewer.js:58-59 | the seven keys the outer loop builds are pairwise different |
| VariantLoading.MotifKeyIsNotBaseModel | app/ModelViewer.js:59 | no motif key collides with the manifest's "base_model" key |
| VariantLoading.MotifPaths | app/ModelViewer.js:62-63 | one motif gets exactly ten paths; path j is entry j-1 of its list plus ".glb" (and "undefined.glb" past the list's end) |
| VariantLoading.LoadPlanShape | app/ModelViewer.js:58-66 | with all seven motifs listed, 70 paths are requested, motif-major: position 10(i-1)+(j-1) is variant j of motif i |
| VariantLoading.LoadPlanStopsAtMissingMotif | app/ModelViewer.js:58-66 | a missing list for motif i ends the requests: exactly the plan of motifs 1..i-1 is asked for, 10(i-1) paths, position 10(k-1)+(j-1) being variant j of motif k |
| VariantLoading.InitialActive | app/ModelViewer.js:67 | the initial index (i-1)%10 is always below ten, and equals i-1 for every motif the loop visits |
| VariantLoading.InitialMotif | app/ModelViewer.js:54-76 | after a successful load, motif i has ten scenes, scene j-1 is what the loader returned for variant path j, its index is i-1, and its panel is closed |
| VariantLoading.LoadMotif | app/ModelViewer.js:62-66 | the inner loop requests a prefix of the motif's ten paths; every request but the last succeeded; on success it requested all ten and holds the loaded scenes in order |
| VariantLoading.LoadMotifs | app/ModelViewer.js:58-68 | the outer loop requests a prefix of the plan; on success both tables hold exactly the keys, each with its loaded scenes and (i-1)%10; a missing list or rejected path is reported with the first failure |
| VariantLoading.LoadVariants | app/ModelViewer.js:54-79 | the whole load: on success the request sequence is the 70-path plan and the published tables are the initial ones; otherwise the error names the first missing motif (all earlier motifs listed) or the rejected last path |
| VariantLoading.ClosedPanels | app/ModelViewer.js:74-75 | the open-state table has exactly the seven motif keys, each false |
| Selection.ChangeVariant | app/ModelViewer.js:84-86 | the chosen motif gets the index; no key is dropped and every other motif keeps its index |
| Selection.ToggleMotif | app/ModelViewer.js:88-93 | the motif's flag becomes the negation of its old truthiness (true when absent); every other flag is kept |
| Selection.ToggleTwice | app/ModelViewer.js:88-93 | toggling a motif that has a flag twice gives back the same table |
| Selection.ToggleTwiceWithoutFlag | app/ModelViewer.js:88-93 | a motif without a flag opens on the first toggle and is false after the second |
| Selection.ColorKey | app/ModelViewer.js:139 | the key is "variante-" followed by the canonical decimal of index+1 (digits denoting index+1, no leading zero), or "NaN" when there is no index |
| Selection.ColorKeyInjective | app/ModelViewer.js:139 | two indices read the same colour key exactly when they are equal |
| Selection.ColorOf | app/ModelViewer.js:138-139 | the colour is never the empty string; a non-empty entry is used; anything other than "#999" came from the table |
| Selection.ActiveColorLookup | app/ModelViewer.js:137-139 | the title dot shows the entry for index+1 or "#999", the same colour as the active swatch; without an index it reads "variante-NaN" |
| Selection.Swatches | app/ModelViewer.js:161-164 | one swatch per manifest entry, swatch i coloured by the entry for i+1 and active exactly when the motif's index equals i |
| Selection.OneActiveSwatch | app/ModelViewer.js:161-175 | exactly one swatch is marked when the index is inside the list, none otherwise; the marked one has the title dot's colour |
| Selection.PanelMotifs | app/ModelViewer.js:134-135 | the panel lists a key exactly when the manifest has it and it is not "base_model" |
| Selection.MotifKeysInPanel | app/ModelViewer.js:134-135 | every motif key present in the manifest is listed by the panel, since no motif key is "base_model" |
| Selection.PanelMotifsInKeyOrder | app/ModelViewer.js:134-135 | for distinct keys, the panel lists its motifs in the manifest's key order |
| Selection.PanelListsManifest | app/ModelViewer.js:134-135 | for a well-formed manifest the panel lists each motif list once, in key order, one entry fewer than the manifest has keys |
| Selection.Panel | app/ModelViewer.js:134-179 | block n is for the n-th listed motif, with the title dot's colour, expanded exactly when its flag is truthy; an expanded block holds that motif's swatches (one per list entry, coloured and marked as `Swatches` states) and a closed one none |
| Selection.PanelStartsClosed | app/ModelViewer.js:74-76 | right after a successful load no block is expanded and no swatch is offered |
| Selection.RenderOverShows | app/ModelViewer.js:114-120 | a motif is placed exactly when it has scenes and an index inside them, and then with the scene at that index |
| Selection.Render | app/ModelViewer.js:113-121 | the same, and nothing at all while the variants are loading |
| Selection.RenderOverOnePerMotif | app/ModelViewer.js:114-120 | no motif is placed twice |
| Selection.RenderOverComplete | app/ModelViewer.js:114-120 | when every motif has an index in range, exactly one scene per motif is placed, in key order |
| Selection.Step | app/ModelViewer.js:145-168 | a title click runs toggleMotif and a swatch click runs changeVariant, and nothing else changes |
| Selection.StepKeepsInRange | app/ModelViewer.js:161-168 | a click on an offered swatch keeps every listed motif's active index inside its list |
| Selection.RunKeeps | app/ModelViewer.js:84-93 | any click sequence keeps the manifest, the colours and the scenes, never drops an active index, and keeps indices in range |
| Selection.ClickSelectsSwatch | app/ModelViewer.js:161-168 | clicking a swatch makes it the motif's only marked swatch and gives the dot its colour; other motifs' dots are unchanged |
| Selection.LoadedInRange | app/ModelViewer.js:67-76 | right after loading every active index is inside its list and every panel is closed |
| Selection.LoadedPicture | app/ModelViewer.js:113-121 | the first picture shows, for motif i, the scene the loader returned for entry i-1 of its list |
| Selection.EveryMotifStaysShown | app/ModelViewer.js:113-121 | after any clicks, each of the seven motifs is on the canvas with exactly the scene of its current index |
| OsDetection.DetectOS | app/page.js:12-19 | the fallback outcome carries the platform string and only when it is non-empty |
| OsDetection.DetectOSLabel | app/page.js:9-20 | the answer is one of the seven fixed labels or the non-empty platform string |
| OsDetection.FirstMatchIsFirst | app/page.js:12-17 | the rule reading finds nothing iff no rule fires, and otherwise answers with a rule that fires after none before it |
| OsDetection.DetectOSFollowsRuleTable | app/page.js:12-19 | detectOS equals the first-match reading of its six-rule table |
| OsDetection.WindowsPhoneRule | app/page.js:12-13 | "Windows Phone" iff the agent mentions "windows phone" in any case, although all such agents also mention "windows" |
| OsDetection.WindowsRule | app/page.js:12-13 | "Windows" iff "windows" is mentioned without "windows phone", whatever else is mentioned |
| OsDetection.AndroidRule | app/page.js:12-14 | "Android" iff "android" is mentioned and "windows" is not |
| OsDetection.IOSRule | app/page.js:15 | "iOS" iff a device name occurs in its exact case, there is no MSStream, and neither "windows" nor "android" is mentioned |
| OsDetection.MacOSRule | app/page.js:12-16 | "Mac OS" iff "mac" is mentioned in any case and none of the Windows, Android and iOS tests succeeds |
| OsDetection.LinuxRule | app/page.js:12-17 | "Linux" iff "linux" is mentioned in any case and none of the five earlier tests succeeds, so an Android agent is never Linux |
| OsDetection.AppleDeviceFallsThrough | app/page.js:15-19 | a device name in another case, or with MSStream, falls through to the Mac, Linux and platform tests |
| OsDetection.FallbackRule | app/page.js:19 | the answer is the platform string or "Unknown" exactly when no rule fires |
| OsDetection.IPhoneUserAgent | app/page.js:15-16 | an iPhone agent that mentions "Mac OS X" is iOS, and Mac OS when MSStream is set |

## Left out

- Rendering: the Canvas, lights, camera, orbit controls and the cloning of scenes (app/ModelViewer.js:95-122) are not modelled. The model only decides which scene each motif shows.
- The fetch and parsing of the two JSON files (app/ModelViewer.js:21-37) are left out. Their results are inputs: a `Manifest` and a colour map.
- Loading the base model (app/ModelViewer.js:40-48) is left out. It is one independent loader call with no logic.
- React's scheduling is not modelled: effects, re-renders and the interleaving of the asynchronous loads. The updaters are modelled as pure functions applied one after another.
- The loading placeholders (app/ModelViewer.js:99-106, 127-132) are left out. They show fixed markup.
- The panel's title text, with its upper-casing and arrow glyphs (app/ModelViewer.js:152-155), is left out. It is presentation only.
- The user-agent fallback to the vendor string and to the opera global (app/page.js:10) is left out. The model takes the resulting string as its input `ua`.
- The POST of the label to the visits API (app/page.js:22-27) is left out. It is I/O.
- app/api/visites/route.js, models/Visiteur.js and lib/mongodb.js are not part of this model. They are server-side storage of the label.
- JSON values that are not strings or lists of strings are not modelled, such as a numeric colour or a list holding numbers.
- JavaScript's reordering of integer-like object keys is not modelled. The manifest's key order is taken as given.
- Selection.ToggleMotif: a motif key naming an inherited object member (`constructor`, `toString`, `valueOf`, `__proto__`, ...) is not modelled. The source's lookup of such a key reads the inherited value, so a first toggle of "constructor" gives false, not true. The model treats the three state objects as plain maps with no inherited entries.
- Selection.ActiveColorLookup: the same inherited-member keys are not modelled. For them the source's active-index lookup reads the inherited function, so the dot reads a key other than "variante-NaN".
- Selection.Panel: the same inherited-member keys are not modelled. For them the source's open-flag lookup reads the inherited, truthy value, so such a block shows as expanded without an own flag.
- Selection.PanelStartsClosed: the same inherited-member keys are not modelled. A manifest key such as "constructor" would start expanded in the source after a successful load.
- `Selection.Picture`'s key order: the canvas walks the keys of the scene table, which for a successful load are `motif-1` .. `motif-7` in insertion order. The model states that order rather than deriving it from object-key semantics.
- Selection.EveryMotifStaysShown: requires every motif list to have exactly ten entries, as the shipped manifest does. With a longer list, a swatch past the tenth would select an index with no loaded scene, and that motif would vanish from the canvas. The lemma does not cover that case.
- Selection.StepKeepsInRange: "in range" means inside the motif's manifest list, which is what the swatches offer. It equals the scene list only under the ten-entry condition above.
- The loader is a deterministic function: a path requested twice ("undefined.glb" for two short lists, or an asset a manifest repeats) is assumed to give the same outcome both times, whereas the real loader parses anew on each request and could fail on one request and not another.
- The loader is a total function from path to scene-or-rejection. Its asynchronous timing, caching and partial progress are not modelled, and neither are the load errors it does not surface.
