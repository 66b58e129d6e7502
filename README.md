# Graveyard viewer: the component's queries and view change, in Dafny

This project models the core of a small map client for graveyard data (asim42/graveyard-viewer2).
The client fetches GeoJSON feature collections of graves and grave plots ("Grab",
"Grabstelle") from a REST service. From them it derives four statistics, lists the graveyard
("Friedhof") names, looks up a graveyard's coordinates, picks a style per feature, and recentres
the map on a chosen graveyard.

Modules:

- `Wrappers`: `Option` (JavaScript's `undefined`/`null`), `Result` and `Outcome` (a value or a
  thrown `TypeError`), and the two errors the component can raise.
- `Seqs`: the sequence side of JavaScript's `Set` and `Map`. `Distinct` is `[...new Set(s)]`;
  `FirstIndex` and `Count` are also here. `Tally` gives the entries of a counting `Map` in
  insertion order. The lemmas about all of these live here too.
- `Features`: the `Feature` record (graveyard name, property names, geometry, parsed usage-end
  date, occupant marker). `Matching` is the `filter` on the graveyard name.
- `Statistics`: the "Buschhoven" count, the union of property names, the grouping loop
  (`GroupByFriedhof`, a method with a loop invariant) and the strict-`>` maximum `reduce`.
- `Styling`: the three-way style choice of the vector layer.
- `App`: the `AppComponent` class. Its fields are the loaded collection, the map view and the
  four statistics. It has the `friedhofs` getter, `friedhofCoordinates`, `changeGrab`, and one
  method per request callback of `ngOnInit`.
- `GraveyardData`: the request URLs the data service builds. `ParseUrl` reads them back.

Modelling choices:

- A thrown `TypeError` means the rest of the callback does not run. So a field assigned before
  the throw keeps its new value, and one assigned after it keeps its old value.
  - `reduce` on an empty array throws `ReduceOfEmptyArray`.
  - `friedhofFeatures[0].getGeometry()` with no match throws `PropertyOfNullish`.
  - `geometry['coordinates']` on a null geometry throws `PropertyOfNullish`.
- Three inputs come from outside the model and are passed in:
  - `getCenter(geometry.getExtent())` is the parameter `center: Geometry -> Point`.
  - `Date.now()` is the parameter `now`.
  - `Date.parse` is applied before the model sees the feature. `nutzungsfristende` is
    `None` when the property is null or absent, `Some(None)` when it parses to `NaN`, and
    `Some(Some(t))` otherwise.
- Behaviour of the code that a reader might not expect:
  - The graveyard name list keeps first-occurrence order, because a `Set` keeps insertion
    order.
  - `friedhofCoordinates` with no matching feature gives `undefined` (`Ok(None)`), not an empty
    list. It throws when any matching feature has a null geometry.
  - The two `reduce`s throw on an empty collection. No "no result" value is produced.

## Model

| member | source | states |
|---|---|---|
| Seqs.Distinct | src/app/app.component.ts:38 | `[...new Set(s)]` has no duplicates and holds exactly the elements of `s` |
| Seqs.DistinctFirstOccurrenceOrder | src/app/app.component.ts:38 | the elements of the set-spread stand in the order of their first occurrence in the input |
| Seqs.DistinctExample | src/app/app.component.ts:38 | graveyard names X, Y, X list as X, Y: two names, no duplicates |
| Seqs.DistinctHead | src/app/app.component.ts:49 | the first distinct name is the name of the first element, which `friedhofs[0]` relies on |
| Seqs.DistinctAbsorbLeft | src/app/app.component.ts:88 | re-spreading an already deduplicated left operand into a new `Set` changes neither contents nor order |
| Seqs.DistinctAbsorbRight | src/app/app.component.ts:88 | deduplicating the right operand before the union changes neither contents nor order |
| Seqs.TallyEntries | src/app/app.component.ts:94-104 | after the grouping loop, each key is a distinct graveyard name and its count is its number of features, at least 1 |
| Seqs.TallyOrder | src/app/app.component.ts:94-104 | the Map's keys stand in first-occurrence (insertion) order |
| Seqs.TallyCovers | src/app/app.component.ts:94-104 | every graveyard name of the input has an entry, and only those names do |
| Seqs.TallyTotal | src/app/app.component.ts:94-104 | the counts sum to the number of features grouped |
| Seqs.TallyBump | src/app/app.component.ts:96-100 | seeing a name already in the Map adds one to its entry in place and changes nothing else |
| Seqs.TallyAppend | src/app/app.component.ts:101-103 | seeing a new name appends the entry (name, 1) at the end |
| Features.Matching | src/app/app.component.ts:81 | the filter keeps only features with exactly that `friedhof`, as many as there are in the input |
| Features.MatchingFirst | src/app/app.component.ts:57-58 | when a feature has the name, the filter's element `[0]` is the first such feature of the input |
| Features.MatchingComplete | src/app/app.component.ts:44 | the filter keeps every feature that has the name |
| Features.CoordinatesOf | src/app/app.component.ts:45 | mapping features to `geometry['coordinates']` throws exactly when some geometry is null, and otherwise gives each feature's coordinates in order |
| Statistics.GravesIn | src/app/app.component.ts:81-83 | the Buschhoven count is the number of features whose `friedhof` equals the name exactly; it is at most the number of features; it is 0 exactly when no feature has that name |
| Statistics.AllKeysHas | src/app/app.component.ts:88 | a name is among the concatenated property names exactly when some feature has that property |
| Statistics.UnionReduceIsDistinctKeys | src/app/app.component.ts:88 | the pairwise `reduce` of `Set` unions equals the deduplicated list of all property names in first-seen order |
| Statistics.KeyUnion | src/app/app.component.ts:88 | `gravePlotFields` throws on an empty collection; otherwise it has no duplicates and contains a name exactly when some feature has that property, in first-seen order |
| Statistics.KeyUnionReorder | src/app/app.component.ts:88 | reordering or repeating the features does not change which names the field union holds |
| Statistics.KeyIndex | src/app/app.component.ts:96-99 | `Map.has`/`get`: finds the key's entry exactly when the key is present |
| Statistics.GroupByFriedhof | src/app/app.component.ts:94-104 | the `forEach` loop leaves the insertion-ordered Map equal to `Tally` of the features' graveyard names |
| Statistics.EarliestMaxUnique | src/app/app.component.ts:105 | "count no entry exceeds, reached by no earlier entry" picks at most one entry |
| Statistics.ReduceMax | src/app/app.component.ts:105 | the strict `>` reduce returns an entry of the list whose count no entry exceeds, and no earlier entry reaches that count |
| Statistics.MostUnassigned | src/app/app.component.ts:105 | the reduce throws on an empty list; otherwise it gives the earliest entry with the largest count |
| Statistics.MostUnassignedIsMostFrequent | src/app/app.component.ts:94-105 | on a non-empty collection the result is a graveyard that occurs, paired with its count; no graveyard has more features; among graveyards with that count it is the one seen first |
| Statistics.MostUnassignedExample | src/app/app.component.ts:94-105 | features named A, B, A give ("A", 2) |
| Statistics.MostUnassignedTie | src/app/app.component.ts:105 | on a tie {A: 3, B: 3} the first entry, ("A", 3), wins |
| Styling.StyleOf | src/app/app.component.ts:146-159 | "Nutzungsfristende" exactly when the end date parses to a time strictly after `now`, whatever `verstorbene` is; otherwise "Verstorbene" exactly when `verstorbene` is neither null nor undefined; otherwise "Other" |
| Styling.NotFutureFallsThrough | src/app/app.component.ts:149-154 | an end date equal to `now`, in the past, absent or unparseable (NaN) styles the feature as if it had none |
| Styling.UsageEndingFadesWithTime | src/app/app.component.ts:151 | a feature styled "Nutzungsfristende" at some time was styled so at every earlier time |
| App.AppComponent.constructor | src/app/app.component.ts:29-33 | no data; the view is `None`, which stands for the default view the library gives a map built without a `view` option (no centre, no zoom); title "Graveyard Viewer", no statistics yet |
| App.AppComponent.Friedhofs | src/app/app.component.ts:35-39 | `[]` without data; otherwise the graveyard names present, each once, in first-occurrence order |
| App.AppComponent.FriedhofCoordinates | src/app/app.component.ts:41-46 | `[]` without data; throws exactly when a matching feature has a null geometry; otherwise `undefined` exactly when no feature matches, else the coordinates of the first matching feature |
| App.AppComponent.SelectedFriedhof | src/app/app.component.ts:49-54 | the event target's value when there is a target; otherwise the name of the first loaded feature, or `undefined` without features |
| App.AppComponent.ChangeGrab | src/app/app.component.ts:48-68 | without data, no change. With data, it throws when no feature matches the selection. When the first match has a geometry, the view becomes zoom 19 at that geometry's centre; otherwise the view is unchanged. Nothing else changes |
| App.AppComponent.OnAllGraveyards | src/app/app.component.ts:73-77 | `numberOfGraveyards` becomes the list's length; nothing else changes |
| App.AppComponent.OnGravesForBuschhoven | src/app/app.component.ts:79-84 | `numberOfGravesInBuschhoven` becomes the number of features named "Buschhoven"; nothing else changes |
| App.AppComponent.OnFieldsOfGravePlots | src/app/app.component.ts:86-90 | on an empty collection the callback throws and the field list is unchanged; otherwise it becomes the union of property names; nothing else changes |
| App.AppComponent.OnMostUnassigned | src/app/app.component.ts:92-107 | on an empty collection the callback throws and the statistic is unchanged; otherwise it becomes the earliest group with the largest count; nothing else changes |
| App.AppComponent.OnAvailableGraveyards | src/app/app.component.ts:109-191 | the collection is kept and the view reset to centre (0, 0) at zoom 1. `changeGrab(null)` then centres at zoom 19 on the first feature when it has a geometry, and throws on an empty collection |
| GraveyardData.AllGraveyards | src/app/services/graveyard-data.service.ts:16-18 | the URL is the base URL followed by exactly `/friedhof` |
| GraveyardData.AllAvailableGraveyards | src/app/services/graveyard-data.service.ts:20-26 | `base/grab` for a null or undefined id; otherwise `base/grab?friedhofId=` followed by the id, unencoded |
| GraveyardData.AllAvailableGravePlots | src/app/services/graveyard-data.service.ts:28-34 | the same rule with the path `/grabstelle` |
| GraveyardData.AllUnassignedGravePlots | src/app/services/graveyard-data.service.ts:36-38 | the URL is the base URL followed by exactly `/grabstelle/unverknuepft` |
| GraveyardData.ParseUrlOfUrl | src/app/services/graveyard-data.service.ts:16-38 | every built URL reads back as its endpoint and its id, unchanged |
| GraveyardData.UrlOfInjective | src/app/services/graveyard-data.service.ts:16-38 | two different requests never share a URL |

## Left out

- HTTP transport: `HttpClient.get`, Observables and `subscribe` are not modelled. Each request
  callback is a method taking the delivered collection. The callbacks may run in any order,
  since each is a separate call on the component.
- OpenLayers is not modelled: `GeoJSON.readFeatures`, the sources and layers, `OlMap`
  construction, and the `Style`/`Stroke`/`Fill` colours. The view is a value `View(center,
  zoom)`. `readFeatures` is taken to keep each feature's properties and whether it has a
  geometry.
- `getExtent`/`getCenter` are floating-point geometry inside the library. They are the
  parameter `center`.
- `Date.now()` and `Date.parse` are a clock and a foreign parser. They are the parameter `now`
  and the pre-parsed `nutzungsfristende`.
- Coordinates are kept as an opaque `seq<int>`. Nested GeoJSON coordinate arrays and
  geometry collections without a `coordinates` member are not modelled.
- JavaScript numbers are unbounded `int`/`nat` here. Counts and timestamps never get near
  2^53 in practice.
- A `friedhof` property that is missing or not a string is not modelled: every feature has a
  string name.
- The `Graveyard` record type (src/app/types/graveyard.ts) is not part of this model. Only the
  length of the list is used, so `OnAllGraveyards` is generic over the record type.
- `console.log`, the Angular decorators and the template are not modelled.
- src/app/services/overlay-data.service.ts is a single fetch of a static asset with no logic.
