# Help-line service directory: a verified model of its core

The help-line service is a single-page directory of emergency and public-service
phone numbers for Rajshahi and Bangladesh. The page lists the catalog under
Bengali section headings. It can:

- rank the list nearest first when the browser knows where the user is;
- filter the list by a search text;
- let the user mark favourites, copy a number and place calls;
- remember a heart counter, a copy counter, the favourites and the last five
  calls between visits.

This project models the deterministic core of `index.js` in Dafny and proves
what that core promises.

| file | module | what it models |
|---|---|---|
| `services.dfy` | `Services` | The service record, the three kinds of `distance` a service can carry, the truthiness test on coordinates, and the vocabulary of filters and order-preserving sub-lists. |
| `ranking.dfy` | `Ranking` | The ordering part of `sortByNearest`: annotate every service, then apply a stable ascending sort under the page's comparator. |
| `search.dfy` | `Search` | `trim`, `toLowerCase` and `includes` on strings, and the search filter of `filterAndRender`. |
| `grouping.dfy` | `Grouping` | `groupServicesByCategory`: a method that fills the category dictionary by pushes and then lists the non-empty buckets. It is proved against a declarative routing table. |
| `titles.dfy` | `Titles` | The section headings of `renderCards`, the "nearest first" note and a card's distance label. |
| `session.dfy` | `Session` | The session state. Pure transitions carry the properties. A `Session` class holds the same fields, and its handler methods are proved equal to those transitions. |

### How the model reads the code

- **Distances.** A service carries one of three:
  - `Absent`: no `distance` field, because no location was known;
  - `Infinite`: the `Infinity` marker, for a service without a coordinate;
  - `Km(tenths)`: the distance after `toFixed(1)`, counted in tenths of a kilometre.
- **Coordinates.** `svc.lat && svc.lng` is a truthiness test, so a zero
  latitude or longitude counts as missing.
- **The comparator** `a.distance - b.distance`:
  - returns NaN for two `Infinity` markers, and the sort treats that as a tie;
  - leaves services with equal distances in their input order, because
    `Array.prototype.sort` is stable.
- **Great-circle distance and rounding** are not computed. `roundedTenths`, a
  function parameter, supplies them.
- **The user location** is an `Option<Coord>` parameter.
- **The clipboard result and the clock label** are parameters of the handlers
  that use them.

## Model

| member | source | states |
|---|---|---|
| `Ranking.DistanceFor` | index.js:69-80 | A service with a present, non-zero latitude and longitude gets its rounded distance from the user to its own coordinate. Any other service gets the `Infinity` marker. It is never left without a distance. |
| `Ranking.Annotate` | index.js:68-81 | The annotated list has the input's length. Each element differs from the service at its position only in its distance. That distance is the rounded distance to the service's own coordinate, or the `Infinity` marker exactly when the service has no coordinate. |
| `Ranking.RankByNearest` | index.js:60-85 | Without a location the input comes back unchanged. With one, the result is a permutation of the annotated services. It is sorted by the comparator and carries no missing distance. Services with equal distance keep their input order. `Infinity` marks exactly the services without a coordinate, and those markers form a suffix. Every located service carries its rounded distance from the user to its own coordinate, so the located services come nearest first. |
| `Ranking.SortIsPermutation` | index.js:82 | The sort neither adds nor loses a service: the multisets are equal. |
| `Ranking.SortIsSorted` | index.js:82 | Once every service carries a distance, no later service sorts strictly before an earlier one. |
| `Ranking.SortIsStable` | index.js:82 | For every distance value, the services carrying it appear in the sorted list in their input order. |
| `Ranking.InfiniteIsSuffix` | index.js:80-82 | In a sorted, fully annotated list, every service after an `Infinity` marker also has one. |
| `Search.TrimStart` | index.js:305 | The result is a suffix of the input. Every dropped character is ECMAScript white space or a line terminator, and the result does not start with one. |
| `Search.TrimEnd` | index.js:305 | The same at the end of the string. |
| `Search.TrimEmpty` | index.js:156 | A string trims to the empty string exactly when all its characters are white space or line terminators. |
| `Search.LowerKeepsBlank` | index.js:156 | Lower-casing never changes whether the search text is blank. So the filter, which lower-cases before trimming, and the grouping, which only trims, agree on whether a search is active. |
| `Search.LowerChar` | index.js:312-315 | The result is never an upper-case Basic Latin letter. It is a case variant of the argument. Any other character is returned unchanged. |
| `Search.LowerCharFolds` | index.js:312-315 | An upper-case letter and its lower-case form lower to the same letter, which is the lower-case form. |
| `Search.CaseVariantsLowerAlike` | index.js:312-315 | Two characters that differ only in case lower to the same character. |
| `Search.LowerIgnoresCase` | index.js:305 | Two strings that differ only in letter case lower to the same string. |
| `Search.SearchIgnoresTextCase` | index.js:305-318 | Two search texts that differ only in letter case show the same services. |
| `Search.MatchesIgnoresFieldCase` | index.js:312-315 | Changing the case of a service's title, subtitle or category does not change whether it matches. The number is compared as written. |
| `Search.SearchIgnoresFieldCase` | index.js:310-317 | A service and its case variant, each in its own list, are either both kept or both left out. |
| `Search.IncludesIffWindow` | index.js:312-315 | The left-to-right scan used for `includes` holds exactly when some window of the text equals the search text. |
| `Search.FilterServices` | index.js:305-318 | The result is an order-preserving sub-list of the services. A blank trimmed text keeps every service. A service is kept exactly when the text is blank or the lower-cased, trimmed text occurs in a lower-cased title, subtitle or category, or in the raw number. A kept service appears as many times as in the input, and any other service not at all. |
| `Grouping.CategoryKeysDistinct` | index.js:161-180 | The seventeen dictionary keys are pairwise distinct. |
| `Grouping.Route` | index.js:184-192 | A routed service always lands in a declared key, and never in the `Rajshahi Clinic` or `Rajshahi Health` bucket. |
| `Grouping.RouteMatchesTable` | index.js:184-192 | A service's category sends it to bucket `key` exactly when the routing table lists that category as a source of `key`. The table says: Clinic, Health and Private go to Hospital; an exact key goes to itself; `Rajshahi Govt.` goes to `Govt.`. A service is dropped exactly when no bucket lists its category. |
| `Grouping.CatalogRoutes` | index.js:457-460 | The catalog's `Rajshahi Health`, `Rajshahi Govt.` and `Rajshahi Electricity` entries go to Hospital, to `Govt.`, and nowhere, respectively. |
| `Grouping.FillBuckets` | index.js:161-193 | After the `forEach`, the dictionary has exactly the declared keys. Each bucket holds the services routed to it, in input order. |
| `Grouping.GroupServicesByCategory` | index.js:155-201 | With a non-blank search bar, the result is the single `SearchResults` group holding the input as it is. Otherwise it is the non-empty buckets, in key order. |
| `Grouping.ListGroups` | index.js:195-200 | Given buckets that match their specification, the listed groups are exactly the non-empty buckets of the given keys, in key order. |
| `Grouping.BucketContents` | index.js:182-193 | A bucket is an order-preserving sub-list of the input, and it holds exactly the services routed to its key. |
| `Grouping.GroupsForShape` | index.js:195-200 | Every listed group is a non-empty bucket of a declared key, and every non-empty bucket is listed. The group labels follow the declared key order. |
| `Grouping.GroupsKeepRouted` | index.js:182-200 | The members of all groups are exactly the routed services, counted with multiplicity. Their number is the input length minus the dropped services. |
| `Grouping.NoClinicOrHealthGroup` | index.js:167-169 | No `Rajshahi Clinic` or `Rajshahi Health` group ever appears, because both are merged into Hospital. |
| `Titles.NatToString` | index.js:226 | The printed count is a non-empty string of decimal digits. It starts with `0` exactly when the count is zero, so it has no leading zero. |
| `Titles.NatToStringRoundTrip` | index.js:226 | The printed count reads back as the count itself. |
| `Titles.KeyTitle` | index.js:227-241 | A label gets a heading other than itself exactly when it is a declared key other than `Rajshahi Clinic` and `Rajshahi Health`. Any other label is shown as it is. |
| `Titles.BaseTitle` | index.js:224-241 | The search heading is the fixed prefix, the number of results in decimal without a leading zero, and the fixed suffix. The count reads back as the number of results. A heading differs from its label exactly for the search group and for translated keys. |
| `Titles.GroupHeadingsTranslated` | index.js:195-241 | On the grouped page every section gets a translated heading. No group is headed by its bare key. |
| `Titles.DistanceText` | index.js:78 | A computed distance prints as `toFixed(1)` gives it: whole kilometres without a leading zero, a point, and one digit. The text reads back as the distance in tenths. A missing or infinite distance prints with no digit at all. |
| `Titles.NearestNoteWithoutLocationAsWritten` | index.js:244-246 | As written, when no location is known, the search heading still gets the "nearest first" note. |
| `Titles.NearestNoteIffLocated` | index.js:243-246 | The corrected search heading carries the note exactly when a location is known and some listed service has a coordinate. Other headings never carry it. |
| `Titles.FirstRankedIsLocated` | index.js:244 | With a location, the first ranked service has a computed distance exactly when some service has a coordinate. |
| `Titles.UndefinedDistanceLabelAsWritten` | index.js:279-285 | As written, when the page is ranked without a location, every card of the list is labelled `(undefined km)`. |
| `Titles.DistanceLabel` | index.js:279-285 | The corrected label is shown exactly for a computed distance. It is `(`, then the distance with one decimal place reading back as its tenths, then ` km)`. |
| `Titles.DistanceLabelIffLocated` | index.js:279-285 | On the ranked page, a card shows a distance exactly when a location is known and the service has a coordinate. |
| `Titles.ZeroDistanceLabel` | index.js:283 | Zero tenths and thirty-two tenths print as `(0.0 km)` and `(3.2 km)`. |
| `Session.DeriveFavorites` | index.js:140-143 | Every catalog entry stays in its place and differs only in its favourite flag. That flag is set exactly when the entry's id is among the saved favourites. |
| `Session.FindIndex` | index.js:331 | The result is -1 exactly when no service has the id. Otherwise it is the first position holding the id. |
| `Session.InitValid` | index.js:99-105 | Start-up always leaves every flag in agreement with the saved ids. From the default record, the heart count is zero and nothing is a favourite. A record the page wrote yields a valid session. |
| `Session.ReloadRestores` | index.js:108-119 | Saving only hearts, copies, history and favourite ids loses nothing. Starting up again from that record over the same catalog rebuilds the same session. |
| `Session.ToggleUnknownId` | index.js:331-332 | A heart click for an id no service has changes nothing. |
| `Session.ToggleKnownId` | index.js:331-348 | On a valid session, a heart click flips exactly that service's flag and moves the id into or out of the favourites to match. Every other field of that service is unchanged. `hearts` goes up or down by one and stays non-negative. Copies and history are unchanged, and the session stays valid. |
| `Session.ToggleHeartsFloor` | index.js:338-345 | For any session with a non-negative counter, valid or not, a heart click keeps the counter non-negative. A removal at zero hearts leaves zero, another removal lowers it by one, and an addition raises it by one. |
| `Session.ToggleTwiceRestores` | index.js:331-348 | Two heart clicks on the same id restore the session. |
| `Session.CopyCounts` | index.js:358-365 | Only a successful copy counts, by one, and it changes nothing else. |
| `Session.PushCallShape` | index.js:373-377 | After a call, the new entry is first and the older entries follow in order. A history below the cap of five grows by one. A full one keeps its length and loses only its oldest entry, and so does a loaded history already over the cap, since only one entry is popped. |
| `Session.CallAllKeepsMostRecent` | index.js:373-377 | After a run of calls, the history is those calls newest first, followed by the earlier history, cut to five. |
| `Session.SixCalls` | index.js:373-377 | Six calls from an empty history keep the last five, newest first. |
| `Session.HandlersKeepValid` | index.js:331-377 | Toggling, calling and clearing keep a session valid. In a valid session, flags match the favourites, ids are unique, copies are non-negative, hearts equal the number of favourites, and the history holds at most five calls. A call comes first in the history. Clearing empties only the history. |
| `Session.Session.constructor` | index.js:139-143 | The session starts from the saved record, with flags derived from the favourites. |
| `Session.Session.ToggleFavorite` | index.js:330-351 | The fields change exactly as the pure heart transition says, and validity is kept. |
| `Session.Session.CopyFinished` | index.js:359-365 | The fields change exactly as the pure copy transition says, and validity is kept. |
| `Session.Session.Call` | index.js:372-377 | The fields change exactly as the pure call transition says, and validity is kept. |
| `Session.Session.ClearHistory` | index.js:423-427 | The history becomes empty, nothing else changes, and validity is kept. |

## Left out

- The haversine distance and `toFixed(1)` (index.js:15-26, 78) are floating-point arithmetic. The model takes the rounded distance from the `roundedTenths` parameter.
- Browser geolocation, with its timeout and asynchrony (index.js:32-53), is not modelled. Its outcome is the optional `user` parameter.
- `loadState` and `saveState` (index.js:90-119) read and write localStorage through JSON, which is not modelled. The model covers the default record (`DefaultSaved`) and the four saved fields (`Persisted`). A stored record of any other shape is not modelled.
- DOM work is not modelled: card cloning, CSS classes, badge text rewrites, history markup, counters, and the "no match" message (index.js:207-299, 400-417).
- Clipboard writes, `tel:` navigation, the maps button and `alert` (index.js:359-394) are foreign browser calls. The clipboard's answer is the `succeeded` parameter.
- `toLocaleTimeString` (index.js:372) depends on locale and clock. The time label is an opaque string parameter.
- The assignment to `svc.isFavorite` at index.js:334 is not modelled. When the page is ranked with a location, `svc` is a spread copy made at index.js:78 or 80. Otherwise it is the `state.services` object itself, returned unchanged at index.js:63-66 and kept by the filter at index.js:310, and line 334 assigns the flag it already holds. The model tracks only `state.services`.
- The re-render after a heart click during a search (index.js:352-354) is not modelled, nor is the re-render on every keystroke. Both are asynchronous rendering, with no ordering between overlapping renders.
- The static catalog (index.js:440-539) is data. Only the categories of three entries appear, in `Grouping.CatalogRoutes`.
- The icon field of a service is presentation only and is not modelled.
- `Search.LowerChar`: lower-cases only A-Z. Full Unicode case mapping is not modelled. The catalog's Bengali text has no case.
- `Grouping.Route`: category names that are properties of `Object.prototype` are treated as unmapped. An example is `toString`. In the page, such a name passes the `categories[svc.category]` check and `push` then fails.
- `Grouping.Route` keeps the `Utility` branch at index.js:190-191, but that branch can never be reached, because `Utility` is already a key and the exact-key branch catches it first.

## Findings

| source | as written | input that shows it | evidently intended | confidence | as-written member | corrected member |
|---|---|---|---|---|---|---|
| index.js:244 | The "nearest first" note is added when `sortedServices[0].distance !== Infinity`. | A non-blank search while the location is unavailable. The list is returned unranked, with no `distance` field, so `undefined !== Infinity` holds and the heading claims nearest first. | Add the note only when the first service has a computed distance. | not executed | `Titles.SectionTitleAsWritten` (shown by `Titles.NearestNoteWithoutLocationAsWritten`) | `Titles.SectionTitle` (proved in `Titles.NearestNoteIffLocated`) |
| index.js:280 | The distance label is added when `svc.distance !== Infinity`. | Any render while the location is unavailable. Every card gets `(undefined km)`. | Label only the services whose distance was computed. | not executed | `Titles.DistanceLabelAsWritten` (shown by `Titles.UndefinedDistanceLabelAsWritten`) | `Titles.DistanceLabel` (proved in `Titles.DistanceLabelIffLocated`) |
