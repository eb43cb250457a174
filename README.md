# Trail finder — Dafny model

This project models the logic of a browser page that searches for parks and
trails near an address. The user enters an address and a radius. The page
geocodes the address, runs a nearby search for parks, keeps the results within
the radius, sorts them by distance, and renders one map marker and one list
item per result. The whole program is `script.js`. The model covers its four
pieces of logic:

- `zoom.dfy` (module `Zoom`): `getZoomLevel`, the map zoom chosen from the radius.
- `ranking.dfy` (module `Ranking`): the body of the nearby-search callback.
  `RankTrails` collects the places within the radius with a loop that pushes onto
  a list. It then sorts that list in place with a stable insertion sort on an
  array (`SortInPlace`, `InsertInPlace`). Both are proved equal to the
  specification `Ranked` = `SortByDistance(Filter(...))`. Lemmas show that this
  specification keeps exactly the places within the radius (the bound is
  inclusive), that it is sorted, that it is a permutation of the filtered list,
  and that it is stable. Stability means every group of equal-distance trails
  keeps the provider's order. It is also the only list with these properties
  (`StableSortUnique`). ECMAScript has required `Array.prototype.sort` to be
  stable since ES2019.
- `page.dfy` (module `TrailPage`): the page state as a class `Page`. It holds
  the zoom, the map centre, the markers, the trail list and the alerts. Its
  methods model the submit handler, `findTrails`, `clearTrailList`,
  `createMarker` and `addTrailToList`. It also has the rating fallback: a missing
  rating or a rating of `0` is falsy and shows "No rating available".
- `places.dfy` (module `Places`): the values the provider hands over (`Place`,
  `LatLng`) and the scored `Trail`.

The foreign calls enter as abstract inputs:
- The geocoder's and the places service's outcomes are the datatypes
  `GeocodeOutcome` and `SearchOutcome`.
- The provider's distance computation is a function parameter `distanceBetween`.

Like the source, the list items and markers measure their distance again from
the searched location. They do not take it from the ranked trail.
`RenderedListRanked` proves that the two measurements agree. So the rendered
list is non-decreasing in distance and never shows a place beyond the radius.

`clearTrailList` (script.js:41-44) empties only the list, and no code removes
a marker. So markers from earlier searches stay on the map: `Page.Submit`
resets `entries` but appends to `markers`.

Ranking is deterministic: `RankTrails` returns `Ranked(...)`, a function of its
inputs.

## Model

| member | source | states |
|---|---|---|
| `Zoom.ZoomLevel` | script.js:32-38 | the zoom level is always one of 10, 11, 12, 13, 14 |
| `Zoom.ZoomBands` | script.js:32-38 | zoom is 14 exactly below 1700 m, 13 on [1700, 5000), 12 on [5000, 10000), 11 on [10000, 20000), 10 from 20000 m on; every upper bound is strict |
| `Zoom.ZoomCountsThresholds` | script.js:32-38 | the zoom level is 14 minus the number of thresholds (1700, 5000, 10000, 20000 m) the radius has reached |
| `Zoom.ReachedMonotone` | script.js:32-38 | a larger radius reaches at least as many thresholds |
| `Zoom.ZoomMonotone` | script.js:32-38 | a larger radius never gives a larger zoom level |
| `Ranking.Filter` | script.js:65-74 | the push loop keeps at most one trail per provider result |
| `Ranking.FilterAppend` | script.js:65-74 | the filter keeps the provider's order: filtering a concatenation concatenates the filtered parts |
| `Ranking.FilterOne` | script.js:66-73 | a single result is kept, paired with its own distance, exactly when that distance is at most the radius |
| `Ranking.FilterCount` | script.js:65-74 | each trail is kept exactly as many times as its place occurs among the results if it carries that place's distance and is within the radius, and otherwise never |
| `Ranking.FilterMembers` | script.js:65-74 | a trail is collected iff its place is among the results, its distance is that place's distance from the centre, and that distance is at most the radius (inclusive) |
| `Ranking.Insert` | script.js:77-79 | inserting one trail lengthens the list by exactly one |
| `Ranking.InsertPermutes` | script.js:77-79 | one insertion step adds exactly the inserted trail to the multiset of trails |
| `Ranking.InsertSorted` | script.js:77-79 | inserting into a distance-sorted list keeps it sorted |
| `Ranking.InsertTies` | script.js:77-79 | the inserted trail goes after every trail at the same distance |
| `Ranking.SortByDistance` | script.js:77-79 | the stable sort keeps the number of trails |
| `Ranking.SortSorted` | script.js:77-79 | the sorted list is non-decreasing by distance |
| `Ranking.SortPermutes` | script.js:77-79 | sorting only reorders: same multiset of trails |
| `Ranking.SortKeepsTies` | script.js:77-79 | the sort is stable: the trails at any one distance appear in their original order |
| `Ranking.TiesMembers` | script.js:77-79 | the trails at distance d are exactly the list's members with distance d |
| `Ranking.SortedTiesDetermine` | script.js:77-79 | two sorted lists with the same order of ties at every distance are equal |
| `Ranking.StableSortUnique` | script.js:77-79 | any sorted reordering that keeps every group of ties in order is the sort's result |
| `Ranking.InsertAt` | script.js:77-79 | a trail is inserted right after the last trail not farther than it, so it follows all its ties and precedes all farther trails |
| `Ranking.InsertInPlace` | script.js:77-79 | one pass of the in-place insertion sort computes the functional insertion step on the prefix and leaves the rest untouched |
| `Ranking.SortInPlace` | script.js:77-79 | the in-place sort leaves the array equal to the stable sort of its old contents |
| `Ranking.Ranked` | script.js:62-79 | the callback's ranked list has no more trails than the provider returned and is sorted by distance |
| `Ranking.RankTrails` | script.js:62-79 | the push loop followed by the in-place sort yields exactly the stable sort of the filtered results |
| `Ranking.RankedWithinRadius` | script.js:65-74 | every ranked trail is a provider place at most the radius away, paired with its own distance |
| `Ranking.RankedComplete` | script.js:65-74 | every provider place within the radius (inclusive) is ranked, paired with its distance |
| `Ranking.RankedIsStableSort` | script.js:62-79 | the ranked list is sorted by distance, a permutation of the filtered list, and keeps every group of ties in the provider's order |
| `Ranking.ThreeParksExample` | script.js:62-79 | parks at 500 m, 2000 m and 1000 m with a 1609.34 m radius rank as the first then the third |
| `TrailPage.RatingLabel` | script.js:142 | the fallback text is shown iff the rating is absent or zero; otherwise the rating itself is shown |
| `TrailPage.EntryFor` | script.js:127-146 | a list item is named after its place and shows the fallback rating text iff the rating is absent or zero |
| `TrailPage.MarkerFor` | script.js:99-113 | a marker stands at its place, its info window names the place and shows the fallback rating text iff the rating is absent or zero |
| `TrailPage.Rendered` | script.js:50-93 | trails are rendered only when both the geocoder (script.js:50) and the nearby search (script.js:61) report OK, never more than the provider returned, and sorted by distance |
| `TrailPage.EntriesFor` | script.js:82-85 | one list item per trail, the k-th item built from the k-th trail's place |
| `TrailPage.MarkersFor` | script.js:82-85 | one marker per trail, the k-th marker built from the k-th trail's place |
| `TrailPage.GeocodeAlert` | script.js:92 | the alert message ends with the geocoder's status |
| `TrailPage.FailureRendersNothing` | script.js:86-93 | if geocoding or the nearby search fails, no trail, marker or list item is produced |
| `TrailPage.RenderedListRanked` | script.js:82-85 | after a successful search the list has one item per ranked trail, named after its place, showing that trail's own distance; every shown distance is within the radius and the list is non-decreasing in distance |
| `TrailPage.Page.constructor` | script.js:4-11 | the map starts at zoom 10 centred on San Francisco, with no markers, list items or alerts |
| `TrailPage.Page.ClearTrailList` | script.js:41-44 | the trail list becomes empty; nothing else changes |
| `TrailPage.Page.AddTrailToList` | script.js:125-147 | exactly one item for the place is appended to the end of the list |
| `TrailPage.Page.CreateMarker` | script.js:99-121 | exactly one marker for the place is added to the map |
| `TrailPage.Page.RenderTrails` | script.js:82-85 | one marker and one list item are appended per trail, in the trails' order |
| `TrailPage.Page.FindTrails` | script.js:46-96 | on success the map is recentred and one marker and one list item per ranked trail are appended in ranked order; on a geocoding failure only an alert is added; on a search failure nothing is added |
| `TrailPage.Page.Submit` | script.js:14-28 | the zoom is set from the radius, the list is cleared, then the search runs: the list ends holding exactly the rendered trails' items, while markers from earlier searches remain; after a geocoding or search failure the list is empty and no marker was added |

## Left out

- The Google Maps surface is not modelled: the map widget, `Geocoder`, `PlacesService`, `Marker`, `InfoWindow` and event listeners are foreign calls. Their outcomes are the inputs `GeocodeOutcome`, `SearchOutcome` and `distanceBetween`.
- A geocoder that reports OK with no results is not modelled: `Geocoded` carries the first result's location, and the source would fail on `results[0]` in that case.
- The great-circle distance computation is not modelled. It is floating-point spherical trigonometry in a foreign library, so it is the parameter `distanceBetween`.
- Floating point is not modelled. Radii, distances and ratings are `real`. So the model does not capture a radius that is not a number: every comparison with NaN is false, so the source would pick zoom 10 and keep no place. The comparator `a.distance - b.distance` is modelled as the comparison of the two distances.
- `TrailPage.Page.Submit`: takes the radius already in metres. The miles-to-metres conversion (`* 1609.34`), and the conversion back to miles with `toFixed(2)` for display, are floating-point formatting. So list items and markers carry distances in metres.
- `TrailPage.RatingLabel`: a NaN rating, which is also falsy, is not modelled.
- The search link built with `encodeURIComponent` is not modelled, because the encoder is foreign. A list item carries the place's name, which is the link text.
- The info window's two-second auto-close timer is not modelled, because it is timer-driven UI.
- The `console.error` diagnostic log is not modelled, because it is output the user does not see.
- Loading the API key from `config.js` and injecting the maps script (script.js:1, 151-160) are not modelled, because they are I/O and configuration.
- Overlapping searches are not modelled. An earlier callback chain may render after a later one, and the source does not coordinate this. The model runs one search sequentially.
- The unused `distance` argument passed to `createMarker` and `addTrailToList` (script.js:83-84) is not modelled. Those functions ignore it and measure the distance again, as the model does.
