# Airport name search

This project models the only logic of its own in a small map front-end: the
airport search `getAirports(query)` of `utils.js`. The function fetches the
airports dataset, a GeoJSON FeatureCollection (section 3.3 of RFC 7946). It
keeps every feature whose `properties.name`, lower-cased, includes the
lower-cased query, and it returns the first five of these in dataset order.

The model starts after the fetch. The fetched `features` array is the input
sequence. The function is pure, so the model is written as functions and lemmas:

- `wrappers.dfy` (module `Wrappers`): `Option` for values that may be
  `undefined`/`null`, `Result` for a promise that is fulfilled or rejected, and `Min`.
- `js_string.dfy` (module `JsString`): `toLowerCase` over ASCII letters
  (`ToLower`), `includes` as a left-to-right scan (`Includes`), and the
  substring relation it is proved to decide (`Contains`).
- `airports.dfy` (module `Airports`): features, the filter callback
  (`KeepFeature`), the filter (`Filter`), the `.slice(0, 5)` cap (`Take`) and
  `GetAirports`, with lemmas for the properties of the search.

Error behaviour follows the code. The optional chain `properties?.name.toLowerCase()`
guards only `properties`:

- A feature without `properties` yields `undefined`, which is falsy, so it is skipped.
- A feature that has `properties` but no `name` makes the callback throw a TypeError.
  This rejects the whole call.

`filter` runs over every feature before `slice` is applied. So the call also
rejects when the nameless feature comes after five matches have already been
found (`ThrowsAfterFiveMatches`). Nothing in utils.js catches this rejection.
The model returns it as `SearchError.TypeError(featureIndex)`, which names the
first such feature.

## Model

| member | source | states |
|---|---|---|
| `JsString.ToLower` | utils.js:14 | the lower-cased string has the same length, contains no A-Z, keeps every other character and moves each A-Z letter to its lower-case letter |
| `JsString.ToLowerIdempotent` | utils.js:14 | lower-casing an already lower-cased string changes nothing |
| `JsString.Includes` | utils.js:14 | `s.includes(t)`, a left-to-right scan of the start positions, is true exactly when `t` occurs in `s` at some position |
| `JsString.ContainsLowered` | utils.js:14 | when `t` occurs in `s` as written, the lower-cased `t` occurs in the lower-cased `s` |
| `JsString.ContainsEmpty` | utils.js:14 | the empty string occurs in every string |
| `Airports.KeepFeature` | utils.js:12-15 | the callback throws exactly on a feature with properties but no name; otherwise it keeps the feature exactly when its lower-cased name contains the lower-cased query |
| `Airports.Filter` | utils.js:12-15 | rejects exactly when some feature is nameless, and names the first such feature; otherwise the result has one entry per matching feature, only matching features, every matching feature, and is a subsequence of the input |
| `Airports.SubsequencePrefix` | utils.js:18 | every prefix of a subsequence is a subsequence, so the sliced result stays in source order |
| `Airports.Take` | utils.js:18 | `.slice(0, n)` returns min(n, length) elements, each equal to the input element at the same position |
| `Airports.GetAirports` | utils.js:12-18 | rejects exactly when some feature is nameless, at the first one; otherwise returns at most 5 features, exactly min(5, number of matches), each matching the query, in source order (a subsequence), and every matching feature when fewer than 5 match |
| `Airports.FirstMatches` | utils.js:18 | the reference "first n matches", found by stopping at the n-th match, has min(n, number of matches) elements |
| `Airports.TakeFilterIsFirstMatches` | utils.js:12-18 | with no nameless feature, filtering then slicing to n equals stopping at the n-th match |
| `Airports.GetAirportsIsFirstMatches` | utils.js:12-18 | the search returns the first five matches and no later match in place of an earlier one |
| `Airports.FilterCaseInsensitive` | utils.js:12-15 | two queries with the same lower-case form filter identically, errors included |
| `Airports.CaseInsensitive` | utils.js:14 | two queries with the same lower-case form give the same search result |
| `Airports.LowerCasedQuery` | utils.js:14 | searching with the lower-cased query gives the same result as searching with the query |
| `Airports.FilterSkipsPropertyless` | utils.js:14 | a leading feature without properties adds nothing to the filter result and only moves a later error index by one |
| `Airports.FilterPropertyless` | utils.js:12-15 | inserting a feature without properties anywhere leaves the filtered features unchanged and moves only later error indices |
| `Airports.PropertylessSkipped` | utils.js:12-18 | inserting a feature without properties anywhere leaves the search result unchanged and moves only later error indices |
| `Airports.EmptyQueryMatchesNamed` | utils.js:14 | the empty query matches exactly the features that have a name |
| `Airports.FilterEmptyQuery` | utils.js:12-15 | with no nameless feature, the empty query keeps exactly the features that carry properties, in order |
| `Airports.EmptyQuery` | utils.js:12-18 | with no nameless feature, the empty query returns the first five features that carry properties |
| `Airports.DenverFound` | utils.js:12-18 | the queries "den" and "DEN" return Denver International Airport and skip a feature without properties |
| `Airports.ThrowsAfterFiveMatches` | utils.js:12-18 | five matches followed by a nameless feature reject the call at index 5 |

## Left out

- The dynamic `import('axios')` and the HTTP GET of the dataset (utils.js:2-7). The fetched `data.features` is a parameter. A failed request, or a response without a `features` array, is not modelled.
- `ToLower`: lower-cases only the ASCII letters A-Z. JavaScript's `toLowerCase` applies the full Unicode case mapping; other characters are kept unchanged here.
- `name` is modelled as present or absent. A present name that is not a string (a number, say) also makes the JavaScript callback throw; the model has no such value.
- `query` is a string. A non-string query would throw at `query.toLowerCase()`; it is not modelled.
- The promise is modelled as its settled outcome (`Result`). Timing and the ordering of concurrent searches are not modelled.
- The debounced search box and its 3-character threshold are not part of this model: their code is not among the files modelled. So the rules "short queries give no results" and "selecting a result clears the list" are not stated here.
- The map components (components/MapWithData.js, components/MapWithLiveMusic.js, components/AirportsCluster.js, components/DataWithoutCluster.js) only configure and call into the Mapbox GL SDK: sources, layers, paint expressions, click and hover handlers, popups, camera moves and the coordinate readout. Their behaviour lives in the vendor library. The pages (pages/*.js) are routing and configuration glue. None of these is modelled.
