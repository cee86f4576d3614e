# Map search front end: the decoding and bookkeeping core

The browser side of the map search application (`static/js/app.js`) reads
untyped JSON that comes back from its own search endpoints and from the
Nominatim geocoder. It also keeps two small pieces of state: the location
search box's suggestion list and the "active interaction" of the results view.
This project models the part of that file that decides things, and proves what
it does:

- **Coordinates** (`toNumberLike`, `findLatLon`, `extractLatLonFromPayload`):
  the search for a latitude/longitude pair in an item payload. The search
  follows alias keys, nested `coordinates` and `point` fields, arrays and
  `"lat,lon"` / `"lat;lon"` strings.
- **Results** (`normalizeResults`, `getItemId`): picking the item list out of
  the response shapes the endpoints use, and picking an item's id.
- **Places** (`searchPlaces`, `geocodePlace`, the short label
  `label.split(',')[0] || label`): turning a geocoder answer into places.
- **Suggestions** (`suggestionsState` and its handlers): the request counter
  that lets only the latest suggestion fetch change the list.
- **Interaction** (`activeInteraction`, `finalizeActiveInteraction`,
  `handleResultClick`, the `beforeunload` handler): at most one opened item.
  Each opened item gets one `start` event and at most one `end` event.

JavaScript values are the datatype `JsValues.Value`; numbers are reals plus
NaN and the two infinities. `Number.parseFloat` is the parameter `parse`, and
`toFixed(5)` is the parameter `fixed5`; nothing is assumed about either. The
trimming and splitting of strings are defined in `JsStrings`. Promise outcomes
are `Places.Settled`. The two state holders are classes whose methods are
specified by pure step functions, and the lemmas are stated over those
functions.

## Model

| member | source | states |
|---|---|---|
| Coordinates.ToNumberLike | static/js/app.js:441-448 | a value converts exactly when it is a finite number, or a non-blank string whose parse is finite; the result is that number or that parse |
| Coordinates.FirstAlias | static/js/app.js:480-489 | the value of one alias loop; `FirstAliasIsFirstParsing` proves it is the converted value of the first listed key that is present and converts |
| Coordinates.ScanAliases | static/js/app.js:477-489 | the alias loop, which skips present keys that do not convert, ends with the value of the first key that is present and converts |
| Coordinates.FirstAliasIsFirstParsing | static/js/app.js:480-489 | the alias search yields a value iff some listed key is present and converts, and the value is that of the first such key |
| Coordinates.FirstAliasIgnoresOtherKeys | static/js/app.js:474-489 | keys that are not in the alias list take no part in the alias search |
| Coordinates.FindLatLon | static/js/app.js:450-510 | a falsy candidate, a number or a boolean yields null; the array, string and object branches are characterised by `ArrayFirstMatch`, `TextPair`, the precedence lemmas and `FindLatLonSound` |
| Coordinates.FirstFound | static/js/app.js:453-459 | the loop over an array's entries; `ArrayFirstMatch` proves it yields the first entry's pair that exists, and null iff none does |
| Coordinates.ArrayFirstMatch | static/js/app.js:453-459 | an array yields the result of its first entry that yields one, and null iff no entry does |
| Coordinates.FromText | static/js/app.js:461-471 | the string branch; `TextPair` gives its exact result for every string with a separator, and `TextWithoutSeparator` gives null for the rest |
| Coordinates.TextPair | static/js/app.js:461-471 | a string yields the parses of the trimmed texts before the first separator and between the first two separators when both convert, otherwise null; anything after the second separator is ignored |
| Coordinates.TextWithoutSeparator | static/js/app.js:462-470 | a string with no `,` or `;` has fewer than two parts and yields null |
| Coordinates.CoordinatesIgnoredAfterDirectPair | static/js/app.js:491-499 | when the object's own alias keys give both numbers, that pair is returned and `coordinates` is never consulted |
| Coordinates.CoordinatesReadAfterFailedPair | static/js/app.js:491-499 | when the alias keys do not give both numbers and `coordinates` yields a pair, that pair is the result |
| Coordinates.PointIgnoredAfterEarlierSource | static/js/app.js:495-504 | when the alias keys or `coordinates` give a pair, `point` is never consulted |
| Coordinates.PointIsLastResort | static/js/app.js:501-506 | when neither the alias keys nor `coordinates` give a pair, the result is that of `point`, and null when the object has no `point`; no other field is read |
| Coordinates.FindLatLonSound | static/js/app.js:450-510 | every pair returned is written somewhere in the candidate, as a string or as alias keys; nothing is invented |
| Coordinates.ExtractLatLon | static/js/app.js:512-520 | a payload that is not an object yields null; for an object, the first of `locations`, `geo_metadata`, `location` that yields a pair wins, in that order, and when none does the result is that of the top-level pair |
| Coordinates.TopLevelPair | static/js/app.js:518 | the object `{ lat: payload.lat, lon: payload.lon }`; `TopLevelFallback` proves only those two keys are read from it |
| Coordinates.NoPairInUndefinedPair | static/js/app.js:518 | a top-level pair built from missing `lat` and `lon` yields null |
| Coordinates.TopLevelFallback | static/js/app.js:514-519 | when the three nested sources give nothing, only the top-level `lat` and `lon` are read (their aliases are not), and the pair is found iff both convert |
| Coordinates.ExtractLatLonSound | static/js/app.js:512-520 | every pair the payload decoder returns is written in the payload |
| JsStrings.TrimBlank | static/js/app.js:443 | `value.trim() !== ''` holds exactly when the string is not all whitespace |
| JsStrings.Trim | static/js/app.js:443 | `String.prototype.trim` over the ECMAScript whitespace and line terminators; `TrimIsCore`, `TrimBlank` and `TrimIdempotent` characterise it |
| JsStrings.TrimIsCore | static/js/app.js:462 | trimming removes only leading and trailing whitespace, and the result neither starts nor ends with whitespace |
| JsStrings.TrimIdempotent | static/js/app.js:462-465 | trimming a part that has already been trimmed changes nothing |
| JsStrings.Split | static/js/app.js:462 | a split has one more part than the string has separators, and no part holds a separator |
| JsStrings.SplitRoundTrip | static/js/app.js:462 | putting the separators back between the parts gives the original string |
| JsStrings.SplitAtFirst | static/js/app.js:462 | the first part is the text before the first separator, and the other parts are the split of the rest |
| JsStrings.SplitWithoutSeparator | static/js/app.js:151 | a string without separators splits into itself alone |
| JsStrings.SplitHead | static/js/app.js:151 | part 0 is a prefix of the string and is either all of it or followed by a separator |
| Results.NormalizeResults | static/js/app.js:628-641 | a non-object gives `[]`; an array is returned as it is; `result.items`, when it is an array, wins; any other result is `[]` or one of the four candidate arrays |
| Results.FirstArrayIsFirst | static/js/app.js:630-640 | the first-array search finds the first array among the candidates, and finds none iff there is none |
| Results.NormalizeIsFirstArray | static/js/app.js:628-641 | for a truthy object the result is the first array among `result.items`, `result.prepare_llm_itemsitems`, `items` and the response itself, else `[]` |
| Results.GetItemId | static/js/app.js:643-647 | never undefined; a falsy item gives null; an item's own `id`, when it holds a value, wins |
| Results.FirstPresentIsFirst | static/js/app.js:646 | a `??` chain that ends in null gives the first value that is not null or undefined, and gives null iff there is none |
| Results.ItemIdIsFirstPresent | static/js/app.js:643-647 | a truthy item's id is the first of `item.id`, `payload.id` and `payload.item_id` that holds a value |
| Results.FalsyIdIsKept | static/js/app.js:646 | a falsy id such as `0` or `""` is returned, not skipped |
| Places.ParseFloat | static/js/app.js:57-58 | a string is parsed, a number is kept, and null, undefined, booleans and objects give NaN |
| Places.PlaceOf | static/js/app.js:56-66 | an entry gives a place iff both coordinates parse finite, and the place holds those two numbers; the label is always truthy and is `display_name` when truthy, else `name` when truthy, else the two coordinates printed with five decimals and joined by ", " |
| Places.CollectPlaces | static/js/app.js:55-68 | the search rejects iff some entry is null or undefined; otherwise a value is a place iff some entry maps to it, and there are no more places than entries |
| Places.Attempts | static/js/app.js:55-67 | the `map` step: one attempt per entry, each the entry's `PlaceOf` |
| Places.CollectPlacesKeepsOrder | static/js/app.js:55-68 | the places are exactly the usable entries' places, each once and in entry order: a strictly increasing choice of indices that covers every usable entry picks them |
| Places.SearchPlaces | static/js/app.js:39-69 | an empty query gives `[]` without a request; a failed request rejects; a body that is not an array gives `[]`; an array body gives what `CollectPlaces` collects from its entries |
| Places.FirstPlaceIsFirstUsableEntry | static/js/app.js:55-68 | the first place comes from the first entry with finite coordinates, and there is none iff no entry has them |
| Places.GeocodePlace | static/js/app.js:71-74 | rejects exactly when the search rejects; otherwise it is the search's first place, and null exactly when the search found none |
| Places.GeocodeFindsFirstUsableEntry | static/js/app.js:55-74 | for a non-empty query and an array answer without null entries, the result is the place of the first entry with finite coordinates, and null iff no entry has them |
| Places.ShortLabel | static/js/app.js:151 | the short label is a prefix of the label; it is the whole label exactly when the label has no comma or starts with one, and otherwise it is the text before the first comma; it is empty only for an empty label |
| Places.ShortLabelIdempotent | static/js/app.js:151 | a property of the expression `label.split(',')[0] \|\| label` itself: applied to its own result it changes nothing |
| Suggestions.Issue | static/js/app.js:214-216 | a fetch takes a request id above every earlier one and leaves the list alone |
| Suggestions.SettleStep | static/js/app.js:217-232 | an answer whose id is no longer current changes nothing; a current one shows its places, or none for an error |
| Suggestions.ClearStep | static/js/app.js:266-275 | the clear button empties the list and moves the counter on |
| Suggestions.InputAsWritten | static/js/app.js:235-248 | as written, a blank query empties the list and leaves the counter alone; any other query changes nothing yet |
| Suggestions.InputStep | static/js/app.js:235-248 | corrected, a blank query empties the list and moves the counter on; any other query changes nothing yet |
| Suggestions.DismissStep | static/js/app.js:136-140 | `clearSuggestions` empties the list and keeps the counter |
| Suggestions.Step | static/js/app.js:136-294 | one event handled by the control, with `handleInput` as written or corrected; the step lemmas give each case |
| Suggestions.Run | static/js/app.js:136-294 | a sequence of events handled in order; the trace lemmas below are stated over it |
| Suggestions.RequestIdMonotone | static/js/app.js:214-275 | for either version, the counter never goes back and moves on after any fetch or clear-button press; only in the corrected version does a blank input move it on too |
| Suggestions.StaleAnswerIgnored | static/js/app.js:216-229 | for either version, once a later fetch or a clear-button press has happened (corrected: also a blank input), the answer to an earlier fetch changes nothing, whatever it holds |
| Suggestions.OnlyLatestShown | static/js/app.js:214-233 | for either version, of two fetches answered in either order, only the later one's places end up on show |
| Suggestions.BlankInputAsWrittenShowsStalePlaces | static/js/app.js:235-242 | the trace fetch, blank input, answer: as written the answer's places are shown under the empty input; corrected the list stays empty |
| Suggestions.BlankInputKeepsListEmpty | static/js/app.js:235-242 | corrected: after a blank input, no answer to an earlier fetch can fill the list until a new fetch starts |
| Suggestions.BlankListStaysEmpty | static/js/app.js:217-232 | for either version, with the counter past every id that may still be answered and no new fetch, an empty list stays empty |
| Suggestions.SuggestionBox.constructor | static/js/app.js:125-129 | the counter starts at 0 and the list starts empty |
| Suggestions.SuggestionBox.Fetch | static/js/app.js:214-216 | the new state is `Issue` of the old, and the id returned is the new counter |
| Suggestions.SuggestionBox.Settle | static/js/app.js:217-232 | the new state is `SettleStep` of the old; the answer is applied iff its id is the current counter |
| Suggestions.SuggestionBox.ClearButton | static/js/app.js:266-275 | the new state is `ClearStep` of the old |
| Suggestions.SuggestionBox.Input | static/js/app.js:235-248 | the new state is the corrected `InputStep` of the old |
| Suggestions.SuggestionBox.Dismiss | static/js/app.js:290-294 | the new state is `DismissStep` of the old |
| Suggestions.SuggestionBox.Choose | static/js/app.js:252-288 | choosing an index that holds a place returns that place and empties the list; any other index changes nothing |
| Interaction.FinalizeTarget | static/js/app.js:732-738 | nothing ends when nothing is open, or when a truthy target is not the open item; otherwise the open item ends |
| Interaction.AlternatingCounts | static/js/app.js:732-757 | in the alternating telemetry log, ends never outnumber starts and trail them by at most one; one is outstanding exactly when an item is open |
| Interaction.Tracker.constructor | static/js/app.js:626 | nothing is open and nothing has been sent |
| Interaction.Tracker.Finalize | static/js/app.js:732-738 | keeps the log alternating; ends what `FinalizeTarget` names, clears the slot and sends one `end`, or else changes nothing |
| Interaction.Tracker.Open | static/js/app.js:740-757 | keeps the log alternating; ends whatever was open, then opens the item and sends `start` iff its id is truthy |

## Left out

- The DOM, Leaflet map calls, status texts, `hideItemDetailUI` and `showItemDetail`. They only display state and decide nothing.
- The network: the geocoder request, its URL and `limit` parameter, the `/db/events` posts and the choice between `sendBeacon` and `fetch`. A finished request is the parameter `fetched`; a sent event is one entry of `Tracker.sent`.
- Clocks and timers: the 250 ms debounce, the 150 ms blur delay, `Date.now()` and the timestamps in events. A fetch is the `Fetch` event, taken at the moment the timer fires.
- `Number.parseFloat` and `toFixed(5)` are the parameters `parse` and `fixed5` and are left unspecified.
- Places.ParseFloat: an array is approximated as NaN. JavaScript prints the array and parses that text, so `[1.5]` gives 1.5.
- Interaction.FinalizeTarget: `!==` on object ids is modelled as structural equality, not reference identity. Ids are strings or numbers in practice.
- Places.ShortLabel: takes a string. A label that is truthy but not a string (`display_name` holding a number) would make `split` throw; that case is not modelled. In the suggestion box such a throw happens after `renderSuggestions` has stored the items (app.js:148) but before they are drawn (app.js:151). The catch at app.js:227-231 then empties the list while the id is still current. So a current answer with a non-string label ends with an empty list, while `SettleStep` shows its places.
- Interaction.Tracker.Open: each handler is modelled as one atomic step. A second click while the awaited `end` send is pending could interleave with the first click; that is not modelled.
- Interaction.Tracker.Open: the `flyTo` on the item's coordinates is left out (map view only). Its input is `Coordinates.ExtractLatLon`.
- Pressing Enter with an empty suggestion list runs `doSearch`. Its lookup is `Places.GeocodePlace`. When the lookup finds nothing (app.js:201) or succeeds (app.js:186), it empties the list after the `await`. That is the `Dismiss` event (`SuggestionBox.Dismiss`), which may come after any fetch has filled the list. When the lookup rejects (app.js:208-211), the list is left as it is, which is no event. The status text and input value it sets are not modelled.
- Suggestions.SuggestionBox.Input: the class runs the corrected `handleInput`, whose blank case also moves `requestId` on. The handler as written is the function `InputAsWritten`, and the trace lemmas cover both through `Version`.
- The search and session code on the server side (`service.py`, `session_handling.py`) is not part of this model.

## Findings

| source | as written | input that shows it | evidently intended | confidence | as-written member | corrected member |
|---|---|---|---|---|---|---|
| static/js/app.js:235-242 | a blank input empties the list but does not move `requestId` on, unlike the clear button at line 273 | type a query, let the debounced fetch start, delete the text, then the answer arrives: its places are shown under the empty input | a blank input invalidates every fetch in flight, as the clear button does, so the list stays empty until the next fetch | medium, not executed | Suggestions.BlankInputAsWrittenShowsStalePlaces | Suggestions.InputStep |
