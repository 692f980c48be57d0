# Onion-price calculator: calculation engine and saved history

A Dafny model of the logic in `app.js` of a small browser calculator. A farmer or trader
enters a name and five positive numbers: swat length, ceblok per meter, swat width, swat count
and the current market price per kilo. The page computes the expected harvest weight and the
category A and B purchase prices. A result can then be saved to a history kept in the
browser's `localStorage` under the key `onionPriceHistory`. The history tab lists the saved
results newest first, and each row has a delete button.

The project has four modules:

- `Wrappers` (`wrappers.dfy`): the `Option` datatype.
- `Pricing` (`pricing.dfy`): `calculateResults` with its fixed constants (25, 100, 2, 9000, 7000).
  It also holds the submit handler's input gate, including JavaScript's `String.prototype.trim`.
- `History` (`history.dfy`): the newest-first order of the history tab, specified as a stable
  insertion sort on timestamps, and `splice(index, 1)`. The lemmas here cover the order's
  permutation, sortedness, stability and uniqueness, and how the delete index relates to the
  displayed row.
- `App` (`app.dfy`): the class `AppState`. Its field `stored` is the `localStorage` entry
  (`None` while the key is absent). Its field `currentCalculation` is the module-level slot
  that `displayResults` fills. The methods are the submit, save, load and delete handlers.
  `LoadHistory` sorts a fresh array in place, with `SinkInto` as one pass of the insertion sort
  and `ShiftNewer` as that pass's inner loop.

Numbers are Dafny `real`s. What `parseFloat` returns is a `JsNumber`: a finite value, `NaN`, or
an infinity. This way the `Number.isFinite(v) && v > 0` gate is modelled. Timestamps are integer
milliseconds, and the clock reading is a parameter `now`. `confirm()` is the boolean parameter
`confirmed`.

`deleteHistoryItem` splices the raw stored list at the index of the clicked row of the sorted
view (see Findings). A corrupt stored entry makes `JSON.parse` throw; only an absent key reads as
`[]` (see Left out).

## Model

| member | source | states |
|---|---|---|
| `Pricing.CalculateResults` | app.js:88-122 | The result carries the name and all five inputs unchanged and is stamped with the clock reading. kilo is ceblok × length × width × swats × 25, a quintal is 100 kilo, tindak is half the swat length, market value is kilo × price, and each category's buy price plus its margin (kilo × 9000 or kilo × 7000) equals the market value |
| `Pricing.CalculationIgnoresClock` | app.js:105-121 | Two calculations of the same form differ only in their timestamp |
| `Pricing.AcceptedFormFigures` | app.js:96-103 | For accepted inputs, kilo, quintal, tindak and market value are positive and margin B is below margin A. Buy B exceeds buy A by kilo × 2000, and a category's buy price is positive exactly when the market price exceeds its margin |
| `Pricing.WorkedExample` | app.js:96-103 | For 2 ceblok/m, 10 m, width 1, 3 swats and price 12000, the outputs are kilo 1500, quintal 15, tindak 5, market value 18,000,000, buy A 4,500,000, buy B 7,500,000, and differences 13,500,000 and 10,500,000 |
| `Pricing.IsJsWhitespace` | app.js:153 | The characters `trim()` strips: ECMAScript WhiteSpace (TAB, VT, FF, SPACE, NBSP, ZWNBSP and every other Zs character) and LineTerminator (LF, CR, LS, PS) |
| `Pricing.LeadingBlanks` | app.js:153 | Counts the whitespace run at the start of the input: every counted character is ECMAScript whitespace, and the next one, if any, is not |
| `Pricing.TrailingStart` | app.js:153 | Finds where the trailing whitespace run begins: every character from there on is whitespace, and the one before it, if any, is not |
| `Pricing.Trim` | app.js:153 | `trim()` returns a contiguous slice of the input with no whitespace at either end. It is empty exactly when every input character is whitespace |
| `Pricing.Validate` | app.js:153-165 | A form is accepted exactly when the name has a non-whitespace character and all five numbers are finite and greater than 0. An accepted form carries the trimmed name and the five values |
| `App.ReadHistory` | app.js:178 | The parse of the `onionPriceHistory` entry with `[]` as fallback, the read that save (app.js:178), load (app.js:195) and delete (app.js:259) share: an absent key reads as the empty list, a present one as the list it holds |
| `App.AppState.constructor` | app.js:28 | On page load the stored history is whatever storage already holds and there is no current calculation |
| `App.AppState.Submit` | app.js:150-168 | A rejected submission leaves the current calculation unchanged. An accepted one makes it the calculation of the trimmed form at the given clock reading. Storage is not touched |
| `App.AppState.Save` | app.js:171-191 | With no current calculation, storage is unchanged. Otherwise the stored list becomes the old list (empty if the key was absent) with the current calculation appended, and the next load lists that record |
| `App.AppState.LoadHistory` | app.js:194-204 | The list shown is `SortNewestFirst` of the stored list: a newest-first permutation of it. The method has no `modifies` clause, so storage is never written |
| `App.SinkInto` | app.js:204 | One insertion pass over a fresh array: the element at `lo` moves into the sorted part after it, exactly as `Insert` places it, and the part before `lo` is untouched |
| `App.ShiftNewer` | app.js:204 | The inner loop of a pass: the records after `lo` that are strictly newer than the one being placed each move one slot left, it stops at the first record that is not newer, and nothing else moves |
| `App.AppState.DeleteHistoryItem` | app.js:258-268 | Storage changes exactly when the index is within the raw stored list and the user confirms. Then the raw element at that index is spliced out; otherwise storage is unchanged |
| `App.AppState.DeleteDisplayed` | app.js:258-268 | Corrected delete: when the index is in range and confirmed, storage becomes the sorted view without the clicked row. That list is already newest-first and lacks exactly one copy of the clicked record; otherwise storage is unchanged |
| `History.InsertPermutes` | app.js:204 | One insertion step adds exactly the inserted record and loses none |
| `History.InsertKeepsNewestFirst` | app.js:204 | Inserting into a newest-first list keeps it newest-first |
| `History.InsertWithTimestamp` | app.js:204 | An inserted record goes ahead of the existing records with its timestamp, and their order is kept |
| `History.SortNewestFirst` | app.js:204 | The displayed order is a permutation of the stored list, of the same length, with timestamps non-increasing |
| `History.SortKeepsTimestampOrder` | app.js:204 | The sort is stable: records with equal timestamps appear in their stored order |
| `History.StableOrderUnique` | app.js:204 | Two newest-first lists with the same records per timestamp, in the same order, are equal |
| `History.StableSortIsSortNewestFirst` | app.js:204 | Any stable newest-first sort, which is what `Array.prototype.sort` with this comparator must be, yields exactly `SortNewestFirst` |
| `History.ViewIsStoredIff` | app.js:194-204 | The view equals the stored list exactly when the stored list is already newest-first |
| `History.InsertOldest` | app.js:204 | A record older than every record in the list lands last |
| `History.OldestFirstViewIsReversed` | app.js:181-204 | A list whose timestamps strictly increase (no record saved twice, and a clock that runs forward between submissions) is displayed exactly reversed |
| `History.RemoveAt` | app.js:263 | `splice(i, 1)` removes one element. Earlier elements keep their positions and later ones move down by one, so the multiset loses exactly one copy of the element at i |
| `History.RawIndexMatchesViewIff` | app.js:258-264 | Every row's delete button removes the record shown in that row exactly when the stored list is already newest-first |
| `History.RawDeleteMissesClickedRow` | app.js:258-264 | In a list whose timestamps strictly increase (no record saved twice, a clock that runs forward), row i shows raw record n − 1 − i. Unless that is i itself, splicing raw index i keeps the shown record and removes a different one; for row 0 that is the oldest record |
| `History.RemoveAtKeepsOthers` | app.js:263 | Splicing index i keeps every record held at another index |
| `History.RemoveAtDropsUnique` | app.js:263 | In a list whose timestamps strictly increase (no record saved twice, a clock that runs forward), splicing i leaves no copy of the record that was at i |
| `History.RemoveKeepsNewestFirst` | app.js:263 | Removing one element from a newest-first list keeps it newest-first |
| `History.DisplayedDeleteRemovesClickedRow` | app.js:258-264 | Storing the view without the clicked row gives a list that is its own view, and it lacks exactly the clicked record |

## Findings

| source | as written | input that shows it | evidently intended | confidence | as-written member | corrected member |
|---|---|---|---|---|---|---|
| app.js:258-264 | `deleteHistoryItem(index)` re-reads the raw stored list and splices it at `index`, but `index` is the `data-index` of a row in the newest-first view (app.js:204, 206, 217, 251) | Save two results at clock readings 1 and 2, then click delete on the first row (data-index 0). That row shows the result from time 2, but the result from time 1 is removed | Remove the record shown in the clicked row | high (not executed) | `History.RawDeleteMissesClickedRow` | `App.AppState.DeleteDisplayed` |

`App.AppState.DeleteHistoryItem` models the code as written. `App.AppState.DeleteDisplayed` is the
corrected operation, with `History.DisplayedDeleteRemovesClickedRow` proved about it.
`History.RawIndexMatchesViewIff` shows the two agree for every row only when storage is already
newest-first.

## Left out

- DOM work is not modelled: element lookup, tab switching, HTML templating of the results and
  the history list, and event wiring (app.js:1-54, 124-145, 206-254). The rendering
  `loadHistory()` does after a save or a delete is display only.
- Number formatting with `Intl.NumberFormat` (app.js:56-85) is left out: it is display only and
  feeds nothing back into stored values.
- The snackbar messages and their timer (app.js:270-278), the install prompt (app.js:280-303) and
  service-worker registration (app.js:305-316) are browser APIs and timers.
- Text parsing by `parseFloat` and `parseInt` is not modelled. The parsed value enters as a
  `JsNumber`, and the delete index enters as an `int`. Re-parsing already numeric fields inside
  `calculateResults` (app.js:89-93) is the identity on finite numbers, so the model skips it.
- IEEE-754 doubles are not modelled: arithmetic is exact on reals, so rounding and overflow to
  Infinity of very large products are not captured.
- ISO-8601 timestamp strings and `Date` parsing are replaced by integer milliseconds. The
  comparator `new Date(b.timestamp) - new Date(a.timestamp)` becomes a comparison of those integers.
- JSON serialisation is not modelled: storage holds the list of records itself. A corrupt stored
  entry makes `JSON.parse` throw uncaught in the code; the model has no such state.
- The lemmas about lists with strictly increasing timestamps (`History.OldestFirstViewIsReversed`,
  `History.RawDeleteMissesClickedRow`, `History.RemoveAtDropsUnique`) take that order as a
  hypothesis. Saves do not guarantee it: the timestamp is taken at submission (app.js:120), the
  save button does not clear the current calculation, so pressing it twice stores the same
  record twice, and the clock reading `now` is an unconstrained parameter. A history holding a
  duplicate record is not covered by these lemmas; the raw-index delete itself
  (`App.AppState.DeleteHistoryItem`) and `History.RawIndexMatchesViewIff` hold for every list.
- Failing `localStorage.setItem` writes (a full storage quota) are not modelled.
- The engine's own sorting algorithm for `Array.prototype.sort` is not modelled. `LoadHistory`
  runs an insertion sort instead. `History.StableSortIsSortNewestFirst` shows that every stable
  newest-first sort gives the same list.
- Clear-all is not modelled: `clearAllBtn` is looked up (app.js:10) but never given a handler,
  so the code has no such behaviour.
- `icon-generator.js` (canvas drawing, manifest and meta tags) and `service-worker.js` (cache
  plumbing) are outside the modelled logic.
