# COVID-19 dashboard view model in Dafny

This project models the view-model layer of a React dashboard of COVID-19
statistics for India, and proves properties of it. The layer is made of two
components.

- **Home** is the list of states. `fetchStatesData` maps the totals payload,
  keyed by state code, to one row per state. Each row gets its display name
  from a fixed code→name table. Missing counts become 0, and `active` is
  derived from the other counts. `handleSearch` filters the full list by a
  case-insensitive substring of the name. `sortStates` sorts a copy of the
  rows currently shown, by name, ascending or descending.
- **StateSpecific** is the detail page of one state.
  - `fetchStateData` reads the state's totals, its districts and a synthetic
    ten-day chart. It sorts the district array in place by confirmed count,
    and stores that one array in both `districtsData` and
    `sortedDistrictsData`.
  - `fetchStateTimelineData` turns the state's history into one point per
    date and keeps the last ten.
  - `handleCardClick` re-sorts the same array by the chosen count.
  - `render` lays the sorted districts out in rows of four.

The layout of the model:

- `payload.dfy` holds the parsed JSON. An object is its entry list in key
  order, and a field the payload does not carry is `None`.
- `text.dfy` holds ASCII lower-casing, substring search and the decimal
  rendering behind the "Day N" labels.
- `stable_sort.dfy` models `Array.prototype.sort` with a consistent
  comparator. `Sort` is a stable insertion sort over a total preorder `le`,
  where `le(a, b)` stands for `cmp(a, b) <= 0`.
  - `StableSortIsUnique` shows that every sorted, stable permutation is
    `Sort`. So the model does not depend on the engine's algorithm, only on
    stability.
  - `SortInPlace` is the in-place array version, proved equal to `Sort`.
- `home.dfy` and `state_specific.dfy` hold the two components. Each is a
  class whose fields are the component's state. Its methods are the
  handlers, and each `setState` is one atomic update. The mapping, filter
  and sort logic is written as functions, with lemmas about them.

Two behaviours of the code are worth noting:

- A state entry that lacks `meta` or `total` gives no result at all. The
  destructuring at src/components/StateSpecific/index.js:47-51 throws on a
  missing block. The error is caught and logged, so nothing changes and the
  page keeps loading. `ReadState` returns `None` in that case.
- A district's `active` is 0 as soon as one of its three counts is missing
  (src/components/StateSpecific/index.js:58-60). It is not the difference of
  the counts defaulted to zero. `DistrictsOf` and
  `DistrictActiveIgnoresDefaults` state this rule.

## Model

| member | source | states |
|---|---|---|
| Payload.Keys | src/components/Home/index.js:67 | `Object.keys`: one key per entry, in entry order |
| Payload.Lookup | src/components/StateSpecific/index.js:43 | `obj[key]` is missing exactly when the key is not among the keys; otherwise it returns a value stored under that key |
| Payload.TotalsOrEmpty | src/components/StateSpecific/index.js:106 | `?.total || {}`: a present `total` block is kept, a missing one reads as a block with every count missing |
| Payload.MetaOrEmpty | src/components/Home/index.js:76 | `?.meta`: a present `meta` block is kept, a missing one reads as a block with no population and no update time |
| Payload.OrZero | src/components/Home/index.js:70-76 | the `|| 0` and `= 0` defaults: a missing number reads as 0, a present one as itself |
| Text.Lower | src/components/Home/index.js:88 | `toLowerCase` on ASCII: same length, no upper-case letter left, other characters kept, upper-case letters moved down by 32 |
| Text.LowerIdempotent | src/components/Home/index.js:88-90 | lower-casing an already lower-cased string changes nothing |
| Text.Contains | src/components/Home/index.js:90 | `includes`: every string includes the empty string, and a needle longer than the string is never included |
| Text.ContainsIff | src/components/Home/index.js:90 | `includes` holds exactly when the needle occurs at some index of the haystack |
| Text.ContainsSound | src/components/Home/index.js:90 | when `includes` holds it names a position at which the needle occurs |
| Text.ContainsComplete | src/components/Home/index.js:90 | a needle occurring at any position is found by `includes` |
| Text.Decimal | src/components/StateSpecific/index.js:68 | the rendering of a number in a template literal is a non-empty string of digits with no leading zero |
| Text.DecimalRoundTrip | src/components/StateSpecific/index.js:68 | reading back the rendered digits gives the number |
| StableSort.Sort | src/components/Home/index.js:99-103 | the sort's result has the input's length and the input's multiset of elements |
| StableSort.SortSpec | src/components/Home/index.js:99-103 | with a consistent comparator, the sort is ordered, a permutation, and keeps every class of equal elements in input order |
| StableSort.SortedTiesDetermine | src/components/StateSpecific/index.js:85 | two ordered sequences with the same classes of equal elements, in the same order, are equal |
| StableSort.StableSortIsUnique | src/components/StateSpecific/index.js:85 | every ordered, stable permutation of the input is the model's `Sort`, whatever algorithm produced it |
| StableSort.SortIdempotent | src/components/Home/index.js:99-103 | sorting a sorted sequence again with the same comparator changes nothing |
| StableSort.FlipIsTotalPreorder | src/components/Home/index.js:102 | the swapped comparator `(a, b) => cmp(b, a)` is again consistent |
| StableSort.SortFlipReverses | src/components/Home/index.js:100-102 | when no two elements compare equal, sorting with the swapped comparator gives the reverse of sorting with the original one |
| StableSort.SortInPlace | src/components/StateSpecific/index.js:85 | sorting the array in place leaves exactly `Sort` of its old contents in it |
| StableSort.InsertInPlace | src/components/StateSpecific/index.js:128 | one shifting pass inserts `a[i]` into the prefix `a[..i]` and leaves the rest of the array alone |
| Home.StateName | src/components/Home/index.js:9-49 | a code in the table gets the table's name; any other code is its own name |
| Home.TableNamesCollide | src/components/Home/index.js:18-20 | the table is not one-to-one (DH and DN share a name), and a code outside it such as "TT" shows as itself |
| Home.StatesList | src/components/Home/index.js:67-77 | one row per payload key, in key order, with `stateCode` the key and the table name; counts and population default to 0; `active` is `confirmed - (recovered + deceased)` on every row, so it may be negative |
| Home.Search | src/components/Home/index.js:89-91 | the filter yields a subsequence of the list, in list order, holding every matching row as often as the list does and no other row |
| Home.SearchEmptyTerm | src/components/Home/index.js:88-91 | an empty search term shows the full list |
| Home.SearchIdempotent | src/components/Home/index.js:89-91 | filtering the filtered rows again with the same term changes nothing |
| Home.NameOrder | src/components/Home/index.js:99-103 | the comparator of `sortStates`: for 'asc' it compares `a` to `b` by name, for any other order `b` to `a` |
| Home.NameOrderIsTotalPreorder | src/components/Home/index.js:99-103 | both comparators of `sortStates` are consistent when the collation is |
| Home.SortStatesOrdersByName | src/components/Home/index.js:97-103 | `sortStates(order)` gives a stable permutation: names non-decreasing for 'asc', non-increasing for any other value |
| Home.SortStatesIdempotent | src/components/Home/index.js:97-104 | pressing the same sort button twice gives what pressing it once gives |
| Home.DescendingReversesAscending | src/components/Home/index.js:99-103 | when no two names collate equal, sorting descending after ascending reverses the rows |
| Home.HomeComponent.constructor | src/components/Home/index.js:52-57 | initial state: empty lists, empty term, loading |
| Home.HomeComponent.FetchStatesData | src/components/Home/index.js:79-83 | both lists get the mapped rows, loading ends, the term is kept |
| Home.HomeComponent.HandleSearch | src/components/Home/index.js:86-94 | the stored term is the lower-cased input; the rows shown are filtered from `statesData`, not from the rows shown before; nothing else changes |
| Home.HomeComponent.SortStates | src/components/Home/index.js:97-105 | the rows shown become the sorted copy of themselves; `statesData`, the term and loading are unchanged |
| Home.SearchAgainIsStable | src/components/Home/index.js:87-94 | typing the stored, already lower-cased term again filters the full list to the same rows; filtering the found rows with it again changes nothing |
| Home.TwoStatesRows | src/components/Home/index.js:67-77 | on a two-state payload the rows carry table names and `active` 100 - (80 + 5) and 50 - (40 + 2) |
| Home.TwoStatesSearch | src/components/Home/index.js:86-91 | searching "TAMIL" keeps Tamil Nadu and drops Karnataka |
| Home.TwoStatesSort | src/components/Home/index.js:97-103 | descending puts Tamil Nadu first; ascending puts Karnataka first, whichever order the two rows start in |
| StateSpecific.ByCountDesc | src/components/StateSpecific/index.js:85 | the comparator `b.confirmed - a.confirmed`, and `b[type] - a[type]` of `handleCardClick`, as a relation: `a` may precede `b` exactly when that difference is not positive |
| StateSpecific.ByCountDescIsTotalPreorder | src/components/StateSpecific/index.js:128 | the comparator `b[type] - a[type]` is consistent for each of the four counts |
| StateSpecific.DistrictSortSpec | src/components/StateSpecific/index.js:85 | a district sort is a stable permutation in non-increasing order of the chosen count |
| StateSpecific.DistrictsOf | src/components/StateSpecific/index.js:54-64 | one district per entry, in entry order, names kept; counts default to 0; `active` is the difference when all three counts are present and 0 otherwise |
| StateSpecific.DistrictActiveIgnoresDefaults | src/components/StateSpecific/index.js:58-60 | a district with 10 confirmed, 3 recovered and no deceased count shows 0 active, not 7 |
| StateSpecific.ChartData | src/components/StateSpecific/index.js:67-73 | the chart has 10 entries; the first is one step above the totals, and each count then climbs by 1000, 500, 800 and 100 a day |
| StateSpecific.ChartDataLabels | src/components/StateSpecific/index.js:68 | entry `i` is named "Day " followed by the decimal rendering of `i + 1` (no leading zero), whose digits read back as `i + 1` |
| StateSpecific.ChartDataDrift | src/components/StateSpecific/index.js:53-73 | starting from a consistent total, the chart's `active` on day `k` is `400 * k` above `confirmed - (recovered + deceased)` |
| StateSpecific.ReadState | src/components/StateSpecific/index.js:43-73 | there is no view exactly when the state code, its `meta` or its `total` is missing; otherwise counts and `tested` default to 0, `active` is `confirmed - (recovered + deceased)`, districts are mapped in key order and the chart is built from the totals |
| StateSpecific.FormatTimeline | src/components/StateSpecific/index.js:105-114 | one point per date key, in key order, with counts defaulting to 0 and `active` derived per point |
| StateSpecific.LastN | src/components/StateSpecific/index.js:117 | `slice(-n)` is the suffix of length `min(length, n)` |
| StateSpecific.HistoryDates | src/components/StateSpecific/index.js:103 | `data[stateId]?.dates || {}`: the state's dates when both the state and its `dates` are present, no dates otherwise |
| StateSpecific.TimelineSpec | src/components/StateSpecific/index.js:103-117 | the stored timeline is the formatted last `min(n, 10)` dates, in order; it is empty when the state or its `dates` is missing |
| StateSpecific.SortedByConfirmed | src/components/StateSpecific/index.js:85 | the district list, copied to a fresh array and sorted in place, is `Sort` by confirmed count |
| StateSpecific.StateSpecificComponent.constructor | src/components/StateSpecific/index.js:19-29 | initial state: no details, two distinct empty district arrays, empty `lastUpdated`, `tested` 0, loading, sort by confirmed |
| StateSpecific.StateSpecificComponent.FetchStateData | src/components/StateSpecific/index.js:43-90 | without a readable entry nothing changes and loading continues; otherwise both district fields are one fresh array sorted by confirmed count, the details and chart come from the payload, loading ends, and the timeline and `sortBy` are kept |
| StateSpecific.StateSpecificComponent.Install | src/components/StateSpecific/index.js:75-90 | the single `setState` of a successful fetch, which keeps the component invariant |
| StateSpecific.StateSpecificComponent.FetchStateTimelineData | src/components/StateSpecific/index.js:103-119 | only `timelineData` changes; it becomes the last ten formatted points of the state's history |
| StateSpecific.StateSpecificComponent.HandleCardClick | src/components/StateSpecific/index.js:125-130 | `sortBy` becomes the chosen field; `districtsData` is stably re-sorted in place by that count, and `sortedDistrictsData` is the same array; no other field changes |
| StateSpecific.StateSpecificComponent.DistrictGroups | src/components/StateSpecific/index.js:257-260 | the loop yields `ceil(n/4)` consecutive groups of four, the last one holding 1..4, which concatenate back to `sortedDistrictsData` |

## Left out

- Network and async code: `fetch`, `response.json()`, the try/catch wrappers and `console.error`. The parsed payload is a parameter of each handler, and a failed fetch is the same as no call.
- JSX rendering, charts, the loader and the About, Header, Footer and NotFound components: they are presentation.
- Locale-aware collation: `localeCompare` is the parameter `collate`, assumed to be a total preorder. Its actual ICU order is not modelled, so name-order results are stated for any such collation.
- `toLowerCase` and `includes` are modelled on ASCII only. There is no Unicode case mapping.
- JSON `null`, non-object entries and `NaN`: a field is either present with an integer or missing. So `|| 0` on a present 0 and on a missing value both give 0, as in the code. A `null` count, which the destructuring default would not replace, is not represented.
- Payload objects are assumed to have distinct keys, as `JSON.parse` produces. `Lookup` returns the first entry with the key.
- `Object.keys` ordering of integer-like keys, which JavaScript lists first, is not modelled. State codes and date keys are not integer-like.
- Keys inherited from `Object.prototype` (for example a state code "constructor"): the name table lookup treats them as absent.
- Numbers are unbounded integers. JavaScript's double-precision arithmetic and its rounding on very large counts are not modelled.
- Date and number formatting in the page (`toLocaleDateString`, `toLocaleString`) and the two debug log lines in `handleSearch` are not modelled.
- StateSpecific.StateSpecificComponent.FetchStateData: the case where `meta` or `total` is present but not an object, which would not throw, is not represented; a block is either an object or missing.
