# Travel wishlist store, modelled in Dafny

The application keeps a list of travel locations. Each location is marked
`wishlist` or `visited`, carries notes, and is shown on a map. All of its
logic sits in three places, and this project models each of them as pure
Dafny functions with lemmas about them:

- **The store** (`src/context/LocationContext.tsx`). A reducer maps a state
  and one action to the next state. The state holds the list, the active
  filter, the modal flag and the location being edited. The file also
  holds the filtered view the sidebar reads and the start-up guard that
  loads the stored list. The model is module `LocationContext`, over the
  record types of module `Types`. It uses `Array.map` and `Array.filter`
  as modelled in module `Sequences`.
- **The add/edit form** (`src/components/LocationModal.tsx`). The form's
  reset values, the field edits, and the submit decision between
  dispatching nothing, an update or an addition are in module
  `LocationModal`. The placeholder a map click opens the form with
  (`src/components/Map.tsx`) and the end-to-end flow after it are in
  module `MapClick`.
- **`sortLocations`** (`src/utils/helpers.ts`), in module `Helpers`.

`generateId()` and `Date.now()` are not modelled. ADD_LOCATION receives
the fresh id and time as the reducer's parameters `freshId` and `now`.
The other actions never read them, so lemmas about those actions pass
`""` and `0`; `ReduceIgnoresFreshOffAdd` shows that any other values give
the same state. Nothing here assumes ids are unique, because the code does
not make them so. `UniqueIds` is stated as a predicate, and each lemma
says when it holds.

Two behaviours of the code are easy to misread:

- The reducer writes the UPDATE payload as given, `createdAt` included,
  so the store does not keep an entry's creation time
  (`UpdateReplacesMatching`). Only the form keeps it, by copying the edit
  target's `createdAt` into the payload (`EditUpdatesOneEntry`).
- UPDATE, DELETE and TOGGLE_STATUS act on every entry with the given id,
  not on "the" entry with it. They act on exactly one entry only when ids
  are unique (`UpdateReplacesOne`, `DeleteRemovesOne`).

## Model

| member | source | states |
|---|---|---|
| `Types.Flip` | src/context/LocationContext.tsx:80 | the status TOGGLE_STATUS writes is always the other one of the two |
| `Types.FlipInvolution` | src/context/LocationContext.tsx:80 | flipping twice restores the status |
| `Sequences.Map` | src/context/LocationContext.tsx:47-49 | `Array.map`: same length, element i is f applied to input element i |
| `Sequences.Filter` | src/context/LocationContext.tsx:57 | `Array.filter`: a subsequence of the input (order kept) whose elements all pass the test |
| `Sequences.FilterCounts` | src/context/LocationContext.tsx:57 | every element that passes is kept as often as it occurs in the input |
| `Sequences.FilterUnique` | src/context/LocationContext.tsx:123-126 | any subsequence that holds all passing elements and nothing else is the filter's result |
| `LocationContext.Reduce` | src/context/LocationContext.tsx:29-95 | `locationReducer`. Its own contract gives the frame across actions: only SET_FILTER changes the filter; only ADD, UPDATE and TOGGLE_MODAL touch the modal flag and edit target, ADD and UPDATE closing and clearing them; SET_FILTER and TOGGLE_MODAL keep the list; UPDATE and TOGGLE_STATUS keep its length. The per-action lemmas below state each case in full |
| `LocationContext.ReduceIgnoresFreshOffAdd` | src/context/LocationContext.tsx:32-36 | the generated id and `Date.now()` are read only by ADD: every other action gives the same state whatever values are supplied |
| `LocationContext.InitialStateEmptyAndClosed` | src/context/LocationContext.tsx:22-27 | the initial state has an empty list and an empty view, the `all` filter, the modal closed and no edit target, and it is what start-up gives for empty storage |
| `LocationContext.AddPrepends` | src/context/LocationContext.tsx:31-42 | ADD: the list becomes one new entry followed by the old list, so it grows by one. The entry has the draft's name, notes, status and coordinates plus the supplied id and time. The modal closes, the edit target is cleared, the filter is kept |
| `LocationContext.AddUniqueIds` | src/context/LocationContext.tsx:32-39 | ADD keeps ids unique exactly when the supplied id is not already in the list |
| `LocationContext.AddsPrependNewestFirst` | src/context/LocationContext.tsx:39 | after n additions the list has grown by n, the most recent addition is first, and the old list follows unchanged |
| `LocationContext.UpdateReplacesMatching` | src/context/LocationContext.tsx:44-52 | UPDATE keeps length, order and every id. Each entry with the payload's id becomes the payload and every other entry is untouched. The modal closes and the edit target is cleared |
| `LocationContext.UpdateUnknownId` | src/context/LocationContext.tsx:47-51 | UPDATE for an id that is not in the list leaves the list unchanged but still closes the modal and clears the edit target |
| `LocationContext.UpdateReplacesOne` | src/context/LocationContext.tsx:47-49 | with unique ids, UPDATE replaces exactly the one entry with the payload's id |
| `LocationContext.DeleteRemovesId` | src/context/LocationContext.tsx:54-58 | DELETE leaves a subsequence of the old list with no entry of that id. Each entry with another id is kept as often as before. Filter, modal flag and edit target are unchanged |
| `LocationContext.DeleteUnknownId` | src/context/LocationContext.tsx:57 | DELETE of an id that is not in the list leaves the whole state unchanged |
| `LocationContext.DeleteRemovesOne` | src/context/LocationContext.tsx:57 | with unique ids, DELETE removes exactly the entry with that id; the rest keep their order |
| `LocationContext.SubsequenceUniqueIds` | src/context/LocationContext.tsx:57 | what DELETE leaves of a list with unique ids still has unique ids |
| `LocationContext.SetFilterOnlyFilter` | src/context/LocationContext.tsx:60-64 | SET_FILTER changes the filter and nothing else |
| `LocationContext.ToggleModalInverts` | src/context/LocationContext.tsx:66-71 | TOGGLE_MODAL negates the modal flag whatever its argument. It makes the argument (or nothing) the edit target and leaves list and filter alone |
| `LocationContext.ToggleModalTwiceCloses` | src/context/LocationContext.tsx:66-71 | opening the modal for one location and then asking to open it for another closes it |
| `LocationContext.ToggleStatusFlips` | src/context/LocationContext.tsx:73-84 | TOGGLE_STATUS flips the status of the entries with the id and changes no other field of any entry. Length, filter, modal flag and edit target are kept |
| `LocationContext.ToggleStatusUnknownId` | src/context/LocationContext.tsx:76-83 | TOGGLE_STATUS for an id that is not in the list changes nothing |
| `LocationContext.ToggleStatusInvolution` | src/context/LocationContext.tsx:73-84 | TOGGLE_STATUS twice with the same id restores the original state |
| `LocationContext.LoadReplacesList` | src/context/LocationContext.tsx:86-90 | LOAD replaces the list wholesale and nothing else |
| `LocationContext.ReducePreservesUniqueIds` | src/context/LocationContext.tsx:29-95 | every action keeps ids unique, provided ADD's id is new and LOAD's list has unique ids |
| `LocationContext.Shows` | src/context/LocationContext.tsx:124-125 | the filter test: every entry passes under `all`; under `wishlist` or `visited` exactly the entries of that status pass |
| `LocationContext.FilteredLocations` | src/context/LocationContext.tsx:123-126 | the view is a subsequence of the list. It holds only entries the filter passes, and every passing entry as often as it occurs |
| `LocationContext.FilterAllShowsEverything` | src/context/LocationContext.tsx:124 | under `all` the view is the whole list |
| `LocationContext.FilterStatusIsExact` | src/context/LocationContext.tsx:125 | under a status filter the view is exactly the entries of that status, in list order |
| `LocationContext.FilterViewsPartition` | src/context/LocationContext.tsx:123-126 | the wishlist view and the visited view split the list between them, counted with multiplicity |
| `LocationContext.VisitedFilterScenario` | src/context/LocationContext.tsx:60-64 | with one wishlist and one visited entry, the `visited` filter shows exactly the visited one |
| `LocationContext.Startup` | src/context/LocationContext.tsx:112-117 | LOAD is dispatched only for a non-empty stored list. Since the initial list is empty, the result is always the initial state holding the stored list, and the initial state itself when storage is empty |
| `LocationModal.InitialForm` | src/components/LocationModal.tsx:20-36 | the form takes the edit target's name, notes, status and coordinates, or `''`, `''`, `wishlist`, `[0,0]` without one |
| `LocationModal.ApplyEdit` | src/components/LocationModal.tsx:38-46 | an edit sets one of name, notes or status and keeps the other fields. The coordinates never change |
| `LocationModal.ApplyEdits` | src/components/LocationModal.tsx:38-46 | no series of edits changes the coordinates |
| `LocationModal.TrimStart` | src/components/LocationModal.tsx:51 | removes exactly the leading whitespace: the result is a suffix that does not start with whitespace |
| `LocationModal.TrimEnd` | src/components/LocationModal.tsx:51 | removes exactly the trailing whitespace: the result is a prefix that does not end with whitespace |
| `LocationModal.IsWhitespace` | src/components/LocationModal.tsx:51 | the characters `trim()` removes (ECMAScript WhiteSpace and LineTerminator): none beyond U+FEFF, and no letter or digit |
| `LocationModal.Trim` | src/components/LocationModal.tsx:51 | `trim()` is empty exactly when the name is all whitespace |
| `LocationModal.IsBlank` | src/components/LocationModal.tsx:51 | `formData.name.trim() === ''` holds exactly when every character of the name is whitespace |
| `LocationModal.Overlay` | src/components/LocationModal.tsx:54-57 | `{...currentLocation, ...formData}` keeps the target's id and `createdAt` and takes name, notes, status and coordinates from the form |
| `LocationModal.HandleSubmit` | src/components/LocationModal.tsx:48-61 | dispatches nothing exactly when the name is all whitespace. Otherwise, with an edit target, it dispatches an update with the target's id and `createdAt` and the form's four fields. Without one, it dispatches an addition of exactly the form's four fields |
| `LocationModal.HandleSubmitIntended` | src/components/LocationModal.tsx:53-59 | as `HandleSubmit`, except that an edit target with the placeholder id `''` is added as a new location |
| `LocationModal.IntendedAgreesAwayFromPlaceholder` | src/components/LocationModal.tsx:53-59 | the correction changes nothing without an edit target or for a target with a real id |
| `LocationModal.BlankFormDispatchesNothing` | src/components/LocationModal.tsx:28-35 | the blank form opened for a new location cannot be submitted unchanged |
| `LocationModal.UnchangedEditRoundTrip` | src/components/LocationModal.tsx:20-27 | submitting an edit form unchanged dispatches an update whose payload is the edit target itself |
| `LocationModal.EditUpdatesOneEntry` | src/components/LocationModal.tsx:53-57 | editing an entry of a list with unique ids rewrites that entry's name, notes and status. Its id, `createdAt` and coordinates are kept, every other entry is untouched, and the modal closes |
| `MapClick.ClickTarget` | src/components/Map.tsx:54-61 | the placeholder a map click opens the modal with: id, name and notes `''`, status `wishlist`, the clicked coordinates and the click time |
| `MapClick.ClickSubmitAddsNothing` | src/components/Map.tsx:54-61 | after a map click and a valid submit, the list is unchanged unless it already holds an entry with id `''`. The modal still closes |
| `MapClick.ClickSubmitExample` | src/components/Map.tsx:54-61 | clicking on an empty map and naming the place "Paris" leaves the list empty |
| `MapClick.ClickSubmitAddsEntryIntended` | src/components/Map.tsx:54-61 | with the corrected submit, the same flow adds one entry in front, at the clicked point, with the form's fields and the fresh id and time |
| `Helpers.LexLeTotal` | src/utils/helpers.ts:12 | the name order is total |
| `Helpers.LexLeTransitive` | src/utils/helpers.ts:12 | the name order is transitive |
| `Helpers.InOrder` | src/utils/helpers.ts:8-13 | `a` may stand before `b` exactly when the comparator does not return a positive number: `b.createdAt - a.createdAt <= 0` in `newest` mode, the name order in `alphabetical` mode |
| `Helpers.Insert` | src/utils/helpers.ts:8-13 | inserting into a sorted list gives a sorted list with one more entry, the same entries otherwise |
| `Helpers.SortLocations` | src/utils/helpers.ts:7-14 | the result is a sorted permutation of the input: same length, same multiset of entries |
| `Helpers.SortedPairwise` | src/utils/helpers.ts:8-13 | in a sorted list every entry may stand before every later one |
| `Helpers.NewestNonIncreasing` | src/utils/helpers.ts:9-10 | in `newest` mode the creation times never increase along the result |
| `Helpers.AlphabeticalNonDecreasing` | src/utils/helpers.ts:12 | in `alphabetical` mode the names never decrease along the result |
| `Helpers.DefaultIsNewest` | src/utils/helpers.ts:7 | without a mode the list is sorted newest first |
| `Helpers.SortIsStable` | src/utils/helpers.ts:8 | entries that compare equal keep their input order |

## Findings

| source | as written | input that shows it | evidently intended | confidence | as-written member | corrected member |
|---|---|---|---|---|---|---|
| src/components/LocationModal.tsx:53-57 | a map click opens the form with a placeholder location whose id is `''` (src/components/Map.tsx:54-61). Any edit target counts as an update, so submit dispatches UPDATE for id `''` | on an empty list, click the map, type "Paris", submit: the modal closes and the list is still empty | the clicked place is added as a new location at the clicked coordinates | high; not executed | `MapClick.ClickSubmitAddsNothing`, `MapClick.ClickSubmitExample` | `LocationModal.HandleSubmitIntended`, `MapClick.ClickSubmitAddsEntryIntended` |

The correction treats the placeholder id `''` as "new". It agrees with the
code wherever the edit target has a real id
(`IntendedAgreesAwayFromPlaceholder`).

## Left out

- Persistence (`src/utils/localStorage.ts`) and the effect that saves the
  list after each change (src/context/LocationContext.tsx:119-121) are
  not modelled. They are browser storage and JSON calls with no logic of
  their own, so the save/load round trip is not stated. `Startup` takes
  the stored list as a parameter.
- `generateId` and `Date.now()` are not modelled: they are random and
  clock sources. The reducer takes their values as `freshId` and `now`.
- The reducer's `default: return state` branch is not modelled. The
  action type admits only the seven actions, and the Dafny `match` covers
  all of them.
- React scheduling is not modelled. The reset effect is the function
  `InitialForm` of the edit target. The rendering, the Leaflet map, the
  sidebar's name search, `LocationCard` and `App` are UI only.
- The HTML `required` attribute on the name input is not modelled. The
  browser's check only rejects an empty name, which `handleSubmit`'s own
  whitespace guard already covers.
- Coordinates are modelled as a pair of reals rather than IEEE doubles,
  which is harmless because no arithmetic is ever done on them.
- `createdAt` is modelled as an unbounded integer rather than a JavaScript
  number. `Date.now()` yields integer milliseconds, and the only
  arithmetic on them, `b.createdAt - a.createdAt` (src/utils/helpers.ts:10),
  is exact below 2^53, so nothing the code can produce is lost.
- `Helpers.SortLocations`: alphabetical mode compares names
  lexicographically by character, a stand-in for the locale collation
  that `localeCompare` applies. The sorting results (sorted, permutation,
  stable) use only that this order is total and transitive
  (`InOrderTotal`, `InOrderTransitive`), so they hold for any total
  preorder on names, including a collation under which distinct strings
  compare equal.
- `LocationModal.HandleSubmitIntended`: a stored entry whose id really is
  `''` would be added again instead of updated. `generateId` returns `''`
  only when `Math.random()` yields 0.
