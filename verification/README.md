# Paladins randomizer: a Dafny model of the champion store

The randomizer shows a catalog of champions in two lists, the pool and the
out list. Clicking a champion moves it between the lists (`removed`). A
ctrl-click disables it (`disabled`): it stays in the pool but is never
drawn. Holding shift applies either click to the champion's whole class. A
draw picks one champion that is neither removed nor disabled.

This project models the logic core of that application as immutable
datatypes and pure functions:

- `Champions` (champions.dfy): catalog rows, champions with their two
  flags, the persisted `{id, removed, disabled}` projection, and
  `makeChampion`.
- `Filtering` and `StoreUtils` (filtering.dfy, store_utils.dfy):
  `filterChampions` in both versions (by `class` in src/store/utils.ts, by
  `classId` in src/lib/champions.ts), `findChampionById`, and the projection
  of `saveChampionState`.
- `ChampionSort` and `Names` (champion_sort.dfy, names.dfy): `sortChampions`
  and its comparator.
- `Random` (random.dfy): `randint` and `choose`, with `Math.random()` as a
  parameter.
- `Store` (store.dfy): the store state, its initial state, the derived
  values (`canRandomize`, `selectedChampions`, the id lookups), and every
  store action as a function from old state to new state. The three store
  files are successive versions of the same logic, and `Store.Variant` names
  them: `Basic` (src/store.ts), `Parity` (src/store.tsx) and `Persisted`
  (src/store/index.tsx).
- `App` (app.dfy): the keyboard and visibility handlers of src/App.tsx, the
  history of page events they react to, and the mouse dispatch table of a
  champion button.

Three behaviours of the code that a reader might not expect:

- Randomizing on an empty pool is not a no-op. The current pick becomes
  none, and the previous pick becomes the old current pick
  (`Store.RandomizeEmptyPool`).
- A hover id equal to the empty string is falsy in the source, so it selects
  nothing, just like no hover.
- The sort comparator checks for an unknown class only in its first argument
  (see Findings).

The src/store.tsx initial state is the src/store.ts one built from the rows
in the order `sortChampionRows` returns (`Store.FreshState`). Its
`shiftChampionById`, `toggleChampionById`, `updateHoveredChampion` and
`updateKeyboardState` have the same effect on the state as those of
src/store/index.tsx; the src/store/index.tsx ones also save the flags, a
write that is not modelled (see Left out). The
`makeChampion` of src/lib/champions.ts is the same as the one in
src/store/utils.ts.

## Model

| member | source | states |
|---|---|---|
| `Champions.MakeChampion` | src/store/utils.ts:82-88 | a fresh champion has the row's fields and both flags clear |
| `Champions.MakeChampionOfRow` | src/lib/champions.ts:17-23 | a champion is the fresh champion of its own row exactly when both its flags are clear |
| `Filtering.Filter` | src/store/utils.ts:37-53 | the kept list is no longer than the input; a champion is kept iff it is in the input and passes every given filter; each kept champion appears as often as in the input |
| `Filtering.FilterIsSubsequence` | src/store/utils.ts:37 | the filter result is a subsequence of the input, in the input's relative order |
| `Filtering.FilterWithoutFilters` | src/lib/champions.ts:3-14 | with no filter object, or one with every field absent, the input comes back unchanged |
| `StoreUtils.FilterChampions` | src/store/utils.ts:33-54 | every kept champion equals each given `class`/`removed`/`disabled` value, and every input champion that does is kept |
| `StoreUtils.FilterChampionsByClassId` | src/lib/champions.ts:3-15 | the same as `FilterChampions`, with `classId` as the group field |
| `StoreUtils.FindChampionById` | src/store/utils.ts:78-80 | none iff no champion has the id; otherwise a champion with the id that no earlier champion's id equals |
| `StoreUtils.SaveChampionState` | src/store/utils.ts:24-31 | one entry per champion, in order, holding its id and both flags |
| `Names.NameCompare` | src/store/utils.ts:59 | the name comparison is in -1..1 and is zero exactly for equal names |
| `ChampionSort.Rank` | src/store/utils.ts:61-63 | a champion's rank is the `indexOf` of its class in Damage, Flank, Frontline, Support, and is -1 exactly for a class outside that list |
| `ChampionSort.CompareSpec` | src/store/utils.ts:57-75 | the comparator raises iff the classes differ and the first class is unknown (or, corrected, either class is); on known classes its sign is the class-rank-then-name order |
| `ChampionSort.Sort` | src/store/utils.ts:56-57 | a successful sort returns a permutation of its input |
| `ChampionSort.SortKnownClasses` | src/store/utils.ts:56-76 | with every class in Damage, Flank, Frontline, Support, the sort succeeds and orders by class rank, then by name |
| `ChampionSort.SortedPairwise` | src/store/utils.ts:58-73 | that order holds between every two positions, not only neighbours |
| `ChampionSort.SortStable` | src/store/utils.ts:57 | whenever the sort succeeds, champions with equal class and name keep their input order |
| `ChampionSort.SortOfSorted` | src/store/utils.ts:57-75 | an already ordered known-class list is returned unchanged |
| `ChampionSort.SortIdempotent` | src/store/utils.ts:56-76 | sorting a sorted result gives the same result |
| `ChampionSort.UnknownSecondClassPassesAsWritten` | src/store/utils.ts:68-70 | as written, "Damage" against "Tank" compares as 1 instead of raising, and the sort's outcome depends on input order |
| `ChampionSort.SortCorrectedSucceedsIff` | src/store/utils.ts:61-71 | with the second index checked, the sort succeeds iff every class is known or the list has a single class |
| `ChampionSort.SortVariantsAgreeOnKnownClasses` | src/store/utils.ts:63-73 | on known classes the as-written and corrected sorts give the same result |
| `Random.RandInt` | src/lib/utils.ts:12-14 | for min < max the result lies in [min, max) |
| `Random.Choose` | src/lib/utils.ts:16-24 | none iff there are no choices; otherwise one of the choices |
| `Random.ChooseReachesEveryIndex` | src/lib/utils.ts:21-22 | every index is drawn for some value of the random source |
| `Store.MergeSavedState` | src/store/index.tsx:34-39 | order, rows and length are kept; a champion with a saved entry takes the flags of the first entry with its id; one without keeps its flags |
| `Store.MergeIgnoresUnknownIds` | src/store/index.tsx:35-38 | saved entries for ids absent from the catalog change nothing, and an empty saved list equals none |
| `Store.MergedCatalog` | src/store/index.tsx:32-40 | each merged champion comes from a catalog row and has its restored flags; every row has a champion; known classes sort |
| `Store.InitialState` | src/store/index.tsx:31-54 | the initial list holds each catalog row once with restored flags, sorted when classes are known; the saved pick is restored; no previous pick, no hover, no modifier |
| `Store.PersistenceRoundTrip` | src/store/index.tsx:32-38 | merging the saved flags of a list with unique ids onto fresh champions of its rows gives the list back |
| `Store.ReloadRestoresState` | src/store/index.tsx:31-45 | reloading a sorted list from its rows and saved flags restores it exactly |
| `Store.FreshState` | src/store.ts:11-18 | champions are the rows in order with both flags clear; no pick, no hover, no modifier |
| `Store.CanRandomize` | src/store/index.tsx:87-93 | true iff some champion is neither removed nor disabled |
| `Store.ResolveId` | src/store/index.tsx:73-84 | a resolved champion is in the list and has the id; none iff there is no id or no champion has it |
| `Store.Selected` | src/store/index.tsx:96-119 | empty without a hover; an error iff no champion has the hover id; the hovered champion alone without shift; with shift the champions of its group, restricted to its removed value when parity is checked and ctrl is up |
| `Store.SelectionContainsHovered` | src/store/index.tsx:109-118 | the selection keeps the list order and contains the hovered champion |
| `Store.BasicShiftSelection` | src/store.ts:34-38 | with shift the selection is the `classId` filter for the hovered class, and ctrl does not change it |
| `Store.ParityShiftSelection` | src/store.tsx:71-78 | with shift and no ctrl every selected champion shares the hovered `classId` and `removed`; with ctrl it selects as src/store.ts |
| `Store.Randomize` | src/store/index.tsx:122-132 | previous := old current; current := an eligible champion's id, none iff no champion is eligible; nothing else changes |
| `Store.CanRandomizeIffPick` | src/store/index.tsx:87-130 | a pick is made exactly when `canRandomize` holds |
| `Store.RandomizeEmptyPool` | src/store/index.tsx:127-130 | on an empty pool the pick is cleared and the old pick becomes previous, so the state changes whenever there was a pick |
| `Store.RandomizeTwice` | src/store.tsx:84-93 | after two draws previous is the first draw |
| `Store.RandomizedChampionIsEligible` | src/store/index.tsx:122-130 | with unique ids the pick resolves to an eligible champion |
| `Store.SetFlag` | src/store/index.tsx:133-168 | rows and order are kept; the flag is the value on exactly the targeted champions; the other flag is untouched |
| `Store.SetFlagKeepsOrder` | src/store/index.tsx:133-168 | a flag update keeps the list sorted, its classes known and its ids unique |
| `Store.ShiftChampionById` | src/store/index.tsx:133-141 | `removed := v` on exactly the champions with the id; nothing else in the state changes |
| `Store.ShiftChampionsByClass` | src/store/index.tsx:142-150 | `removed := v` on exactly the champions of the class; nothing else changes |
| `Store.ToggleChampionById` | src/store/index.tsx:151-159 | `disabled := v` on exactly the champions with the id; nothing else changes |
| `Store.ToggleChampionsByClass` | src/store/index.tsx:160-168 | `disabled := v` on exactly the champions of the class; nothing else changes |
| `Store.ShiftChampionsByClassId` | src/store.tsx:102-109 | `removed := v` on exactly the champions with the `classId`; nothing else changes |
| `Store.ToggleChampionsByClassId` | src/store.tsx:118-125 | `disabled := v` on exactly the champions with the `classId`; nothing else changes |
| `Store.RemovedByIdLeavesPool` | src/store.ts:56-63 | after removing by id, a champion is in the `removed: false` list iff its id differs and it was not removed before |
| `Store.UpdateHoveredChampion` | src/store/index.tsx:169-171 | only the hover id changes, to the argument |
| `Store.SetSelectionSource` | src/store.ts:47-49 | the hover id becomes the champion id; nothing else changes |
| `Store.ClearSelectionSource` | src/store.ts:50-52 | the hover id becomes none, so every variant selects nothing |
| `Store.MergeKeyboard` | src/store/index.tsx:172-176 | a key given in the patch takes its value; an absent key keeps its value |
| `Store.MergeKeyboardIdempotent` | src/store.tsx:129-133 | merging a patch twice equals merging it once; the empty patch changes nothing |
| `Store.UpdateKeyboardState` | src/store.ts:53-55 | only the keyboard state changes, by the patch merge |
| `Store.ChampionsView` | src/store.ts:44-46 | the view is an order-preserving filter of the whole list, keeping exactly the matching champions, and the whole list without filters |
| `App.OnKeyDown` | src/App.tsx:20-31 | "Control" sets only ctrl, "Shift" only shift, to true; other keys change nothing |
| `App.OnKeyUp` | src/App.tsx:33-44 | "Control" clears only ctrl, "Shift" only shift; other keys change nothing |
| `App.OnVisibilityChange` | src/App.tsx:46-50 | hiding the page releases both keys; showing it changes nothing |
| `App.ModifiersFollowLastEvent` | src/App.tsx:20-50 | after any event history each modifier is what its last deciding event says, and only the keyboard state changed |
| `App.MouseDownAction` | src/App.tsx:118-140 | no action for a button other than 0; ctrl+shift, ctrl, shift, neither map to disabled-by-class, disabled-by-id, removed-by-class, removed-by-id; the value is the clicked champion's flag negated |
| `App.ApplyClick` | src/App.tsx:121-139 | a click action changes exactly its flag on its targets, through the matching store setter |
| `App.OnMouseDown` | src/App.tsx:118-119 | a non-primary button changes nothing; a primary click changes only the dispatched flag on its targets |
| `App.ClassClickWritesOneValue` | src/App.tsx:121-135 | a class-wide click gives every class member the negation of the clicked champion's flag |
| `App.ClickByIdTwiceRestores` | src/App.tsx:127-137 | with unique ids, two by-id clicks on the same champion restore the list |
| `App.OnMouseEnter` | src/App.tsx:142-144 | the entered champion's id becomes the hover id |
| `App.OnMouseLeave` | src/App.tsx:146-148 | the hover id is cleared |
| `App.EnterSelectsChampion` | src/App.tsx:142-148 | entering a champion (non-empty id, unique ids) selects it in every variant, and leaving selects nothing |

## Left out

- Local storage (`getFromLocalStorage`, `saveToLocalStorage`, the JSON encoding) is browser I/O. The saved flag list and the saved pick are inputs to `Store.InitialState`. The writes after each action are not modelled; the data they would write is `StoreUtils.SaveChampionState` or the new pick id. `JSON.parse` raising on corrupt data is not modelled.
- Solid's stores, memos, contexts and providers are reactivity plumbing. Derived values are plain functions of the state.
- The distribution of `Math.random()` cannot be stated here. Its value is the parameter `random` in [0, 1), so uniformity is not proved.
- `Random.RandInt`: floating-point rounding is not modelled; the product and the floor are taken on exact reals.
- `Names.NameCompare`: `localeCompare` depends on the locale; names are ordered by character code instead.
- `ChampionSort.Sort`: the engine's sort algorithm is not part of the source. The model sorts by insertion, which is stable. With an unknown class the comparisons made, and so whether the as-written sort raises, depend on the algorithm. `Insert` calls the comparator as (earlier, later); V8's array sort calls it as (later, earlier), so there `[Damage, Tank]` raises and `[Tank, Damage]` succeeds, the reverse of the two orders in `ChampionSort.UnknownSecondClassPassesAsWritten`.
- `Store.InitialState`: sorts with the corrected comparator. When every catalog class is known, the two comparators give the same result (`ChampionSort.SortVariantsAgreeOnKnownClasses`).
- `Store.FreshState`: src/store.tsx:9-13 imports `sortChampionRows` from src/lib/champions.ts, and src/lib/champions.ts:1-23 does not define it. The rows are taken in the order it returns.
- `findChampionById`, as imported by src/store.tsx and src/store.ts from src/lib/champions.ts, is not defined there. The model uses the src/store/utils.ts definition.
- `toggleChampionByClassId` and `createChampions`, which src/App.tsx calls, are not defined by any store. The click is applied through the src/store.tsx setter `toggleChampionsByClassId`. The included/excluded lists are `Store.ChampionsView` with a `removed` filter.
- A keyboard patch that gives a key the value `undefined` is not modelled. No caller passes one.
- Rendering: JSX, `cn`, `makeAssetURL`, the border and grayscale choices, `isChampionSelected`, src/components/image.tsx (asynchronous image loading and cache), src/components/skeleton.tsx and vite.config.ts.

## Findings

| source | as written | input that shows it | evidently intended | confidence | as-written member | corrected member |
|---|---|---|---|---|---|---|
| src/store/utils.ts:69 | the second unknown-class test re-checks `index1`, so a class missing from the rank list passes when it is the second argument's | a "Damage" champion compared with a "Tank" champion returns 0 - (-1) = 1; the sort of that pair succeeds in one input order and raises in the other | raise when `index2` is -1 | high; not executed | `ChampionSort.UnknownSecondClassPassesAsWritten` | `ChampionSort.SortCorrectedSucceedsIff` |
