# woodcalc cutting planner, in Dafny

woodcalc plans how to cut timber. A user keeps groups of pieces (a length, a stock type such as
45×95, a quantity, the saw's kerf and a margin), a registry of stock types and the settings of
the timber merchant's catalogue (bars from `minLength` to `maxLength` in steps of `increment`).
For one stock type, `optimizeCutting` turns the pieces into a cutting plan: which bars to buy,
where each piece sits on its bar, how pieces longer than the longest bar are cut into parts to
be joined, and how much is used and wasted.

This project models:

- `optimizeCutting` and `handleOversizedPiece` (src/lib/utils/cuttingOptimizer.ts), as methods
  with the source's loops, each proved equal to a functional specification about which the
  properties are proved. Modules: `CuttingTypes` (the records and the catalogue lookup `find`),
  `Demands` (filter, expansion, the longest-first sort), `OversizeSplit` (join parts),
  `Packing` (first-fit placement and the invariants of the packing loop), `CuttingOptimizer`
  (the whole function and its totals) and `Scenarios` (worked cases).
- The settings store (src/lib/stores/stockSettings.ts): the catalogue loop of
  `getAvailableLengths` as a method, `update` and `reset` as functions (module `StockSettings`).
- The stock-type registry (src/lib/stores/stockTypes.ts): the reducers of `add`, `remove` and
  `reset` and the merge of `getInitialStockTypes` (module `StockTypes`).
- The group store (src/lib/stores/groups.ts): the reducers of `add`, `update`, `remove`,
  `addItem`, `removeItem` and the colour picker `getUniqueColor` (module `Groups`).

`Wrappers` holds `Option`; `Seqs` holds an order-keeping `filter` and the lemmas about it.

Lengths are integers (millimetres), so the exact-fit test `remainingLength === effectiveLength`
is exact equality.

Behaviour of the planner that the proofs make explicit:

- A new bar is charged its first piece's length, kerf and margin without a room check; the bar
  only has to be at least as long as the piece. A first piece longer than the bar's length less
  its kerf and margin therefore leaves the bar with a negative remaining length, and the plan's
  waste can be negative: a 2700 mm piece with a 3 mm kerf leaves its 2700 mm bar at −3 mm
  (`Scenarios.FlushFirstPieceOverdraws`). Only a bar holding a single piece can be overdrawn
  (`Packing.WellPacked`).
- On an existing bar, kerf and margin are waived for a first piece. No bar is ever empty, so
  that waiver never applies. The real asymmetry is the one above.
- Three 1200 mm pieces with a 3 mm kerf and a 5 mm margin need two 2700 mm bars: the first
  bar keeps 284 mm after two pieces, less than the 1208 mm the third needs
  (`Scenarios.ThreeShortPieces`).
- When `maxLength` is not on the catalogue's grid, a piece whose length lies between the
  longest catalogue bar and `maxLength` is neither split nor placed. It disappears from the
  plan (`Scenarios.UnalignedMaximumDropsDemand`, `Packing.PackConserves`).
- A catalogue length of 0 counts as "not found", because of JavaScript truthiness (`Found`).
- `getUniqueColor`'s last fallback cannot be reached. The palette has 11 colours and only the
  last 5 are avoided, so a less recent colour always exists (`Groups.RecentColoursAvoided`).

## Model

| member | source | states |
|---|---|---|
| StockTypes.DefaultsAreDefault | src/lib/stores/stockTypes.ts:14-22 | the seven built-in types are all marked default |
| StockTypes.InitialStockTypes | src/lib/stores/stockTypes.ts:25-43 | the start-up list is the seven defaults followed only by custom entries; its custom entries are exactly the stored custom entries, in stored order; with nothing stored it is the defaults |
| StockTypes.Add | src/lib/stores/stockTypes.ts:59-75 | one entry is appended, custom, with the given id, name, width and height; the earlier entries are unchanged and in order |
| StockTypes.FindById | src/lib/stores/stockTypes.ts:80 | `find` is None exactly when no entry has the id; otherwise it returns the first entry with that id |
| StockTypes.Remove | src/lib/stores/stockTypes.ts:77-89 | when the first entry with the id is a default the list is returned unchanged; otherwise no entry with the id remains, every survivor comes from the list and every entry with another id survives |
| StockTypes.Reset | src/lib/stores/stockTypes.ts:91-98 | every remaining entry is a default from the list, and every default of the list remains |
| StockTypes.RemoveSplits | src/lib/stores/stockTypes.ts:85 | when no default entry carries the id, removal keeps order: removing from a list is removing from each part of it |
| StockTypes.RemoveAbsent | src/lib/stores/stockTypes.ts:85 | removing an id no entry has is a no-op |
| StockTypes.RemoveCustomSplits | src/lib/stores/stockTypes.ts:85 | removing a custom entry leaves the entries before and after it exactly as they were, in order |
| StockTypes.AddThenRemove | src/lib/stores/stockTypes.ts:59-89 | `remove` undoes `add` for a fresh id |
| StockTypes.RemoveIdempotent | src/lib/stores/stockTypes.ts:77-89 | removing twice is removing once |
| StockTypes.ResetSplits | src/lib/stores/stockTypes.ts:94 | `reset` keeps order: resetting a list is resetting each part of it |
| StockTypes.ResetIdempotent | src/lib/stores/stockTypes.ts:91-98 | `reset` is idempotent |
| StockTypes.ResetForgetsAdd | src/lib/stores/stockTypes.ts:91-98 | `reset` after `add` is `reset` |
| StockTypes.ResetInitial | src/lib/stores/stockTypes.ts:32-36 | whatever was stored, resetting the start-up list gives exactly the seven defaults |
| StockTypes.DefaultsSurviveRemove | src/lib/stores/stockTypes.ts:80-83 | on a list that starts with the defaults, removing a default's id changes nothing |
| StockSettings.Update | src/lib/stores/stockSettings.ts:51-57 | each supplied field takes the supplied value, each other field keeps its value |
| StockSettings.UpdateNothing | src/lib/stores/stockSettings.ts:53 | an empty update changes nothing |
| StockSettings.UpdateIdempotent | src/lib/stores/stockSettings.ts:53 | applying an update twice is applying it once |
| StockSettings.UpdateTwice | src/lib/stores/stockSettings.ts:53 | two updates in a row are one update with the later values winning |
| StockSettings.Reset | src/lib/stores/stockSettings.ts:59-62 | the settings become 2700, 5400, 300, 3, "mm" whatever they were |
| StockSettings.LengthsFrom | src/lib/stores/stockSettings.ts:67 | the list is empty exactly when the start exceeds the maximum |
| StockSettings.LengthsFromShape | src/lib/stores/stockSettings.ts:65-71 | element i is `from + i·increment`, every element is at most the maximum, the list is strictly ascending, starts at `from`, and the next step would pass the maximum |
| StockSettings.CatalogueAscending | src/lib/stores/stockSettings.ts:67 | the catalogue is strictly ascending |
| StockSettings.AvailableLengths | src/lib/stores/stockSettings.ts:65-71 | the loop returns exactly the catalogue |
| StockSettings.ResetCatalogue | src/lib/stores/stockSettings.ts:14-20 | after `reset` the catalogue is 2700, 3000, …, 5400 |
| Groups.PaletteDistinct | src/lib/stores/groups.ts:60-72 | the eleven pastel colours are distinct |
| Groups.SomeColourFree | src/lib/stores/groups.ts:77-86 | fewer than eleven used colours leave a palette colour unused |
| Groups.GetUniqueColor | src/lib/stores/groups.ts:75-108 | the colour is from the palette; with fewer groups than colours no group has it; otherwise it avoids the last five groups' colours when the palette has another |
| Groups.RecentColoursAvoided | src/lib/stores/groups.ts:89-107 | with eleven or more groups the colour always differs from the last five groups' colours |
| Groups.AddGroup | src/lib/stores/groups.ts:119-133 | one empty group with the given id, name and time is appended with a palette colour, new among the existing ones while the palette lasts; earlier groups are unchanged |
| Groups.UpdateGroup | src/lib/stores/groups.ts:135-143 | length and order are kept; groups with another id are unchanged; a matching group takes the supplied fields and keeps its id and creation time |
| Groups.UpdateNothing | src/lib/stores/groups.ts:137-139 | an empty update changes nothing |
| Groups.UpdateIdempotent | src/lib/stores/groups.ts:137-139 | applying an update twice is applying it once |
| Groups.RemoveGroup | src/lib/stores/groups.ts:145-151 | no group with the id remains, every survivor comes from the list, and every group with another id survives |
| Groups.AddThenRemoveGroup | src/lib/stores/groups.ts:119-151 | `remove` undoes `add` for a fresh id |
| Groups.RemoveGroupSplits | src/lib/stores/groups.ts:147 | removal keeps order: it commutes with splitting the list |
| Groups.AddItem | src/lib/stores/groups.ts:154-168 | length and order are kept; only matching groups change, and only by the item appended to their items |
| Groups.RemoveItem | src/lib/stores/groups.ts:171-185 | length and order are kept; only matching groups change, and only by dropping the items with the id |
| Groups.AddThenRemoveItem | src/lib/stores/groups.ts:154-185 | `removeItem` undoes `addItem` for an item id new to its group |
| CuttingTypes.FindAtLeast | src/lib/utils/cuttingOptimizer.ts:118 | `find(len => len >= x)` is None exactly when every catalogue length is shorter; otherwise it is the first catalogue length that is at least x |
| CuttingTypes.FindAtLeastSmallest | src/lib/utils/cuttingOptimizer.ts:117-118 | in an ascending catalogue the length found is the smallest that holds x |
| Demands.Copies | src/lib/utils/cuttingOptimizer.ts:51-53 | a piece yields `quantity` copies (none for a non-positive quantity), each with quantity 1 |
| Demands.ExpandDemands | src/lib/utils/cuttingOptimizer.ts:46-54 | the filter and the nested loops produce exactly the expansion of the pieces of the type |
| Demands.ExpandSnoc | src/lib/utils/cuttingOptimizer.ts:49-54 | a piece of the type adds its copies at the end; a piece of another type adds nothing |
| Demands.ExpandCount | src/lib/utils/cuttingOptimizer.ts:49-54 | there are as many unit demands as the quantities of the type add up to |
| Demands.ExpandMembers | src/lib/utils/cuttingOptimizer.ts:46-54 | every unit demand has the type and quantity 1 and equals an input piece with positive quantity apart from its quantity; every such piece of the type is represented |
| Demands.InsertByLength | src/lib/utils/cuttingOptimizer.ts:57 | insertion adds exactly the one demand |
| Demands.InsertSorted | src/lib/utils/cuttingOptimizer.ts:57 | insertion keeps a list longest first |
| Demands.SortByLength | src/lib/utils/cuttingOptimizer.ts:57 | the sort is a permutation and orders demands longest first |
| Demands.InsertKeepsTies | src/lib/utils/cuttingOptimizer.ts:57 | insertion does not reorder demands of equal length |
| Demands.SortKeepsTies | src/lib/utils/cuttingOptimizer.ts:57 | the sort is stable: demands of any one length keep their input order |
| OversizeSplit.HandleOversizedPiece | src/lib/utils/cuttingOptimizer.ts:171-233 | the while loop and the stamping `forEach` produce exactly the join group of the piece |
| OversizeSplit.PartsFromShape | src/lib/utils/cuttingOptimizer.ts:184-225 | the loop yields n parts with (n−1)·max < remaining ≤ n·max whose lengths add up to what remained; all but the last are whole bars carrying the kerf; the last is positive, at most max, with kerf 0; parts are numbered consecutively |
| OversizeSplit.StampLengths | src/lib/utils/cuttingOptimizer.ts:228-230 | stamping the part count changes no length |
| OversizeSplit.SplitCoversPiece | src/lib/utils/cuttingOptimizer.ts:179-225 | the parts' lengths add up to the piece's length |
| OversizeSplit.SplitShape | src/lib/utils/cuttingOptimizer.ts:184-230 | at least two parts, numbered 1..n, each with total n, position 0, the piece's id and margin and a bar at least as long as itself; the kerf is carried by every part except the last |
| OversizeSplit.SplitLastBar | src/lib/utils/cuttingOptimizer.ts:189-201 | the last part lies on the smallest catalogue bar that holds it, when there is one |
| OversizeSplit.PartsFromLast | src/lib/utils/cuttingOptimizer.ts:189-201 | the last part's bar is the catalogue's `find` result when that is truthy, else `maxLength` |
| Packing.AcceptsExactly | src/lib/utils/cuttingOptimizer.ts:81-92 | a bar of the type accepts a piece when it has room for the piece, its kerf and its margin, or when piece and kerf fill it exactly; an empty bar needs room for the piece alone |
| Packing.PlaceInto | src/lib/utils/cuttingOptimizer.ts:94-111 | the piece is appended at position length − remaining, the bar gives away the effective length plus margin, and its remaining length stays non-negative |
| Packing.FirstFit | src/lib/utils/cuttingOptimizer.ts:79-113 | the bar chosen is the earliest that accepts the piece; None means no bar does |
| Packing.FirstFitIndex | src/lib/utils/cuttingOptimizer.ts:79-113 | the inner loop with `continue` and `break` finds exactly the first fit |
| Packing.PlaceIntoKeepsLayout | src/lib/utils/cuttingOptimizer.ts:94-111 | placing into an accepting bar keeps its layout: pieces back to back, each followed by kerf and margin |
| Packing.OpenBarLayout | src/lib/utils/cuttingOptimizer.ts:116-146 | a new bar holds one piece at position 0, from the catalogue, of the right type |
| Packing.NoRoomBeyondCatalogue | src/lib/utils/cuttingOptimizer.ts:92 | no bar accepts a piece longer than every catalogue length |
| Packing.PlaceKeepsLayout | src/lib/utils/cuttingOptimizer.ts:77-146 | one placement keeps every bar's layout |
| Packing.PackLayout | src/lib/utils/cuttingOptimizer.ts:70-147 | after any number of demands every bar holds at least one piece of the type, none longer than `maxLength`, laid out from 0; only a single-piece bar can be overdrawn |
| Packing.PackOversized | src/lib/utils/cuttingOptimizer.ts:72-75 | exactly one join group per oversized demand, in demand order |
| Packing.AcceptedIsPlaceable | src/lib/utils/cuttingOptimizer.ts:92 | a piece an open bar accepts is one some catalogue length holds |
| Packing.PlaceConserves | src/lib/utils/cuttingOptimizer.ts:77-146 | one placement adds the piece to the laid-out pieces exactly when a catalogue length holds it, and changes nothing else |
| Packing.PackConserves | src/lib/utils/cuttingOptimizer.ts:70-147 | the pieces on the bars are exactly the non-oversized demands that a catalogue length holds, each once |
| Packing.NewBarOnlyWhenNoneFits | src/lib/utils/cuttingOptimizer.ts:116-146 | a bar is opened only when no open bar accepts the piece; it is appended, has the smallest catalogue length that holds the piece, holds it at position 0 and is charged length, kerf and margin |
| Packing.PositionsArePrefixSums | src/lib/utils/cuttingOptimizer.ts:94-108 | each piece sits where the charges of the pieces before it end |
| Packing.BarUsage | src/lib/utils/cuttingOptimizer.ts:94-142 | what a bar has given away is the sum of its pieces' lengths, kerfs and margins, less the margin of a last piece that fills it flush |
| CuttingOptimizer.WasteIsLeftover | src/lib/utils/cuttingOptimizer.ts:150-158 | total length minus total used is the sum of the remaining lengths |
| CuttingOptimizer.Totals | src/lib/utils/cuttingOptimizer.ts:150-158 | the loop's `totalUsed` is the sum of used lengths, the waste is the sum of remaining lengths, and used plus waste is the total bar length |
| CuttingOptimizer.OptimizeCutting | src/lib/utils/cuttingOptimizer.ts:40-168 | the function's loops produce exactly the plan of the sorted unit demands |
| CuttingOptimizer.SortedDemandable | src/lib/utils/cuttingOptimizer.ts:46-57 | the sorted unit demands are all of the type and well formed when the ordered pieces are |
| CuttingOptimizer.PlanLayout | src/lib/utils/cuttingOptimizer.ts:40-168 | every bar of the plan is laid out correctly, from the catalogue, of the plan's type |
| CuttingOptimizer.PlaceableCutsPermutation | src/lib/utils/cuttingOptimizer.ts:57 | which demands reach a bar does not depend on their order |
| CuttingOptimizer.PlanConserves | src/lib/utils/cuttingOptimizer.ts:40-168 | the plan's bars hold exactly the unit demands of the type that are not oversized and that a catalogue length holds |
| CuttingOptimizer.PlanOversized | src/lib/utils/cuttingOptimizer.ts:70-75 | the join groups are those of the oversized unit demands, longest first |
| CuttingOptimizer.PlanNothingOfType | src/lib/utils/cuttingOptimizer.ts:46 | with no piece of the type the plan has no bars, no groups and zero totals |
| CuttingOptimizer.PlanTotals | src/lib/utils/cuttingOptimizer.ts:150-158 | the plan's waste is the sum of remaining lengths and used plus waste is the total bar length |
| Scenarios.DefaultCatalogue | src/lib/stores/stockSettings.ts:14-20 | the default catalogue is 2700 … 5400 in steps of 300 |
| Scenarios.FlushFirstPieceOverdraws | src/lib/utils/cuttingOptimizer.ts:142 | a 2700 mm piece with a 3 mm kerf leaves its 2700 mm bar at −3 |
| Scenarios.ThreeShortPieces | src/lib/utils/cuttingOptimizer.ts:79-146 | three 1200 mm pieces (kerf 3, margin 5) take two 2700 mm bars, at positions 0 and 1208 on the first |
| Scenarios.SixMetreDemand | src/lib/utils/cuttingOptimizer.ts:184-230 | a 6000 mm piece becomes a 5400 mm part with the kerf and a 600 mm part on a 2700 mm bar, numbered 1 and 2 of 2 |
| Scenarios.UnalignedMaximumDropsDemand | src/lib/utils/cuttingOptimizer.ts:118-120 | with a 5500 mm maximum, a 5450 mm piece is neither placed nor split |

## Left out

- Ids from `crypto.randomUUID()`: bars and placed pieces carry no id; the stores take the new id as a parameter, and nothing is proved about uniqueness.
- `utilization` and `overallUtilization`: floating-point percentages, not modelled; the plan keeps the integer totals they are computed from.
- `Math.random` and `Date.now`: parameters (`rand` in [0, 1) and `now`).
- localStorage, `JSON.parse`/`JSON.stringify`, the `browser` guards and `getInitialSettings`: I/O. `InitialStockTypes` takes the parsed stored list as an `Option`, None standing for nothing stored, unparsable data or no browser.
- The Svelte stores (`writable`, `derived`, `subscribe`, `themeColors$`): the reducers are modelled as functions from the old list to the new one.
- src/lib/utils/shareState.ts and src/lib/stores/theme.ts are not part of this model (encoding, DOM and storage calls).
- Lengths are JavaScript numbers; the model uses integers, so fractional lengths are not modelled.
- CuttingOptimizer.OptimizeCutting: requires `maxLength > 0` and a catalogue loop that ends (`increment > 0` or `minLength > maxLength`); the source loops forever otherwise when a piece is oversized or the catalogue is not empty, but it would also return when `maxLength ≤ 0` and no piece is oversized, which the model does not cover.
- OversizeSplit.HandleOversizedPiece: requires `maxLength > 0`, without which the source's loop does not end; it returns the group and the caller appends it, instead of pushing into the caller's array; its unused `stockType` parameter is dropped.
- Packing.PlaceInto: `stock.pieces.push` and `stock.remainingLength -=` on a bar in place are modelled as replacing that bar in the list of bars; the bars are created inside the call, so there is no aliasing to lose.
- Demands.SortByLength: JavaScript's `Array.prototype.sort` with comparator `b.length - a.length` is modelled as a stable insertion sort, matching the stability the language requires.
- Groups.GetUniqueColor: the random index is `floor(rand · n)` with `rand` in [0, 1), as `Math.floor(Math.random() * n)`; the model does not model floating-point rounding of the product.
