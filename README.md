# Market terminal: watchlist store and derived views

This project models the logic core of a mobile stock-exchange terminal. The
app fetches one snapshot of per-symbol statistics. It shows that snapshot as
a quote grid, a Movers list, a Heatmap and a Watchlist. The Watchlist is
backed by a list of symbols kept in the device's key-value storage.

The model has two parts.

- **The watchlist store** (`use_wishlist.dfy`, module `UseWishlist`).
  - It is a class with the hook's three state fields: `symbols` (None until loaded), `loading` and `error`.
  - Two ghost fields stand for storage: the list encoded under the key `wishlist_symbols_v1`, and the log of every write.
  - `Load`, `Save`, `Add`, `Remove` and `Toggle` change that state step by step, as the hook does.
  - The new lists come from pure functions (`Added`, `Removed`, `Toggled`). Their set-like properties are proved beside them: no duplicates, membership, order kept, and double toggle.
- **The derived views**. These are pure functions over a snapshot `seq<SymbolStats>`:
  - the Watchlist filter and screen state (`watchlist.dfy`);
  - the Movers list (`movers.dfy`);
  - the Heatmap order, colours and text (`heatmap.dfy`);
  - the cells and navigation parameters of one grid row (`stock_row.dfy`).

  Movers and Heatmap sort with the same comparator. That sort is defined once, in `magnitude_sort.dfy`:
  - it is a permutation of its input for every input;
  - it is non-increasing in `|net_change|` when every change is finite;
  - it is stable, so rows of equal magnitude keep their input order;
  - it leaves a sequence that is already in order unchanged.

Modelling choices:

- **Numbers.** A JavaScript number is `JsNumber.Num`: `Finite(real) | PosInf | NegInf | NaN`. Finite values are exact reals, so there is no rounding. The infinities keep their sign because the core treats them apart from NaN. For example, the Heatmap draws `+Infinity` green at opacity 0.85, and the grid counts it as "up". A missing numeric field behaves like NaN in every comparison the core makes.
- **Text fields.** A text field of the record is `Option<string>`, with `None` meaning absent. `x || y` falls back when the field is absent or empty (`Market.OrElse`).
- **Number parsing.** `parseFloat` and `Number(string)` belong to the JavaScript runtime. They are parameters of the StockRow functions.
- **Formatter output.** The output of `toFixed` and `toLocaleString` is a tagged value (`Display.Text`, `StockRow.VolumeText`), not digits.
- **Storage and JSON.** The storage read together with `JSON.parse` is one input to `Load`, of type `ReadOutcome`. Whether a write succeeds is an input to the writing operations.
- **Sorting.** `Array.prototype.sort` has been stable since ECMAScript 2019. With a consistent comparator, every stable sort produces the same sequence, so the model computes it by insertion. The engine reads a comparator result as "before" when it is negative and as "equal" when it is NaN, and `Before` does the same.
- **Copies.** Dafny sequences are values. So the fact that Movers filters into a fresh array, and Heatmap sorts `symbols.slice()`, means the caller's array is never reordered. The model holds this by construction.

Three things in the source are modelled as written:

- The Heatmap's change line shows `0.00%` for a non-finite change, with a percent sign. A finite change in the same line has no percent sign.
- The grid shows a non-finite change as `0.00` but a non-finite last price as `—`.
- Each screen holds its own hook instance. A `toggle(x)` issued before that instance's first load resolves sees `symbols || []` as empty and saves `[x]`. That write replaces whatever list storage held (`UseWishlist.WishlistStore.Toggle`).

## Model

| member | source | states |
|---|---|---|
| JsNumber.Abs | components/screens/Movers.tsx:10 | `Math.abs` maps a finite v to \|v\|, either infinity to +Infinity and NaN to NaN. It is never negative, and it is positive exactly when its argument is positive or negative. |
| JsNumber.Sub | components/screens/Heatmap.tsx:6 | The comparator's subtraction is exact on finite values. NaN on either side gives NaN. Subtracting a value from itself gives zero, or NaN for an infinity. A finite value minus +Infinity is -Infinity, and minus -Infinity is +Infinity. +Infinity minus anything other than +Infinity or NaN stays +Infinity, and likewise for -Infinity. |
| Market.OrElse | components/layout/StockRow.tsx:25-32 | `f \|\| fallback` gives the field when it is present and non-empty, and the fallback otherwise. |
| Seqs.Filter | components/screens/Movers.tsx:10 | `filter` returns no more elements than its input, and every element it returns satisfies the predicate. |
| Seqs.FilterCount | components/screens/Watchlist.tsx:13 | Each value occurs in a filter's result as often as in its input when it satisfies the predicate, and never otherwise. Membership follows the same rule. |
| Seqs.FilterIsSubsequence | components/screens/Watchlist.tsx:13 | A filter's result is a subsequence of its input, in the input's order. |
| Seqs.FilterConcat | components/screens/Movers.tsx:10 | Filtering a concatenation equals concatenating the filtered parts. |
| Seqs.FilterSingleton | components/screens/Movers.tsx:10 | Filtering a one-element list keeps the element exactly when it satisfies the predicate. |
| Seqs.FilterKeepsAll | hooks/use-wishlist.ts:56 | A filter whose predicate holds for every element returns its input unchanged. |
| Seqs.FilterNoDuplicates | hooks/use-wishlist.ts:56 | Filtering a list without duplicates gives a list without duplicates. |
| Seqs.NoDuplicatesCount | hooks/use-wishlist.ts:46-47 | In a list without duplicates, every value occurs at most once. |
| MagnitudeSort.BeforeFinite | components/screens/Movers.tsx:10 | On finite changes, the comparator puts a before b exactly when ‖a‖ > ‖b‖. |
| MagnitudeSort.BeforeSeparates | components/screens/Heatmap.tsx:6 | Two rows the comparator strictly orders never have equal `Math.abs(net_change)`. |
| MagnitudeSort.InsertPermutes | components/screens/Heatmap.tsx:6 | Inserting a row into a sequence yields that sequence's multiset plus the one row. |
| MagnitudeSort.InsertPastOther | components/screens/Movers.tsx:10 | A row that the inserted row moves past is never in the inserted row's magnitude group. |
| MagnitudeSort.Sort | components/screens/Heatmap.tsx:6 | The sorted copy is a permutation of its input, of the same length, for every input (NaN and infinities included). |
| MagnitudeSort.SortDescending | components/screens/Movers.tsx:10 | When all changes are finite, the sorted copy is non-increasing in `\|net_change\|` over every pair of positions. |
| MagnitudeSort.InsertDescending | components/screens/Movers.tsx:10 | Inserting a finite row into a descending sequence keeps it descending. |
| MagnitudeSort.SortOfDescending | components/screens/Movers.tsx:10 | Sorting a sequence that is already descending returns it unchanged. |
| MagnitudeSort.InsertStable | components/screens/Movers.tsx:10 | An inserted row becomes the first of its magnitude group, and the order within the group is otherwise unchanged. |
| MagnitudeSort.SortStable | components/screens/Movers.tsx:10 | Stability: for every magnitude, the rows of that magnitude appear in the same relative order before and after sorting. |
| MagnitudeSort.DescendingTail | components/screens/Movers.tsx:10 | Dropping the first row of a descending sequence leaves a descending sequence. |
| MagnitudeSort.ConsDescending | components/screens/Movers.tsx:10 | Putting a row in front whose magnitude bounds all the others keeps the sequence descending. |
| MagnitudeSort.InsertBound | components/screens/Movers.tsx:10 | If a value bounds the inserted row and every existing row, it bounds every row after insertion. |
| Movers.IsMover | components/screens/Movers.tsx:10 | A row qualifies iff its change is finite and not zero. |
| Movers.Movers | components/screens/Movers.tsx:10 | Every row shown has a finite, nonzero change. The rows are exactly the qualifying snapshot rows, each as often as in the snapshot. A null snapshot gives nothing. |
| Movers.MoversDescending | components/screens/Movers.tsx:10 | The list is non-increasing in `\|net_change\|`, and every magnitude in it is strictly positive. |
| Movers.MoversStable | components/screens/Movers.tsx:10 | Rows of equal magnitude appear in snapshot order. |
| Movers.MoversIdempotent | components/screens/Movers.tsx:10 | The home screen (app/(tabs)/index.tsx, line 82) already filters and sorts the array it passes, and Movers does it again. The second pass changes nothing. |
| Heatmap.Ordered | components/screens/Heatmap.tsx:6 | `sorted` has the same length as `symbols` and is a permutation of it. |
| MagnitudeSort.Compare | components/screens/Heatmap.tsx:6 | The comparator `Math.abs(b.net_change) - Math.abs(a.net_change)` is the exact difference of magnitudes for finite changes. It is NaN when either change is NaN or both are infinite. It is -Infinity when only `a`'s change is infinite, and +Infinity when only `b`'s is. |
| MagnitudeSort.Before | components/screens/Movers.tsx:10 | `a` goes before `b` only when neither change is NaN and the magnitudes differ. An infinite change goes before every finite one. A finite change never goes before an infinite one, and two infinite changes are tied. |
| Heatmap.OrderedDescending | components/screens/Heatmap.tsx:6 | With finite changes throughout, `sorted` is non-increasing in `\|net_change\|`. |
| Heatmap.Opacity | components/screens/Heatmap.tsx:14 | The opacity is `min(0.85, 0.2 + \|x\|/5)` for finite x and 0.85 for an infinity. It always lies in [0.2, 0.85]. It is never taken of NaN, because NaN falls to the grey branch. |
| Heatmap.OpacityMonotone | components/screens/Heatmap.tsx:14 | A larger finite change is never drawn fainter. |
| Heatmap.OpacityValues | components/screens/Heatmap.tsx:14 | A change of ±2.5 gives opacity 0.7. Any \|x\| ≥ 3.25 gives the cap 0.85. |
| Heatmap.BackgroundOf | components/screens/Heatmap.tsx:13-14 | The hue is green iff the change is > 0 and red iff it is < 0. Otherwise it is neutral gray at alpha 0.25. A coloured cell's alpha is the opacity. |
| Heatmap.CellOf | components/screens/Heatmap.tsx:14-20 | A cell shows its symbol, and its background is the one its change picks. A finite change shows with two decimals, the percent change with `%`. A non-finite value in either line shows the literal `0.00%`. |
| Heatmap.Cells | components/screens/Heatmap.tsx:10-24 | There is one cell per snapshot row, in heatmap order. Every row gets a cell and every cell belongs to a row. |
| StockRow.LastSource | components/layout/StockRow.tsx:8 | The last price is taken from `last_trade_price`, else `open_price`, else `'0'`. The chosen text is never empty. |
| StockRow.TrendOf | components/layout/StockRow.tsx:11-13 | Up iff change > 0, down iff change < 0, neutral iff zero or NaN. Up and down never hold together. |
| StockRow.LastCell | components/layout/StockRow.tsx:42 | The LAST cell shows two decimals when finite. It shows `—` exactly when the value is not finite. |
| StockRow.ChangeCell | components/layout/StockRow.tsx:45-48 | A change cell shows two decimals when finite. It shows `0.00` (then the suffix) exactly when the value is not finite. |
| StockRow.QuoteCell | components/layout/StockRow.tsx:51-54 | An empty or absent bid or ask shows `—`. Any other value shows as received. The cell is never blank. |
| StockRow.Tier | components/layout/StockRow.tsx:62-65 | The thresholds are compared from the top down: B iff v ≥ 1e9, M iff 1e6 ≤ v < 1e9, K iff 1e5 ≤ v < 1e6, plain otherwise. Each scaled amount times its unit gives back v and lies in its tier's range. |
| StockRow.TierExamples | components/layout/StockRow.tsx:62-65 | 1,500,000,000 falls in the billions tier with amount 1.5, which prints as `1.50B` because only a trailing `.00` is stripped. 250,000 is 250 thousands (`250K`). 850 is grouped and prints as plain `850`. |
| StockRow.VolumeCell | components/layout/StockRow.tsx:58-67 | An empty volume shows `—`. A volume whose `Number()` is not finite shows its own text. Otherwise the volume shows its tier. |
| StockRow.View | components/layout/StockRow.tsx:8-67 | The row marks up and down by the sign of the change. Each cell is the one its field's rule gives: the last price and change to two decimals, bid and ask as received, the volume by tier. The placeholders appear exactly where the value is non-finite or empty. |
| StockRow.FalsyToBlank | components/layout/StockRow.tsx:22 | `String(last \|\| '')` is blank exactly for 0 and NaN, and otherwise carries the number. |
| StockRow.FiniteOrBlank | components/layout/StockRow.tsx:23-24 | A change parameter is blank exactly when the change is not finite, and otherwise carries it. |
| StockRow.LastPrice | components/layout/StockRow.tsx:8 | The last price parses `last_trade_price` when it is truthy, else `open_price` when truthy, else `'0'`. |
| StockRow.Params | components/layout/StockRow.tsx:20-33 | Navigation params: a zero or NaN last price is blank, but an infinite one is passed on. A non-finite change is blank, but a zero change is passed. A passed last, change or percent change carries the row's own value. Each of the eight text fields is the row's text when truthy and `''` otherwise. |
| Watchlist.OnList | components/screens/Watchlist.tsx:12-13 | `set.has(s.symbol)` keeps exactly the rows whose symbol is on the watchlist. |
| Watchlist.Filtered | components/screens/Watchlist.tsx:10-14 | An empty watchlist gives nothing, whatever the snapshot. Otherwise the result is a subsequence of the snapshot. Every result row is on the watchlist, and every snapshot row on the watchlist is kept, with its multiplicity. |
| Watchlist.View | components/screens/Watchlist.tsx:16-38 | The spinner shows iff loading. The empty notice shows iff not loading and nothing matches, which includes an empty watchlist. Otherwise the screen lists `filtered`. |
| UseWishlist.Added | hooks/use-wishlist.ts:43-47 | `add` changes nothing when x is present, and otherwise gives exactly the old list followed by x. A list without duplicates keeps none. |
| UseWishlist.Other | hooks/use-wishlist.ts:56 | The filter predicate `s !== symbol` keeps exactly the entries different from x. |
| UseWishlist.Removed | hooks/use-wishlist.ts:52-56 | `remove` takes out every occurrence of x. It keeps the other entries, in order and with their counts, and a list without duplicates keeps none. |
| UseWishlist.Toggled | hooks/use-wishlist.ts:61-71 | `toggle` flips the membership of x and leaves every other symbol's membership as it was. A list without duplicates keeps none. |
| UseWishlist.ToggleTwice | hooks/use-wishlist.ts:61-71 | Two toggles restore x's membership. Starting from x absent they restore the exact list. Starting from a list without duplicates they restore its contents, with x moved to the end. |
| UseWishlist.ToggleTwiceAbsent | hooks/use-wishlist.ts:61-71 | Toggling an absent symbol twice gives back exactly the original list. |
| UseWishlist.ToggleTwicePresent | hooks/use-wishlist.ts:61-71 | Toggling a present symbol twice in a list without duplicates gives the list without it, then it appended. That has the original contents. |
| UseWishlist.WishlistStore.constructor | hooks/use-wishlist.ts:9-11 | The initial state is no list, loading, and no error. |
| UseWishlist.WishlistStore.Symbols | hooks/use-wishlist.ts:78 | The exposed list `symbols \|\| []` is the loaded list, or empty before the first load. |
| UseWishlist.WishlistStore.IsInWishlist | hooks/use-wishlist.ts:73-78 | True iff x is in the exposed list `symbols \|\| []`. It is false before the first load. |
| UseWishlist.WishlistStore.Load | hooks/use-wishlist.ts:13-28 | The error is cleared first. Missing, empty or non-array data gives `[]`, and an array gives that array. A failure records its message (or the default) and keeps the list. Afterwards loading is false in every case, and nothing is written. |
| UseWishlist.WishlistStore.Save | hooks/use-wishlist.ts:34-41 | The list in memory becomes `next`, and one whole-list write goes to `wishlist_symbols_v1`. On success the slot holds `next`. A failed write leaves the slot as it was and records no error. |
| UseWishlist.WishlistStore.Add | hooks/use-wishlist.ts:43-50 | If x is present, nothing changes and nothing is written. Otherwise the list becomes the old list plus x and is saved with exactly one write. |
| UseWishlist.WishlistStore.Remove | hooks/use-wishlist.ts:52-59 | If x is absent, nothing changes and nothing is written. Otherwise the list becomes the old list without x and is saved with exactly one write. |
| UseWishlist.WishlistStore.Toggle | hooks/use-wishlist.ts:61-71 | Exactly one of remove and add takes place, so exactly one write is made, and `isInWishlist(x)` flips. Before the first load the write is `[x]` alone. |

## Left out

- Asynchrony and stale closures: each operation runs to completion. The hook's callbacks capture `symbols` from the last render, so two quick toggles can both read the same old list. Interleaved writes that resolve in a different order are not modelled either.
- Storage and JSON: the storage read and `JSON.parse` together are one input to `Load`. An array whose elements are not strings is taken as a list of strings, as the source's type cast does.
- Storage round trip: the model does not state that the JSON text of a saved list parses back to that list.
- Floating point: finite numbers are exact reals. `0.2 + |x|/5`, the volume scaling, `toFixed`, the removal of a trailing `.00` and `toLocaleString` are therefore not rounded. The exact digits are shown as tagged values.
- Heatmap.OrderedDescending: non-increasing order is stated only for snapshots whose changes are all finite. With ±Infinity but no NaN the comparator stays consistent. `Before` is proved to put an infinite change ahead of every finite one, but sortedness over the extended magnitudes is not proved.
- Heatmap ordering with NaN: a NaN change makes the comparator inconsistent, and the engine's order is then implementation-defined. The model returns its insertion order. It proves only the permutation property (and stability) for such input, and proves sortedness only for all-finite input.
- A JSON `null` change: `Math.abs(null)` is 0 while `Number.isFinite(null)` is false. `Num` has no value for null, so such a row is not representable. In the source, it would be left out of Movers and would sort as magnitude 0.
- `parseFloat` and `Number(string)` are parameters of the StockRow functions; string-to-number parsing is not modelled.
- Colours and layout: the row's colour hex values, the heatmap's rgb triple per hue (named in `Heatmap.BackgroundOf`'s comment) and the heatmap cell width `100 / numCols%` are presentation and are not modelled.
- The home screen (app/(tabs)/index.tsx) is not part of this model, except as the caller in `Movers.MoversIdempotent`. It holds the snapshot fetch, the ticker strip and the heatmap column breakpoints.
- TerminalHeader, the style tables, the Terminal list screen and the detail screen are presentation over the values modelled here.
