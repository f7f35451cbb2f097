# Order book and chain-list transforms of the Orderly hooks, in Dafny

This project models three pieces of `@orderly.network/hooks`. It proves what each one does.

- **Order book stream** (`packages/hooks/src/orderly/useOrderbookStream.ts`):
  - `mergeItems` and `mergeOrderbook` fold a websocket delta into a snapshot side and sort it.
  - `reduceItems` buckets price levels by depth and adds running totals of quantity and notional.
  - `reduceOrderbook` un-crosses the book, reverses the asks and pads both sides.
  - The hook returns the window `asks.slice(-level)` / `bids.slice(0, level)`.
- **Chain lists** (`packages/hooks/src/orderly/useChains.ts`):
  - `fillChainsInfo` flattens the token list.
  - `getSwapSupportChains` splits the swap chains into mainnet and testnet.
  - `updateOrderlyChains` overlays chain info.
  - `updateTestnetInfo` replaces an entry of the caller's testnet array in place.
- **Symbol table** (`packages/hooks/src/orderly/useSymbolsInfo.ts`): the `formatter` turns `/v1/public/info` rows into a table keyed by symbol.

Modules, one per file:

| file | module | contents |
|---|---|---|
| `optional.dfy` | `Optional` | `Option` (`undefined` / `null` as `None`) |
| `book_types.dfy` | `BookTypes` | JS numbers (`NaN` or a finite value), raw levels `[price, qty]`, display rows `[price, qty, cumQty, notional]`, the sort order, running sums |
| `merge.dfy` | `OrderbookMerge` | `mergeItems`, `mergeOrderbook`, the comparators |
| `buckets.dfy` | `OrderbookBuckets` | `reduceItems`: bucket keys, the `prices` map, the cumulative loop |
| `reduce.dfy` | `OrderbookReduce` | `reduceOrderbook`, `paddingFn`, the hook's slice window |
| `chains.dfy` | `Chains` | the four `useChains.ts` transforms |
| `symbols.dfy` | `SymbolsInfo` | `String.prototype.split` and the symbol-table formatter |

Each loop of the source is a `method` with its loop and invariants. Each method is proved equal to a specification function, and lemmas state what that function means:

- **merge**: a side is read as a *price map* (price ↦ quantity). `mergeItems` acts on it entry by entry: remove on quantity 0, otherwise set.
- **reduce**: each bucket holds the summed quantity of the levels under its key. The cumulative columns are prefix sums.
- **chains**: membership and order of each list, stated against the input.
- **symbols**: the key set of the table and which row each key holds.

`updateTestnetInfo` writes into an `array`, as the source writes into the caller's array.

## Where the code differs from what one might expect (the model follows the code)

- `mergeItems` on an empty snapshot side returns the delta verbatim. Zero-quantity and NaN-price entries stay in (`MergedNoZero` excludes this case).
- `mergeItems` drops NaN prices only from the snapshot, not from the delta. `findIndex` never finds a NaN price, so a NaN-priced delta entry with a non-zero quantity is appended (`IndexOfPrice`, `MergedMeaning`).
- `reduceItems` does not sort the buckets again. They come out in `Map` insertion order. `BucketsOrdered` proves this order is still book order when the input is sorted and the sub-unit branch does not fire.
- The sub-unit branch (`0 < depth < 1` and a key whose printed form contains a `.`) does not round `price / depth`. It cuts the decimal string of the raw price. The model takes that string surgery as the parameter `cut` (`BucketKey`). It reads "printed with a `.`" as "not an integer" (`SubUnitFires`).
- A lone crossing ask is moved up by `depth`, or by 0 when there is no depth. Its other three columns stay as they were. So the book can stay crossed (`ResolvedMeaning`).
- With several asks, the loop folds the lowest ask into the next one until the lowest is above the bid or *no ask is left*. So the asks can be folded away entirely (`FoldWhileCrossing`).
- After a fold, the new head's notional is `Math.ceil(quantity) * price`. It is not `price * cumQty`. Every later row gets `price * qty + previous notional`. `HeadRoundedNotional` states the resulting column: the prefix sum plus the one-off `ceil(q0)*p0 - p0*q0`.
- `reduceOrderbook` never truncates. The hook's `slice` does (`VisibleWindow`).

## Model

| member | source | states |
|---|---|---|
| OrderbookMerge.IndexOfPrice | packages/hooks/src/orderly/useOrderbookStream.ts:187 | the first index whose price is `===` to the entry's price, and -1 exactly when no level's price is; a NaN price is never found |
| OrderbookMerge.DropNaNPrices | packages/hooks/src/orderly/useOrderbookStream.ts:179 | keeps every finite-price level with its multiplicity and nothing else |
| OrderbookMerge.MergeItems | packages/hooks/src/orderly/useOrderbookStream.ts:175-203 | the `while`/`shift` loop returns the delta applied entry by entry to the NaN-filtered snapshot, and the delta itself for an empty snapshot |
| OrderbookMerge.AppendMeaning | packages/hooks/src/orderly/useOrderbookStream.ts:189-191 | appending a level at a new price adds that price to the price map (a NaN price adds nothing) |
| OrderbookMerge.ReplaceMeaning | packages/hooks/src/orderly/useOrderbookStream.ts:196 | overwriting the first level at a price sets that price's quantity in the map |
| OrderbookMerge.RemoveMeaning | packages/hooks/src/orderly/useOrderbookStream.ts:193-194 | `splice(index, 1)` on a side with unique prices keeps prices unique and removes exactly that price from the map |
| OrderbookMerge.ApplyEntryMeaning | packages/hooks/src/orderly/useOrderbookStream.ts:185-198 | one delta entry keeps prices unique and removes (quantity 0), sets (otherwise) or ignores (NaN price) its price in the map |
| OrderbookMerge.ApplyAllMeaning | packages/hooks/src/orderly/useOrderbookStream.ts:181-200 | the whole delta keeps prices unique and applies its entries to the map in order |
| OrderbookMerge.DropNaNPricesMeaning | packages/hooks/src/orderly/useOrderbookStream.ts:179 | the NaN filter changes neither uniqueness nor the price map |
| OrderbookMerge.MergedMeaning | packages/hooks/src/orderly/useOrderbookStream.ts:175-203 | for a non-empty snapshot side with unique prices, the result has unique prices and its price map is the snapshot's map with each delta entry applied in turn |
| OrderbookMerge.ZeroEntryRemoves | packages/hooks/src/orderly/useOrderbookStream.ts:189-194 | a zero-quantity entry leaves no level at its price, and leaves a side without that price unchanged |
| OrderbookMerge.ApplyAllKeepsNoZero | packages/hooks/src/orderly/useOrderbookStream.ts:189-198 | applying a delta never introduces a zero-quantity level |
| OrderbookMerge.MergedNoZero | packages/hooks/src/orderly/useOrderbookStream.ts:175-203 | a non-empty side without zero quantities stays without them after a merge |
| OrderbookMerge.ApplyAllKeepsFinite | packages/hooks/src/orderly/useOrderbookStream.ts:181-200 | with finite delta prices every price of the side stays finite |
| OrderbookMerge.Insert | packages/hooks/src/orderly/useOrderbookStream.ts:209-210 | one step of the stable sort adds exactly the inserted level (multiset) |
| OrderbookMerge.SortLevels | packages/hooks/src/orderly/useOrderbookStream.ts:209-210 | the sort is a permutation of its input |
| OrderbookMerge.InsertSorted | packages/hooks/src/orderly/useOrderbookStream.ts:21-23 | inserting a finite-price level into a list ordered by the comparator keeps it ordered |
| OrderbookMerge.SortLevelsSorted | packages/hooks/src/orderly/useOrderbookStream.ts:21-23 | with finite prices the sorted side is ordered by `asksSortFn` / `bidsSortFn` |
| OrderbookMerge.MergeOrderbook | packages/hooks/src/orderly/useOrderbookStream.ts:205-216 | each side of the result is its merged side sorted by its own comparator |
| OrderbookMerge.MergedSideSorted | packages/hooks/src/orderly/useOrderbookStream.ts:205-216 | a merged and sorted side is ordered, a permutation of the merge, with unique prices and the price map the delta produces |
| OrderbookBuckets.RoundedKeyBounds | packages/hooks/src/orderly/useOrderbookStream.ts:48-52 | an ask's key is in `[price, price + depth)` and a bid's in `(price - depth, price]` |
| OrderbookBuckets.RoundedKeyMonotone | packages/hooks/src/orderly/useOrderbookStream.ts:48-52 | a higher price never gets a lower key |
| OrderbookBuckets.BucketKeyBounds | packages/hooks/src/orderly/useOrderbookStream.ts:48-63 | where the sub-unit branch does not fire, the key keeps those bounds |
| OrderbookBuckets.KeyIndex | packages/hooks/src/orderly/useOrderbookStream.ts:68-69 | `prices.has` / `prices.get`: the position of the key, and -1 exactly when absent |
| OrderbookBuckets.UpsertMeaning | packages/hooks/src/orderly/useOrderbookStream.ts:68-76 | one loop step keeps keys distinct, adds the key and adds the quantity to it only |
| OrderbookBuckets.UpsertTotal | packages/hooks/src/orderly/useOrderbookStream.ts:68-76 | one loop step adds its quantity to the map's total |
| OrderbookBuckets.BucketsMeaning | packages/hooks/src/orderly/useOrderbookStream.ts:41-79 | the map has one bucket per key, a bucket exactly for the keys of the finite levels, each holding the summed quantity of the levels under it |
| OrderbookBuckets.BucketsTotal | packages/hooks/src/orderly/useOrderbookStream.ts:41-79 | bucketing neither loses nor invents quantity |
| OrderbookBuckets.BucketsOrdered | packages/hooks/src/orderly/useOrderbookStream.ts:41-79 | a side sorted in book order yields keys strictly in book order, when the sub-unit branch does not fire |
| OrderbookBuckets.BucketLevels | packages/hooks/src/orderly/useOrderbookStream.ts:79 | `Array.from(prices.values())`: one `[key, qty]` level per bucket, in order |
| OrderbookBuckets.FiniteLevels | packages/hooks/src/orderly/useOrderbookStream.ts:84 | the levels kept by the `isNaN` guard are finite levels of the input |
| OrderbookBuckets.FiniteLevelsKeeps | packages/hooks/src/orderly/useOrderbookStream.ts:84 | every finite level is kept as often as it occurs in the input, and no other level is (multiset) |
| OrderbookBuckets.CumulateMeaning | packages/hooks/src/orderly/useOrderbookStream.ts:82-100 | row `i` carries the `i`-th finite level's price and quantity; columns 2 and 3 are running totals of quantity and `quantity * price` |
| OrderbookBuckets.BucketedRows | packages/hooks/src/orderly/useOrderbookStream.ts:27-103 | with a depth the rows are the buckets in map order, priced at the key, holding the summed quantity, with running totals |
| OrderbookBuckets.BucketedTotal | packages/hooks/src/orderly/useOrderbookStream.ts:27-103 | with a depth the last running total is the total quantity of the finite input levels |
| OrderbookBuckets.BucketPrices | packages/hooks/src/orderly/useOrderbookStream.ts:42-79 | the first loop builds the bucket map |
| OrderbookBuckets.CumulateRows | packages/hooks/src/orderly/useOrderbookStream.ts:82-102 | the second loop builds the cumulative rows |
| OrderbookBuckets.ReduceItems | packages/hooks/src/orderly/useOrderbookStream.ts:27-103 | `reduceItems` returns no rows for no data, the cumulated buckets with a depth and the cumulated levels without |
| OrderbookReduce.RelinkedShape | packages/hooks/src/orderly/useOrderbookStream.ts:137-151 | after `shift` the in-place loop keeps every price, adds the removed quantity to row 0 whose running total restarts at its new quantity, and keeps the later rows' quantities and running totals |
| OrderbookReduce.FoldKeepsTotal | packages/hooks/src/orderly/useOrderbookStream.ts:135-151 | a fold with a surviving ask keeps the total ask quantity |
| OrderbookReduce.FoldKeepsPrefixSums | packages/hooks/src/orderly/useOrderbookStream.ts:137-151 | a fold keeps column 2 the running total of column 1 |
| OrderbookReduce.RelinkedNotional | packages/hooks/src/orderly/useOrderbookStream.ts:144-148 | the notional column after a fold is the running notional plus the one-off `ceil(q0)*p0 - p0*q0` |
| OrderbookReduce.FoldWhileCrossing | packages/hooks/src/orderly/useOrderbookStream.ts:129-156 | the `while` loop ends with no asks or with the lowest ask above the bid |
| OrderbookReduce.FoldCount | packages/hooks/src/orderly/useOrderbookStream.ts:129-156 | the loop removes exactly as many asks as it folds |
| OrderbookReduce.FoldSurvivorPrices | packages/hooks/src/orderly/useOrderbookStream.ts:129-156 | the folded asks were at or below the bid; the others keep their prices, in order |
| OrderbookReduce.FoldSurvivorQty | packages/hooks/src/orderly/useOrderbookStream.ts:137-151 | the surviving asks above the lowest keep their quantities |
| OrderbookReduce.FoldSurvivorHead | packages/hooks/src/orderly/useOrderbookStream.ts:139-141 | the new lowest ask holds the quantity of every ask folded into it plus its own |
| OrderbookReduce.FoldWhileCrossingMeaning | packages/hooks/src/orderly/useOrderbookStream.ts:128-156 | the loop keeps column 2 a running total, keeps the total quantity unless every ask is folded away, and leaves the notional column `HeadRoundedNotional` describes |
| OrderbookReduce.ResolvedMeaning | packages/hooks/src/orderly/useOrderbookStream.ts:122-158 | an uncrossed book is untouched; a lone crossing ask moves up by the depth (0 without one) with its other columns kept; several crossing asks end uncrossed with running totals kept |
| OrderbookReduce.ResolvedOrdered | packages/hooks/src/orderly/useOrderbookStream.ts:122-158 | the crossed-book fix keeps ascending asks ascending |
| OrderbookReduce.Reverse | packages/hooks/src/orderly/useOrderbookStream.ts:160 | `asks.reverse()`: row `i` is input row `n - 1 - i` |
| OrderbookReduce.Padding | packages/hooks/src/orderly/useOrderbookStream.ts:18-19 | `paddingFn(len)` is `len` all-NaN rows |
| OrderbookReduce.PaddingShape | packages/hooks/src/orderly/useOrderbookStream.ts:162-167 | a side shorter than `level` is padded to exactly `level` rows, asks in front and bids behind, its own rows unchanged |
| OrderbookReduce.ReducedBookShape | packages/hooks/src/orderly/useOrderbookStream.ts:111-173 | the returned asks are the resolved asks reversed with blanks in front, the bids with blanks behind, of the stated lengths |
| OrderbookReduce.ReducedRowsOrdered | packages/hooks/src/orderly/useOrderbookStream.ts:27-103 | with a depth, rows of a side sorted in book order are strictly in book order |
| OrderbookReduce.ReducedBookOrdered | packages/hooks/src/orderly/useOrderbookStream.ts:111-173 | with a depth and sorted input, the reversed asks and the bids the function returns are both strictly descending in price |
| OrderbookReduce.FoldLowest | packages/hooks/src/orderly/useOrderbookStream.ts:135-151 | one round of `shift` plus the in-place `for` loop computes `Fold` |
| OrderbookReduce.ResolveCross | packages/hooks/src/orderly/useOrderbookStream.ts:122-158 | the `if` block computes `Resolved` |
| OrderbookReduce.ReduceOrderbook | packages/hooks/src/orderly/useOrderbookStream.ts:111-173 | `reduceOrderbook` returns `ReducedBook` |
| OrderbookReduce.VisibleWindow | packages/hooks/src/orderly/useOrderbookStream.ts:411-412 | the hook shows the last `min(level, n)` asks and the first `min(level, n)` bids |
| OrderbookReduce.VisiblePadded | packages/hooks/src/orderly/useOrderbookStream.ts:411-412 | with padding on, each side the hook hands out has exactly `level` rows |
| Chains.KeepMeaning | packages/hooks/src/orderly/useChains.ts:229-233 | exactly the chains the filter accepts are pushed; without a filter all are |
| Chains.FillEntryMeaning | packages/hooks/src/orderly/useChains.ts:208-227 | the name falls back from the detail's name to the library's name to "--"; the entry is bridgeless and carries one token with the detail's address and decimals |
| Chains.DetailEntriesAt | packages/hooks/src/orderly/useChains.ts:208-234 | the `j`-th chain of a token is built from its `j`-th detail |
| Chains.EntriesAt | packages/hooks/src/orderly/useChains.ts:207-235 | the chains come token by token, detail by detail, one per detail |
| Chains.FilledChainsShape | packages/hooks/src/orderly/useChains.ts:201-238 | every chain returned is accepted, bridgeless, has one token, the token and chain id of some detail |
| Chains.FilledChainsCount | packages/hooks/src/orderly/useChains.ts:201-238 | no input gives no chains; without a filter one chain per detail |
| Chains.PushDetails | packages/hooks/src/orderly/useChains.ts:208-234 | the inner `forEach` pushes the accepted chains of one token in order |
| Chains.FillChainsInfo | packages/hooks/src/orderly/useChains.ts:201-238 | `fillChainsInfo` returns `FilledChains` |
| Chains.SwapTokensMeaning | packages/hooks/src/orderly/useChains.ts:257-259 | exactly the swap-enabled tokens are kept |
| Chains.SwapSupportChains | packages/hooks/src/orderly/useChains.ts:240-275 | the two lists together are no longer than the input |
| Chains.SwapSupportChainsMeaning | packages/hooks/src/orderly/useChains.ts:248-273 | a chain is in the mainnet list iff it is a kept mainnet item built from some entry, in the testnet list iff a kept non-mainnet one |
| Chains.SwapItemShape | packages/hooks/src/orderly/useChains.ts:251-262 | a returned item is named by its key, short-named by it, has the looked-up bridgeless flag and exactly the swap-enabled tokens (at least one) |
| Chains.GetSwapSupportChains | packages/hooks/src/orderly/useChains.ts:240-275 | the `forEach` computes `SwapSupportChains` |
| Chains.FindInfo | packages/hooks/src/orderly/useChains.ts:287-289 | `find`: the first info in the list with the chain id, and none exactly when the list is missing or has no such id |
| Chains.UpdatedAllAt | packages/hooks/src/orderly/useChains.ts:284-307 | each chain is updated on its own, in order |
| Chains.UpdatedChainMeaning | packages/hooks/src/orderly/useChains.ts:285-307 | with matching info the chain becomes a bridge-enabled mainnet chain named after it, keeping id, fees, bridgeless flag and tokens; without, it is unchanged |
| Chains.UpdatedChainsMeaning | packages/hooks/src/orderly/useChains.ts:278-317 | without a filter every chain is kept in order; with one exactly the accepted updated chains |
| Chains.UpdateOne | packages/hooks/src/orderly/useChains.ts:285-307 | the callback body computes `UpdatedChain` |
| Chains.UpdateOrderlyChains | packages/hooks/src/orderly/useChains.ts:278-317 | `updateOrderlyChains` returns `UpdatedChains` |
| Chains.ChainIndex | packages/hooks/src/orderly/useChains.ts:326-328 | `findIndex`: the first index with the chain id, -1 exactly when none |
| Chains.TestnetUpdatedMeaning | packages/hooks/src/orderly/useChains.ts:320-333 | the length stays; nothing changes for a non-testnet or absent id; otherwise the first entry with that id (`ChainIndex`) becomes the given chain and no other entry changes |
| Chains.UpdateTestnetInfo | packages/hooks/src/orderly/useChains.ts:320-333 | the caller's array afterwards is `TestnetUpdated` of its old contents |
| SymbolsInfo.Split | packages/hooks/src/orderly/useSymbolsInfo.ts:17 | `split` returns at least one piece |
| SymbolsInfo.JoinSplit | packages/hooks/src/orderly/useSymbolsInfo.ts:17 | joining the pieces with `_` gives back the symbol |
| SymbolsInfo.SplitPieces | packages/hooks/src/orderly/useSymbolsInfo.ts:17 | no piece contains `_` |
| SymbolsInfo.SplitThree | packages/hooks/src/orderly/useSymbolsInfo.ts:17 | `T_B_Q` with `_`-free parts splits into `[T, B, Q]` |
| SymbolsInfo.EntryOfWellFormed | packages/hooks/src/orderly/useSymbolsInfo.ts:17-24 | for `TYPE_BASE_QUOTE` the entry has type, base and quote and is named `BASE-TYPE`, the row kept |
| SymbolsInfo.EntryOfBare | packages/hooks/src/orderly/useSymbolsInfo.ts:17-24 | a symbol without `_` is its own type, base and quote are undefined, the name is `undefined-` and the symbol |
| SymbolsInfo.EntryParts | packages/hooks/src/orderly/useSymbolsInfo.ts:17-24 | type, base and quote are `_`-free; with exactly three pieces they rebuild the symbol |
| SymbolsInfo.TableKeys | packages/hooks/src/orderly/useSymbolsInfo.ts:15-25 | the table has exactly one key per distinct symbol |
| SymbolsInfo.TableLastWins | packages/hooks/src/orderly/useSymbolsInfo.ts:15-25 | each key holds the entry of the last row with that symbol |
| SymbolsInfo.FormattedMeaning | packages/hooks/src/orderly/useSymbolsInfo.ts:10-27 | missing rows give the empty table; otherwise keys are the symbols and each holds its last row's entry |
| SymbolsInfo.Format | packages/hooks/src/orderly/useSymbolsInfo.ts:9-28 | the formatter's loop computes `Formatted` |

## Left out

- `middlePrice` (`useOrderbookStream.ts:386-403`) is not modelled. It is a median taken with JavaScript's default string-order `sort`, which sits outside the transforms modelled here.
- React state, effects, websocket subscriptions, depth selection, the event emitter, `useQuery` and `createGetter` are left out. They are hook plumbing around the pure transforms.
- Numbers are exact reals plus `NaN`. Floating-point rounding, `Infinity` and `-0` are not modelled. `Decimal` arithmetic is exact, and `quantity * price` is taken exactly.
- The sub-unit branch of the bucket key prints and cuts decimal strings. The model takes it as a function parameter `cut` and proves nothing about its value.
- OrderbookBuckets.ReduceItems: a depth must be positive, and the hook only offers positive tick multiples. A negative depth would flip the rounding: an ask at 100.5 with depth -1 gets key 100, below its price. A zero depth turns every key into `Decimal(±Infinity).mul(0)`, which is NaN. All levels then share one NaN key, whose row the cumulative loop's NaN guard skips.
- OrderbookBuckets.SubUnitFires: takes a key to be printed with a `.` exactly when it is not an integer. JavaScript prints some keys in exponent form. Keys below 1e-6 with a one-digit mantissa (`3e-7`) have no `.`, so the source keeps the rounded key where the model uses `cut(price)`. Keys of 1e21 and more with a longer mantissa (`1.5e+21`) have a `.` although they are integers. For such keys the model takes the other branch.
- The `level` argument of `reduceItems` is unused by the source, so it has no counterpart.
- `paddingFn` fills one shared array object `len` times. The model has value rows, so this aliasing is not captured.
- `mergeItems` empties the caller's `update` array through `shift`. The model takes the delta by value and does not capture that side effect.
- `Array.prototype.sort` is modelled as a stable insertion sort. ECMAScript requires `sort` to be stable, so the two agree for a consistent comparator.
- OrderbookMerge.MergedSideSorted: order is proved only for finite prices. With a NaN price the comparator returns NaN and the result is implementation-defined.
- OrderbookReduce.ReducedBookOrdered: holds only when the sub-unit branch does not fire. The cut key could move a bucket out of order.
- Chain ids are integers. The `Number(chain.chain_id)` conversion and the loose `==` of `updateOrderlyChains` are taken as integer equality.
- `null` and a missing field are both `None`.
- `Object.keys` order is the given order of the entries. JavaScript lists integer-like keys first.
- `mergeDeepRight` and the spreads are modelled over the fields the code touches. Any other nested fields of `API.Chain` are not represented.
- `updateTestnetInfo` with an undefined `testnetArr` is not modelled; the array is always present. In the source, `undefined > -1` is false, so that case is a no-op.
- The caller's filter, `isBridgeless`, `isTestnet` and the `chainsInfoMap` lookup are pure function parameters. Side effects or exceptions in them are not modelled.
- A symbol row's fields other than `symbol` are kept as one opaque map. If a row carried fields named `base`, `quote`, `type` or `name`, the spread would overwrite them; the model keeps the row whole beside the new fields.
