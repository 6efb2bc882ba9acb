# Kwenta front-end: derived views over orders, leaderboard and futures markets

This project models three small pure computations of the Kwenta trading
front-end and proves what they promise:

- **Order store** (`store/orders.ts`). The exchange keeps a list of the orders
  it submitted. One selector sorts them newest first and groups them into
  `pending`, `confirmed` and `cancelled` lists; a status with no orders gives an
  empty list. Another selector says whether any order is pending. Every state
  key is `orders/` followed by a sub-key. Module `Orders`.
- **Competition leaderboard** (`sections/leaderboard/Competition/Competition.tsx`).
  First the wallet's tier is looked up in the competition file. Then the
  entries are sorted by rank and turned into display rows. The rows are
  filtered by tier and by a case-folded search. Pinned copies of the wallet's
  own rows go in front. The empty-table message depends on whether the
  competition has started. Module `Competition`.
- **Futures markets table** (`sections/dashboard/FuturesMarketsTable/FuturesMarketsTable.tsx`).
  Each market summary becomes one row: open, long and short interest, volume,
  past price, funding rate and the market label. The file also has the
  daily-volume comparator and the route of a row click. Module `FuturesMarkets`.

Two shared modules hold the list and string operations these use. `Seqs` has
`filter`, `map`, `find` and a stable sort by key. `Strings` has decimal
rendering of numbers, ASCII lower-casing and `includes`. `Wrappers` has
`Option`, which stands for a JavaScript `null`/`undefined`.

Modelling choices:

- lodash `orderBy(orders, 'timestamp', 'desc')` is `Seqs.SortBy` on the negated
  timestamp. lodash breaks ties by original position, so the sort is stable.
  The leaderboard's `sort((a, b) => a.rank - b.rank)` is the same stable sort
  on the rank, as `Array.prototype.sort` is stable. That sort reorders the
  fetched array in place; here it returns a new sequence.
- lodash `groupBy` is `Orders.GroupByStatus`. It builds a map that has a key
  only for statuses that occur, by appending each order to its status's list in
  turn. The `?? []` defaults are then applied to that map.
- Fixed-point `Wei` amounts and JavaScript numbers are exact `real`s. Ranks,
  trade counts and timestamps are `int`.
- Helpers whose code lies outside these files are parameters: `truncateAddress`,
  `formatPercent`, `getDisplayAsset`, `getSynthDescription` and the `PIN`
  marker. The same goes for the clock (`Date.now()`) and the competition start.
  The translation function `t` is not modelled; the message is its
  translation key.
- The tier lookup compares addresses exactly, but the pin match ignores case.
  `Competition.WalletCaseQuirk` shows this for a single entry of the active
  tier with no search term in force: a wallet whose address differs from the
  entry's account but equals it ignoring case gets no tier, yet the entry's
  row is pinned. The model keeps this behaviour as written.

## Model

| member | source | states |
|---|---|---|
| `Orders.GetKey` | store/orders.ts:6 | every state key is `orders/` followed by the sub-key, and the sub-key can be read back from it |
| `Orders.StateKeysDistinct` | store/orders.ts:31-51 | the keys of the orders atom and the two selectors are pairwise different |
| `Orders.OrderedByTimestampDesc` | store/orders.ts:40 | `orderBy(orders, 'timestamp', 'desc')` returns a permutation of the input with non-increasing timestamps, keeping orders of equal timestamp in input order |
| `Orders.GroupByStatus` | store/orders.ts:40 | the grouping has a key exactly for the statuses whose list is non-empty, and each key maps to the orders of that status in sorted order |
| `Orders.BucketNonEmpty` | store/orders.ts:40 | a status's list is non-empty exactly when some order has that status |
| `Orders.OrdersByStatus` | store/orders.ts:35-48 | each of the three lists is the sorted orders of that status |
| `Orders.BucketsHaveTheirStatus` | store/orders.ts:42-46 | every order in `pending` is pending, every order in `confirmed` confirmed, every order in `cancelled` cancelled |
| `Orders.BucketsPermutation` | store/orders.ts:9 | the three lists together are a permutation of the input: nothing lost, nothing duplicated |
| `Orders.BucketsNewestFirst` | store/orders.ts:40-46 | within each list timestamps never increase |
| `Orders.AbsentStatusIsEmpty` | store/orders.ts:42-46 | a status no order has yields the empty list |
| `Orders.PermutationKeepsStatuses` | store/orders.ts:40 | sorting neither creates nor removes a status |
| `Orders.HasPendingOrder` | store/orders.ts:50-57 | true exactly when some order in the list is pending |
| `Orders.InitialStateIsEmpty` | store/orders.ts:30-33 | for the atom's default empty list all lists are empty and nothing is pending |
| `Seqs.Insert` | sections/leaderboard/Competition/Competition.tsx:51 | inserting adds exactly the one element, and keeps a sorted sequence sorted |
| `Seqs.SortBy` | sections/leaderboard/Competition/Competition.tsx:51 | the sort returns a permutation of its input in non-decreasing key order |
| `Seqs.SortByStable` | store/orders.ts:40 | the sort keeps elements of equal key in their original order |
| `Seqs.First` | sections/leaderboard/Competition/Competition.tsx:41-43 | `find` returns the first element passing the test, and nothing exactly when none passes |
| `Seqs.Map` | sections/leaderboard/Competition/Competition.tsx:52 | `map` gives one result per element, in order, each the function applied to that element (also the market rows, FuturesMarketsTable.tsx:63) |
| `Wrappers.Option.GetOr` | sections/leaderboard/Competition/Competition.tsx:40 | `??` gives the value when there is one, and the default otherwise (also Competition.tsx:48 and FuturesMarketsTable.tsx:60-61) |
| `Seqs.Filter` | sections/leaderboard/Competition/Competition.tsx:65-73 | `filter` keeps exactly the elements passing the test, and each of them |
| `Seqs.FilterConcat` | sections/leaderboard/Competition/Competition.tsx:65-73 | filtering a concatenation gives the filtered parts in the same order, so `filter` keeps elements in their original order |
| `Seqs.FilterPermutes` | sections/leaderboard/Competition/Competition.tsx:65-73 | filtering two permutations of each other gives two permutations of each other |
| `Seqs.MapPermutes` | sections/leaderboard/Competition/Competition.tsx:52-64 | mapping two permutations of each other gives two permutations of each other |
| `Strings.NatToString` | sections/leaderboard/Competition/Competition.tsx:57 | the decimal rendering is a non-empty digit string without a leading zero, except for 0 |
| `Strings.NatToStringRoundTrip` | sections/leaderboard/Competition/Competition.tsx:57 | reading a rendered number back gives the number |
| `Strings.IntToString` | sections/leaderboard/Competition/Competition.tsx:57 | `toString()` of an integer rank is its canonical decimal: its digits without a leading zero (just `0` for zero), after a `-` when negative, reading back as the number |
| `Strings.NatToStringCanonical` | sections/leaderboard/Competition/Competition.tsx:57 | every digit string without a leading zero that denotes `n` is the rendering of `n` |
| `Strings.IntToStringCanonical` | sections/leaderboard/Competition/Competition.tsx:57 | the canonical decimal of an integer is unique: any digit string of that form denoting the rank is the rank text |
| `Strings.ToLower` | sections/leaderboard/Competition/Competition.tsx:70-71 | lower-casing keeps the length, folds each ASCII capital and leaves no capital behind |
| `Strings.Includes` | sections/leaderboard/Competition/Competition.tsx:70-71 | `includes` holds exactly when the term occurs at some position of the string |
| `Competition.WalletTier` | sections/leaderboard/Competition/Competition.tsx:39-45 | the tier of the first entry whose account equals the wallet address exactly (case-sensitive), or none when no entry matches, the file is missing or no wallet is connected |
| `Competition.ToRow` | sections/leaderboard/Competition/Competition.tsx:52-63 | a row keeps its entry, and sets trader to the account, the ENS name to the looked-up name when there is one, rank text to the canonical decimal of the rank, total volume to the volume and total trades to the trades |
| `Competition.TableData` | sections/leaderboard/Competition/Competition.tsx:82 | the table data is the pinned rows followed by all cleaned rows, so its length is their sum |
| `Competition.CleanRowsRankOrdered` | sections/leaderboard/Competition/Competition.tsx:50-51 | the cleaned (non-pinned) rows are in non-decreasing rank order |
| `Competition.CleanRowsAreKeptRows` | sections/leaderboard/Competition/Competition.tsx:50-73 | the cleaned rows are a permutation of the rows of the input entries that pass both filters |
| `Competition.KeepTier` | sections/leaderboard/Competition/Competition.tsx:65-67 | the tier filter keeps a row exactly when it has the wallet's tier, in compact mode with a truthy wallet tier, and the active tier otherwise |
| `Competition.MatchesSearch` | sections/leaderboard/Competition/Competition.tsx:70-71 | a row matches exactly when the term occurs somewhere in its lower-cased address, or in its lower-cased ENS name when it has one |
| `Competition.KeepSearch` | sections/leaderboard/Competition/Competition.tsx:68-73 | the search filter keeps every row when no term is in force, and exactly the matching rows otherwise |
| `Competition.CleanRows` | sections/leaderboard/Competition/Competition.tsx:50-73 | there are no more cleaned rows than entries; every one has the wallet's tier (compact, truthy wallet tier) or the active tier, and matches the search term when one is in force |
| `Competition.PinRows` | sections/leaderboard/Competition/Competition.tsx:75-80 | pinned rows exist only with a connected wallet and are no more than the cleaned rows; each belongs to the wallet ignoring case and has the rank followed by the pin marker as its rank text |
| `Competition.NoSearchKeepsAll` | sections/leaderboard/Competition/Competition.tsx:68-73 | with an absent or empty search term the search filter keeps every row |
| `Competition.SearchKeepsMatches` | sections/leaderboard/Competition/Competition.tsx:68-73 | with a search term a row is kept exactly when its lower-cased address, or its lower-cased ENS name when present, contains the term as given |
| `Competition.MatchesWallet` | sections/leaderboard/Competition/Competition.tsx:76 | without a wallet no row matches; with one, a row matches exactly when its account equals the wallet address ignoring case |
| `Competition.PinRowsConcat` | sections/leaderboard/Competition/Competition.tsx:75-80 | pinning a concatenation of cleaned rows gives the concatenation of the pinned parts, so the pinned rows keep the cleaned rows' order |
| `Competition.PinRowsSingle` | sections/leaderboard/Competition/Competition.tsx:75-80 | one cleaned row gives exactly one pinned copy, with rank text the rank followed by the pin marker, when it belongs to the wallet ignoring case, and none otherwise |
| `Competition.PinRowsSpec` | sections/leaderboard/Competition/Competition.tsx:75-80 | every pinned row is a cleaned row of the wallet (ignoring case) with only its rank text changed, to the rank followed by the pin marker; every cleaned row of the wallet is pinned |
| `Competition.NoWalletNoPins` | sections/leaderboard/Competition/Competition.tsx:76 | without a connected wallet nothing is pinned |
| `Competition.NoResultsMessage` | sections/leaderboard/Competition/Competition.tsx:85-88 | the "started" message exactly when the time is strictly after the competition start, "starting soon" otherwise |
| `Competition.WalletCaseQuirk` | sections/leaderboard/Competition/Competition.tsx:41-42 | for a single entry of the active tier and no search, a wallet address that differs from the entry's account but equals it ignoring case gets no tier, yet its row is pinned (line 76) |
| `FuturesMarkets.MarketRows` | sections/dashboard/FuturesMarketsTable/FuturesMarketsTable.tsx:59-63 | exactly one row per market, in the markets' order, each built from its own market |
| `FuturesMarkets.LongInterest` | sections/dashboard/FuturesMarketsTable/FuturesMarketsTable.tsx:85-90 | long interest is never negative at a non-negative price |
| `FuturesMarkets.ShortInterest` | sections/dashboard/FuturesMarketsTable/FuturesMarketsTable.tsx:91-96 | short interest is never negative at a non-negative price |
| `FuturesMarkets.MarketInterests` | sections/dashboard/FuturesMarketsTable/FuturesMarketsTable.tsx:85-96 | the long and short interest of a market are non-negative at a non-negative price; with the skew within the size they sum to size times price and differ by skew times price |
| `FuturesMarkets.ToMarketRow` | sections/dashboard/FuturesMarketsTable/FuturesMarketsTable.tsx:63-100 | a row's open interest is size times price and natively the size; its long and short interest are non-negative at a non-negative price and, with the skew within the size, sum to the open interest and differ by skew times price |
| `FuturesMarkets.VolumeOf` | sections/dashboard/FuturesMarketsTable/FuturesMarketsTable.tsx:65 | a market without a volume entry has volume 0, otherwise its entry |
| `FuturesMarkets.RowVolume` | sections/dashboard/FuturesMarketsTable/FuturesMarketsTable.tsx:77 | the row volume is 0 exactly when the market has no volume entry or a zero one |
| `FuturesMarkets.PastPriceOf` | sections/dashboard/FuturesMarketsTable/FuturesMarketsTable.tsx:66 | the past price is the price of the first daily price entry of the asset, and absent when there is no entry or its price is zero (line 78) |
| `FuturesMarkets.FundingRateOf` | sections/dashboard/FuturesMarketsTable/FuturesMarketsTable.tsx:67-69 | the funding rate is that of the first funding query answering for the asset, and null when none answers or it has no rate (lines 81-82) |
| `FuturesMarkets.RowFundingRateNull` | sections/dashboard/FuturesMarketsTable/FuturesMarketsTable.tsx:81-82 | a row's funding rate is null when no funding query answers for its asset |
| `FuturesMarkets.RowLabelAndCopies` | sections/dashboard/FuturesMarketsTable/FuturesMarketsTable.tsx:71-99 | the label is the display asset followed by `-PERP`; asset, price, skew, suspension and closure reason are copied unchanged |
| `FuturesMarkets.CompareVolume` | sections/dashboard/FuturesMarketsTable/FuturesMarketsTable.tsx:273-280 | the comparator is 1 exactly when the first volume is larger, and -1 otherwise |
| `FuturesMarkets.CompareVolumeNeverTies` | sections/dashboard/FuturesMarketsTable/FuturesMarketsTable.tsx:277 | the comparator never returns 0: it is antisymmetric on different volumes, and equal volumes each compare as -1 |
| `FuturesMarkets.MarketRoute` | sections/dashboard/FuturesMarketsTable/FuturesMarketsTable.tsx:119-121 | a row click navigates to `/market/` followed by the row's asset |
| `FuturesMarkets.MarketRouteInjective` | sections/dashboard/FuturesMarketsTable/FuturesMarketsTable.tsx:120 | rows of different assets lead to different routes |

## Left out

- The Recoil atom and selector machinery (subscriptions, caching, recomputation) is not modelled. Each selector is a function of the order list. Nothing in these files updates the atom.
- The ethers `Transaction` an order carries is an opaque handle (`Orders.TransactionRef`). Its contents do not affect the selectors.
- `toLowerCase` is ASCII-only here. JavaScript's full Unicode case mapping is not modelled.
- Ranks are integers. `toString` of a non-integral or non-finite number is not modelled.
- `Strings.IntToString`: renders every integer in plain digits. JavaScript's `toString` switches to exponent form at magnitude 10^21 and above, and integers beyond 2^53 have no exact JavaScript number. Leaderboard ranks never come near that range.
- `wei(trader.pnl)` is the identity on exact amounts. `pnlPct` is `(`, `formatPercent` of the percentage, `)`; the formatter's output is not modelled.
- `priceChange` (FuturesMarketsTable.tsx:79-80) is left out. It is a floating-point division whose `|| undefined` turns only `NaN` and `0` into `undefined`: a missing past price, or a zero price with a zero past price, gives `NaN`, while a zero price with a non-zero past price gives an infinity that is kept. Exact reals have neither `NaN` nor infinities.
- The `synth` field (FuturesMarketsTable.tsx:74) is left out. It is an object from the connector's `synthsMap` that the row only passes on.
- `Competition.WalletTier`: the source's `walletTier` searches the array it is given, and the data pipeline's `sort` reorders that cached query array in place (Competition.tsx:41 and 51). So a later recomputation of `walletTier` can see the entries in rank order, not file order; the model always searches the data in file order. That only matters when one account has several entries.
- `FuturesMarkets.VolumeOf`: a volume whose `toNumber()` is `NaN` also reads as 0 in the source. Exact reals have no `NaN`.
- Wei's 18-decimal rounding in `div('2')` and the `toNumber()` conversions are not modelled. With them, long plus short interest could be off by rounding.
- The sorting react-table performs with `CompareVolume`, and the rest of the table rendering, are left out. So are `onClickTrader` and navigating with the router.
- The data-fetching hooks are left out: the competition file, lagged daily prices, trading volumes and average funding rates. Their results are inputs.
